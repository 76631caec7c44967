/** Where the parser's words lie in the line: every tree it returns is good, and the ends of its
    words are not inside any word, which is what nulterminate relies on (sh.c). */
module ShellWords {
  import opened Shell

  predicate Suffix(line: string, s: string) { |s| <= |line| && s == line[|line| - |s|..] }

  /** The place of a word in the line. */
  function Start(line: string, w: Word): int { |line| - w.left - |w.text| }
  function EndOf(line: string, w: Word): int { |line| - w.left }

  predicate InPlace(line: string, w: Word) {
    && GoodWord(w.text) && 0 <= Start(line, w) && line[Start(line, w)..EndOf(line, w)] == w.text
    && (w.left == 0 || !IsWordChar(line[EndOf(line, w)]))
  }

  predicate ArgsPlaced(line: string, argv: seq<Word>) {
    |argv| < MAXARGS && forall i :: 0 <= i < |argv| ==> InPlace(line, argv[i])
  }

  predicate RedirsPlaced(line: string, rs: seq<Redirect<Word>>) {
    forall i :: 0 <= i < |rs| ==> InPlace(line, rs[i].file)
  }

  /** All words of a command are words of the line, and no simple command has too many. */
  predicate Placed(line: string, c: Cmd<Word>) {
    match c
    case Exec(argv) => ArgsPlaced(line, argv)
    case Redir(d, file, _) => Placed(line, d) && InPlace(line, file)
    case Pipe(l, r) => Placed(line, l) && Placed(line, r)
    case List(l, r) => Placed(line, l) && Placed(line, r)
    case Back(d) => Placed(line, d)
  }

  lemma SuffixDrop(line: string, s: string, n: nat)
    requires Suffix(line, s) && n <= |s|
    ensures Suffix(line, s[n..])
  {
  }

  lemma {:induction false} SkipSuffix(line: string, s: string)
    requires Suffix(line, s)
    ensures Suffix(line, SkipSpace(s))
    decreases |s|
  {
    if s != "" && IsSpace(s[0]) {
      SuffixDrop(line, s, 1);
      SkipSuffix(line, s[1..]);
    }
  }

  lemma WordInPlace(line: string, t: string)
    requires Suffix(line, t) && '\0' !in line && t != "" && !IsSpace(t[0]) && !IsSymbol(t[0])
    ensures var w := WordAt(t); w != "" && InPlace(line, Word(w, |t| - |w|))
  {
    var w := WordAt(t);
    assert WordAt(t) != "";
    var word := Word(w, |t| - |w|);
    assert line[Start(line, word)..EndOf(line, word)] == w;
    forall i | 0 <= i < |w| ensures IsWordChar(w[i]) {
      assert w[i] == line[Start(line, word) + i] && w[i] in line;
    }
    if word.left != 0 { assert t[|w|] == line[EndOf(line, word)]; }
  }

  lemma TokenPlaced(line: string, s: string)
    requires Suffix(line, s) && '\0' !in line
    ensures Suffix(line, GetToken(s).1)
    ensures GetToken(s).0.Text? ==> InPlace(line, GetToken(s).0.word)
  {
    SkipSuffix(line, s);
    var t := SkipSpace(s);
    if t != "" {
      if t[0] == '>' && |t| > 1 && t[1] == '>' {
        SuffixDrop(line, t, 2);
        SkipSuffix(line, t[2..]);
      } else if IsSymbol(t[0]) {
        SuffixDrop(line, t, 1);
        SkipSuffix(line, t[1..]);
      } else {
        WordInPlace(line, t);
        SuffixDrop(line, t, |WordAt(t)|);
        SkipSuffix(line, t[|WordAt(t)|..]);
      }
    }
  }

  lemma ConsumeSuffix(line: string, s: string)
    requires Suffix(line, s) && '\0' !in line && SkipSpace(s) != ""
    ensures Suffix(line, Consume(s))
  {
    SkipSuffix(line, s);
    TokenPlaced(line, SkipSpace(s));
  }

  lemma {:induction false} ParseRedirsPlaced(line: string, rs: seq<Redirect<Word>>, s: string)
    requires Suffix(line, s) && '\0' !in line && RedirsPlaced(line, rs)
    ensures var r := ParseRedirs(rs, s); r.Ok? ==> Suffix(line, r.rest) && RedirsPlaced(line, r.val)
    decreases |s|
  {
    hide GetToken, SkipSpace, InPlace, Suffix;
    SkipSuffix(line, s);
    if Peek(s, {'<', '>'}) {
      TokenPlaced(line, SkipSpace(s));
      var (tok, s1) := GetToken(SkipSpace(s));
      TokenPlaced(line, s1);
      var (file, s2) := GetToken(s1);
      if file.Text? {
        ParseRedirsPlaced(line, rs + [Redirect(file.word, tok != Symbol('<'))], s2);
      }
    }
  }

  lemma {:induction false} ParseArgsPlaced(line: string, argv: seq<Word>, rs: seq<Redirect<Word>>, s: string)
    requires Suffix(line, s) && '\0' !in line && ArgsPlaced(line, argv) && RedirsPlaced(line, rs)
    ensures var r := ParseArgs(argv, rs, s);
            r.Ok? ==> Suffix(line, r.rest) && ArgsPlaced(line, r.val.argv) && RedirsPlaced(line, r.val.rs)
    decreases |s|
  {
    hide GetToken, SkipSpace, InPlace, Suffix, ParseRedirs;
    SkipSuffix(line, s);
    if !Peek(s, {'|', ')', '&', ';'}) {
      TokenPlaced(line, SkipSpace(s));
      var (tok, s1) := GetToken(SkipSpace(s));
      if tok.Text? && |argv| + 1 < MAXARGS {
        ParseRedirsPlaced(line, rs, s1);
        var r := ParseRedirs(rs, s1);
        if r.Ok? { ParseArgsPlaced(line, argv + [tok.word], r.val, r.rest); }
      }
    }
  }

  lemma {:induction false} WrapPlaced(line: string, c: Cmd<Word>, rs: seq<Redirect<Word>>)
    requires Placed(line, c) && RedirsPlaced(line, rs)
    ensures Placed(line, Wrap(c, rs))
    decreases |rs|
  {
    if rs != [] {
      WrapPlaced(line, Redir(c, rs[0].file, rs[0].output), rs[1..]);
    }
  }

  lemma {:induction false} ExecPlaced(line: string, s: string)
    requires Suffix(line, s) && '\0' !in line
    ensures var r := ParseExec(s); r.Ok? ==> Suffix(line, r.rest) && Placed(line, r.val)
    decreases |s|, 1
  {
    hide GetToken, SkipSpace, InPlace, Suffix, ParseRedirs, ParseArgs;
    SkipSuffix(line, s);
    if Peek(s, {'('}) {
      BlockPlaced(line, SkipSpace(s));
    } else {
      ParseRedirsPlaced(line, [], s);
      var r := ParseRedirs([], s);
      if r.Ok? {
        ParseArgsPlaced(line, [], r.val, r.rest);
        var a := ParseArgs([], r.val, r.rest);
        if a.Ok? { WrapPlaced(line, Exec(a.val.argv), a.val.rs); }
      }
    }
  }

  lemma {:induction false} BlockPlaced(line: string, s: string)
    requires Suffix(line, s) && '\0' !in line
    ensures var r := ParseBlock(s); r.Ok? ==> Suffix(line, r.rest) && Placed(line, r.val)
    decreases |s|, 0
  {
    hide Consume, SkipSpace, InPlace, Suffix, ParseRedirs;
    if Peek(s, {'('}) {
      ConsumeSuffix(line, s);
      LinePlaced(line, Consume(s));
      var r := ParseLine(Consume(s));
      if r.Ok? && Peek(r.rest, {')'}) {
        ConsumeSuffix(line, r.rest);
        ParseRedirsPlaced(line, [], Consume(r.rest));
        var q := ParseRedirs([], Consume(r.rest));
        if q.Ok? { WrapPlaced(line, r.val, q.val); }
      }
    }
  }

  lemma {:induction false} PipePlaced(line: string, s: string)
    requires Suffix(line, s) && '\0' !in line
    ensures var r := ParsePipe(s); r.Ok? ==> Suffix(line, r.rest) && Placed(line, r.val)
    decreases |s|, 2
  {
    hide Consume, SkipSpace, InPlace, Suffix;
    ExecPlaced(line, s);
    var r := ParseExec(s);
    if r.Ok? {
      SkipSuffix(line, r.rest);
      if Peek(r.rest, {'|'}) {
        ConsumeSuffix(line, r.rest);
        PipePlaced(line, Consume(r.rest));
      }
    }
  }

  lemma {:induction false} BacksPlaced(line: string, c: Cmd<Word>, s: string)
    requires Suffix(line, s) && '\0' !in line && Placed(line, c)
    ensures var r := ParseBacks(c, s); Suffix(line, r.rest) && Placed(line, r.val)
    decreases |s|
  {
    hide Consume, SkipSpace, InPlace, Suffix;
    SkipSuffix(line, s);
    if Peek(s, {'&'}) {
      ConsumeSuffix(line, s);
      BacksPlaced(line, Back(c), Consume(s));
    }
  }

  lemma {:induction false} LinePlaced(line: string, s: string)
    requires Suffix(line, s) && '\0' !in line
    ensures var r := ParseLine(s); r.Ok? ==> Suffix(line, r.rest) && Placed(line, r.val)
    decreases |s|, 3
  {
    hide Consume, SkipSpace, InPlace, Suffix, ParseBacks;
    PipePlaced(line, s);
    var r := ParsePipe(s);
    if r.Ok? {
      BacksPlaced(line, r.val, r.rest);
      var b := ParseBacks(r.val, r.rest);
      SkipSuffix(line, b.rest);
      if Peek(b.rest, {';'}) {
        ConsumeSuffix(line, b.rest);
        LinePlaced(line, Consume(b.rest));
      }
    }
  }

  lemma {:induction false} PlacedGood(line: string, c: Cmd<Word>)
    requires Placed(line, c)
    ensures Good(Plain(c))
    decreases c
  {
    match c
    case Exec(argv) => forall i | 0 <= i < |argv| ensures GoodWord(Texts(argv)[i]) { assert InPlace(line, argv[i]); }
    case Redir(d, _, _) => PlacedGood(line, d);
    case Pipe(l, r) => PlacedGood(line, l); PlacedGood(line, r);
    case List(l, r) => PlacedGood(line, l); PlacedGood(line, r);
    case Back(d) => PlacedGood(line, d);
  }

  /** Every line the shell accepts gives a good tree whose words lie in the line; printing the tree
      gives a line with the same tree. */
  lemma PrintParse(line: string)
    requires '\0' !in line && ParseCmd(line).Ok?
    ensures var t := Plain(ParseCmd(line).val);
            && Placed(line, ParseCmd(line).val) && Good(t)
            && ParseCmd(Print(t, 3)).Ok? && Plain(ParseCmd(Print(t, 3)).val) == t
  {
    assert Suffix(line, line);
    LinePlaced(line, line);
    PlacedGood(line, ParseCmd(line).val);
    ParsePrint(Plain(ParseCmd(line).val));
    hide ParseLine, Print, Placed, Good;
  }

  // ------------------------------------------------------------ nulterminate

  /** Some word of the command ends at position i. */
  predicate EndsAt(line: string, c: Cmd<Word>, i: int) {
    match c
    case Exec(argv) => exists k :: 0 <= k < |argv| && EndOf(line, argv[k]) == i
    case Redir(d, file, _) => EndsAt(line, d, i) || EndOf(line, file) == i
    case Pipe(l, r) => EndsAt(line, l, i) || EndsAt(line, r, i)
    case List(l, r) => EndsAt(line, l, i) || EndsAt(line, r, i)
    case Back(d) => EndsAt(line, d, i)
  }

  /** w is one of the command's words. */
  predicate HasWord(c: Cmd<Word>, w: Word) {
    match c
    case Exec(argv) => w in argv
    case Redir(d, file, _) => HasWord(d, w) || file == w
    case Pipe(l, r) => HasWord(l, w) || HasWord(r, w)
    case List(l, r) => HasWord(l, w) || HasWord(r, w)
    case Back(d) => HasWord(d, w)
  }

  /** The line's buffer, with its final NUL, after nulterminate. */
  function Terminated(line: string, c: Cmd<Word>): (r: string)
    ensures |r| == |line| + 1
    ensures forall i: nat :: i <= |line| ==> r[i] == if EndsAt(line, c, i) || i == |line| then '\0' else line[i]
  {
    seq(|line| + 1, i requires 0 <= i <= |line| => if EndsAt(line, c, i) || i == |line| then '\0' else line[i])
  }

  lemma {:induction false} EndsOutside(line: string, c: Cmd<Word>, i: nat)
    requires Placed(line, c) && EndsAt(line, c, i)
    ensures i <= |line| && (i < |line| ==> !IsWordChar(line[i]))
    decreases c
  {
    match c
    case Exec(argv) =>
      var k :| 0 <= k < |argv| && EndOf(line, argv[k]) == i;
      assert InPlace(line, argv[k]);
    case Redir(d, _, _) => if EndsAt(line, d, i) { EndsOutside(line, d, i); }
    case Pipe(l, r) => if EndsAt(line, l, i) { EndsOutside(line, l, i); } else { EndsOutside(line, r, i); }
    case List(l, r) => if EndsAt(line, l, i) { EndsOutside(line, l, i); } else { EndsOutside(line, r, i); }
    case Back(d) => EndsOutside(line, d, i);
  }

  lemma {:induction false} WordOf(line: string, c: Cmd<Word>, w: Word)
    requires Placed(line, c) && HasWord(c, w)
    ensures InPlace(line, w) && EndsAt(line, c, EndOf(line, w))
    decreases c
  {
    match c
    case Exec(argv) =>
      var k :| 0 <= k < |argv| && argv[k] == w;
      assert InPlace(line, argv[k]);
    case Redir(d, file, _) => if HasWord(d, w) { WordOf(line, d, w); }
    case Pipe(l, r) => if HasWord(l, w) { WordOf(line, l, w); } else { WordOf(line, r, w); }
    case List(l, r) => if HasWord(l, w) { WordOf(line, l, w); } else { WordOf(line, r, w); }
    case Back(d) => WordOf(line, d, w);
  }

  /** After nulterminate every word of the command is still there and is followed by a NUL. */
  lemma WordsSurvive(line: string, c: Cmd<Word>, w: Word)
    requires Placed(line, c) && HasWord(c, w)
    ensures var b := Terminated(line, c);
            0 <= Start(line, w) && EndOf(line, w) < |b| && b[Start(line, w)..EndOf(line, w)] == w.text
              && b[EndOf(line, w)] == '\0'
  {
    WordOf(line, c, w);
    var b, i, j := Terminated(line, c), Start(line, w), EndOf(line, w);
    forall k | i <= k < j ensures b[k] == line[k] {
      assert IsWordChar(line[k]) by { assert line[k] == line[i..j][k - i] == w.text[k - i]; }
      if EndsAt(line, c, k) { EndsOutside(line, c, k); }
    }
    assert b[i..j] == line[i..j];
  }
}
