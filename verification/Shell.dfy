/** The shell's grammar as functions on the rest of the input line (sh.c). A word remembers how
    much input is left behind it, which gives its place in the line. */
module Shell {
  const MAXARGS := 10

  predicate IsSpace(c: char) { c == ' ' || c == '\t' || c == '\r' || c == '\n' || c == '\U{0b}' }
  predicate IsSymbol(c: char) { c == '<' || c == '|' || c == '>' || c == '&' || c == ';' || c == '(' || c == ')' }
  predicate IsWordChar(c: char) { !IsSpace(c) && !IsSymbol(c) && c != '\0' }

  /** A command tree over words of type W. A redirection is input (<) or output (> and >>). */
  datatype Cmd<W> =
    | Exec(argv: seq<W>)
    | Redir(cmd: Cmd<W>, file: W, output: bool)
    | Pipe(left: Cmd<W>, right: Cmd<W>)
    | List(left: Cmd<W>, right: Cmd<W>)
    | Back(cmd: Cmd<W>)

  datatype Word = Word(text: string, left: nat)

  datatype Redirect<W> = Redirect(file: W, output: bool)

  /** A panic of the parser is an outcome. */
  datatype Result<T> = Ok(val: T, rest: string) | Panic

  // ----------------------------------------------------------------- tokens

  function SkipSpace(s: string): (r: string)
    ensures |r| <= |s| && (r != "" ==> !IsSpace(r[0]))
  {
    if s != "" && IsSpace(s[0]) then SkipSpace(s[1..]) else s
  }

  /** The longest word at the start. */
  function WordAt(s: string): (w: string)
    ensures |w| <= |s| && w == s[..|w|] && (forall i :: 0 <= i < |w| ==> !IsSpace(w[i]) && !IsSymbol(w[i]))
    ensures |w| < |s| ==> IsSpace(s[|w|]) || IsSymbol(s[|w|])
  {
    if s == "" || IsSpace(s[0]) || IsSymbol(s[0]) then ""
    else
      assert s == [s[0]] + s[1..];
      [s[0]] + WordAt(s[1..])
  }

  datatype Token = End | Symbol(c: char) | Append | Text(word: Word)

  function GetToken(s: string): (r: (Token, string))
    ensures |r.1| <= |s| && (r.0 != End ==> |r.1| < |s|)
  {
    var t := SkipSpace(s);
    if t == "" then (End, "")
    else if t[0] == '>' && |t| > 1 && t[1] == '>' then (Append, SkipSpace(t[2..]))
    else if IsSymbol(t[0]) then (Symbol(t[0]), SkipSpace(t[1..]))
    else
      var w := WordAt(t);
      (Text(Word(w, |t| - |w|)), SkipSpace(t[|w|..]))
  }

  /** peek: the next character that is not a space is one of these. */
  predicate Peek(s: string, toks: set<char>): (r: bool)
    ensures r ==> SkipSpace(s) != ""
  {
    var t := SkipSpace(s);
    t != "" && t[0] in toks
  }

  /** gettoken past a symbol that peek has seen. */
  function Consume(s: string): (r: string)
    requires SkipSpace(s) != ""
    ensures |r| < |s|
  {
    GetToken(SkipSpace(s)).1
  }

  // ----------------------------------------------------------------- grammar

  /** parseredirs, collecting what it wraps around the command. */
  function ParseRedirs(rs: seq<Redirect<Word>>, s: string): (r: Result<seq<Redirect<Word>>>)
    ensures r.Ok? ==> |r.rest| <= |s|
    decreases |s|
  {
    if !Peek(s, {'<', '>'}) then Ok(rs, SkipSpace(s))
    else
      var (tok, s1) := GetToken(SkipSpace(s));
      var (file, s2) := GetToken(s1);
      if !file.Text? then Panic else ParseRedirs(rs + [Redirect(file.word, tok != Symbol('<'))], s2)
  }

  /** The redirections around a command, first one innermost. */
  function Wrap<W>(c: Cmd<W>, rs: seq<Redirect<W>>): Cmd<W>
    decreases |rs|
  {
    if rs == [] then c else Wrap(Redir(c, rs[0].file, rs[0].output), rs[1..])
  }

  datatype Simple = Simple(argv: seq<Word>, rs: seq<Redirect<Word>>)

  /** parseexec's loop: words, each followed by any redirections. */
  function ParseArgs(argv: seq<Word>, rs: seq<Redirect<Word>>, s: string): (r: Result<Simple>)
    ensures r.Ok? ==> |r.rest| <= |s|
    decreases |s|
  {
    if Peek(s, {'|', ')', '&', ';'}) then Ok(Simple(argv, rs), SkipSpace(s))
    else
      var (tok, s1) := GetToken(SkipSpace(s));
      if tok == End then Ok(Simple(argv, rs), s1)
      else if !tok.Text? || |argv| + 1 >= MAXARGS then Panic
      else match ParseRedirs(rs, s1)
        case Panic => Panic
        case Ok(rs', s2) => ParseArgs(argv + [tok.word], rs', s2)
  }

  function ParseExec(s: string): (r: Result<Cmd<Word>>)
    ensures r.Ok? ==> |r.rest| <= |s|
    decreases |s|, 1
  {
    if Peek(s, {'('}) then ParseBlock(SkipSpace(s))
    else match ParseRedirs([], s)
      case Panic => Panic
      case Ok(rs, s1) =>
        match ParseArgs([], rs, s1)
        case Panic => Panic
        case Ok(simple, s2) => Ok(Wrap(Exec(simple.argv), simple.rs), s2)
  }

  function ParseBlock(s: string): (r: Result<Cmd<Word>>)
    ensures r.Ok? ==> |r.rest| <= |s|
    decreases |s|, 0
  {
    if !Peek(s, {'('}) then Panic
    else match ParseLine(Consume(s))
      case Panic => Panic
      case Ok(c, s1) =>
        if !Peek(s1, {')'}) then Panic
        else match ParseRedirs([], Consume(s1))
          case Panic => Panic
          case Ok(rs, s2) => Ok(Wrap(c, rs), s2)
  }

  function ParsePipe(s: string): (r: Result<Cmd<Word>>)
    ensures r.Ok? ==> |r.rest| <= |s|
    decreases |s|, 2
  {
    match ParseExec(s)
    case Panic => Panic
    case Ok(c, s1) =>
      if !Peek(s1, {'|'}) then Ok(c, SkipSpace(s1))
      else match ParsePipe(Consume(s1))
        case Panic => Panic
        case Ok(d, s2) => Ok(Pipe(c, d), s2)
  }

  /** parseline's loop over ampersands. */
  function ParseBacks(c: Cmd<Word>, s: string): (r: Result<Cmd<Word>>)
    ensures r.Ok? && |r.rest| <= |s|
    decreases |s|
  {
    if Peek(s, {'&'}) then ParseBacks(Back(c), Consume(s)) else Ok(c, SkipSpace(s))
  }

  function ParseLine(s: string): (r: Result<Cmd<Word>>)
    ensures r.Ok? ==> |r.rest| <= |s|
    decreases |s|, 3
  {
    match ParsePipe(s)
    case Panic => Panic
    case Ok(c, s1) =>
      var b := ParseBacks(c, s1);
      if !Peek(b.rest, {';'}) then Ok(b.val, SkipSpace(b.rest))
      else match ParseLine(Consume(b.rest))
        case Panic => Panic
        case Ok(d, s2) => Ok(List(b.val, d), s2)
  }

  /** parsecmd: the whole line or a panic. */
  function ParseCmd(s: string): Result<Cmd<Word>> {
    match ParseLine(s)
    case Panic => Panic
    case Ok(c, s1) => if SkipSpace(s1) != "" then Panic else Ok(c, "")
  }

  // ---------------------------------------------------------------- printing

  /** The words' texts only. */
  function Plain(c: Cmd<Word>): Cmd<string> {
    match c
    case Exec(argv) => Exec(Texts(argv))
    case Redir(d, file, output) => Redir(Plain(d), file.text, output)
    case Pipe(l, r) => Pipe(Plain(l), Plain(r))
    case List(l, r) => List(Plain(l), Plain(r))
    case Back(d) => Back(Plain(d))
  }

  function Texts(argv: seq<Word>): (r: seq<string>)
    ensures |r| == |argv| && forall i :: 0 <= i < |r| ==> r[i] == argv[i].text
  {
    seq(|argv|, i requires 0 <= i < |argv| => argv[i].text)
  }

  predicate GoodWord(w: string) { w != "" && forall i :: 0 <= i < |w| ==> IsWordChar(w[i]) }

  /** Trees the shell can represent: real words, at most nine arguments. */
  predicate Good(t: Cmd<string>) {
    match t
    case Exec(argv) => |argv| < MAXARGS && forall i :: 0 <= i < |argv| ==> GoodWord(argv[i])
    case Redir(c, file, _) => Good(c) && GoodWord(file)
    case Pipe(l, r) => Good(l) && Good(r)
    case List(l, r) => Good(l) && Good(r)
    case Back(c) => Good(c)
  }

  /** Grammar levels: 0 parseexec, 1 parsepipe, 2 parseline up to its semicolon, 3 parseline. */
  function Level<W>(t: Cmd<W>): (n: nat)
    ensures n <= 3
  {
    match t
    case Exec(_) => 0
    case Redir(_, _, _) => 0
    case Pipe(_, _) => 1
    case Back(_) => 2
    case List(_, _) => 3
  }

  /** t where level lev is expected, with parentheses if it needs them. */
  function Print(t: Cmd<string>, lev: nat): string
    decreases t, 1
  {
    if Level(t) <= lev then Body(t) else "(" + Body(t) + ")"
  }

  function Body(t: Cmd<string>): string
    decreases t, 0
  {
    match t
    case Exec(argv) => Words(argv)
    case Redir(c, file, output) => Print(c, 0) + RedirText(Redirect(file, output))
    case Pipe(l, r) => Print(l, 0) + "|" + Print(r, 1)
    case Back(c) => Print(c, 2) + "&"
    case List(l, r) => Print(l, 2) + ";" + Print(r, 3)
  }

  function Words(argv: seq<string>): string {
    if argv == [] then "" else " " + argv[0] + Words(argv[1..])
  }

  function RedirText(r: Redirect<string>): string { (if r.output then ">" else "<") + r.file }

  function RedirsText(rs: seq<Redirect<string>>): string {
    if rs == [] then "" else RedirText(rs[0]) + RedirsText(rs[1..])
  }

  // ------------------------------------------------- parsing what was printed

  /** What may follow a phrase of each level. */
  function Follow(lev: nat): set<char> {
    if lev == 0 then {'|', '&', ';', ')'} else if lev == 1 then {'&', ';', ')'} else if lev == 2 then {';', ')'}
      else {')'}
  }

  predicate Stops(rest: string, lev: nat) { rest == "" || rest[0] in Follow(lev) }

  lemma StopsAt(rest: string, lev: nat)
    requires Stops(rest, lev)
    ensures SkipSpace(rest) == rest && Stops(rest, 0)
    ensures rest != "" ==> IsSymbol(rest[0]) && rest[0] != '<' && rest[0] != '>' && rest[0] != '('
  {
  }

  /** A good word followed by anything that cannot continue it. */
  lemma {:induction false} WordRead(w: string, rest: string)
    requires (forall i :: 0 <= i < |w| ==> IsWordChar(w[i])) && Breaks(rest)
    ensures WordAt(w + rest) == w
  {
    if w == "" {
      assert w + rest == rest;
    } else {
      assert (w + rest)[1..] == w[1..] + rest;
      WordRead(w[1..], rest);
      assert w == [w[0]] + w[1..];
    }
  }

  predicate Breaks(rest: string) { rest == "" || (!IsWordChar(rest[0]) && rest[0] != '\0') }

  lemma TextToken(w: string, rest: string)
    requires GoodWord(w) && Breaks(rest)
    ensures GetToken(w + rest) == (Text(Word(w, |rest|)), SkipSpace(rest))
  {
    assert SkipSpace(w + rest) == w + rest by { assert (w + rest)[0] == w[0]; }
    WordRead(w, rest);
    assert (w + rest)[|w|..] == rest;
  }

  lemma SpaceBefore(s: string)
    ensures SkipSpace(" " + s) == SkipSpace(s)
  {
    assert (" " + s)[1..] == s;
  }

  function PlainRedirs(rs: seq<Redirect<Word>>): (r: seq<Redirect<string>>)
    ensures |r| == |rs| && forall i :: 0 <= i < |r| ==> r[i] == Redirect(rs[i].file.text, rs[i].output)
  {
    seq(|rs|, i requires 0 <= i < |rs| => Redirect(rs[i].file.text, rs[i].output))
  }

  predicate GoodRedirs(rs: seq<Redirect<string>>) { forall i :: 0 <= i < |rs| ==> GoodWord(rs[i].file) }

  /** The text of redirections begins with a redirection sign, or with what follows. */
  lemma RedirsBreak(rs: seq<Redirect<string>>, rest: string)
    requires Stops(rest, 0)
    ensures Breaks(RedirsText(rs) + rest)
    ensures rs == [] ==> RedirsText(rs) + rest == rest
  {
    StopsAt(rest, 0);
    if rs != [] {
      assert (RedirsText(rs) + rest)[0] == if rs[0].output then '>' else '<';
    } else {
      assert RedirsText(rs) + rest == rest;
    }
  }

  lemma RedirRead(r: Redirect<string>, rest: string)
    requires GoodWord(r.file) && Breaks(rest)
    ensures var s := RedirText(r) + rest; var (tok, s1) := GetToken(SkipSpace(s));
            && Peek(s, {'<', '>'}) && tok == Symbol(if r.output then '>' else '<') && s1 == r.file + rest
  {
    var s := RedirText(r) + rest;
    assert s == (if r.output then ">" else "<") + (r.file + rest);
    assert SkipSpace(s) == s;
    assert s[1..] == r.file + rest && s[1] == r.file[0];
    assert SkipSpace(r.file + rest) == r.file + rest by { assert (r.file + rest)[0] == r.file[0]; }
  }

  lemma RedirsStep(done: seq<Redirect<Word>>, r: Redirect<string>, rest: string)
    requires GoodWord(r.file) && Breaks(rest)
    ensures ParseRedirs(done, RedirText(r) + rest) == ParseRedirs(done + [Redirect(Word(r.file, |rest|), r.output)],
                                                                  SkipSpace(rest))
  {
    RedirRead(r, rest);
    TextToken(r.file, rest);
    hide GetToken, SkipSpace, Peek, RedirText, GoodWord, Breaks;
  }

  /** All of the text before `rest` was read, as these redirections. */
  predicate RedirsAre(r: Result<seq<Redirect<Word>>>, rest: string, rs: seq<Redirect<string>>) {
    r.Ok? && r.rest == rest && PlainRedirs(r.val) == rs
  }

  lemma NoRedirs(done: seq<Redirect<Word>>, rest: string)
    requires Stops(rest, 0)
    ensures ParseRedirs(done, rest) == Ok(done, rest)
  {
    StopsAt(rest, 0);
  }

  lemma RedirsSplit(rs: seq<Redirect<string>>, rest: string)
    requires rs != []
    ensures RedirsText(rs) + rest == RedirText(rs[0]) + (RedirsText(rs[1..]) + rest)
  {
  }

  lemma PlainNext(done: seq<Redirect<Word>>, next: Redirect<Word>, rs: seq<Redirect<string>>)
    requires rs != [] && rs[0] == Redirect(next.file.text, next.output)
    ensures PlainRedirs(done + [next]) + rs[1..] == PlainRedirs(done) + rs
  {
    assert PlainRedirs(done + [next]) == PlainRedirs(done) + [rs[0]];
  }

  lemma {:induction false} RedirsRead(done: seq<Redirect<Word>>, rs: seq<Redirect<string>>, rest: string)
    requires GoodRedirs(rs) && Stops(rest, 0)
    ensures RedirsAre(ParseRedirs(done, RedirsText(rs) + rest), rest, PlainRedirs(done) + rs)
    decreases |rs|
  {
    hide *;
    if rs == [] {
      RedirsBreak(rs, rest);
      NoRedirs(done, rest);
      NoneAre(done, rest);
      assert PlainRedirs(done) + rs == PlainRedirs(done);
    } else {
      var more := RedirsText(rs[1..]) + rest;
      RedirsSplit(rs, rest);
      GoodTail(rs);
      RedirsBreak(rs[1..], rest);
      RedirsStep(done, rs[0], more);
      var next := Redirect(Word(rs[0].file, |more|), rs[0].output);
      SkipNone(rs[1..], rest);
      RedirsRead(done + [next], rs[1..], rest);
      PlainNext(done, next, rs);
    }
  }

  lemma NoneAre(done: seq<Redirect<Word>>, rest: string)
    ensures RedirsAre(Ok(done, rest), rest, PlainRedirs(done))
  {
  }

  lemma GoodTail(rs: seq<Redirect<string>>)
    requires GoodRedirs(rs) && rs != []
    ensures GoodWord(rs[0].file) && GoodRedirs(rs[1..])
  {
  }

  lemma SkipNone(rs: seq<Redirect<string>>, rest: string)
    requires Stops(rest, 0)
    ensures SkipSpace(RedirsText(rs) + rest) == RedirsText(rs) + rest
  {
    StopsAt(rest, 0);
    RedirsBreak(rs, rest);
    if rs != [] {
      assert (RedirsText(rs) + rest)[0] == if rs[0].output then '>' else '<';
    }
  }

  // ------------------------------------------------------- simple commands

  lemma SkipTwice(s: string)
    ensures SkipSpace(SkipSpace(s)) == SkipSpace(s)
  {
  }

  lemma ArgsSkip(argv: seq<Word>, rs: seq<Redirect<Word>>, s: string)
    ensures ParseArgs(argv, rs, SkipSpace(s)) == ParseArgs(argv, rs, s)
  {
    SkipTwice(s);
    hide GetToken, SkipSpace, ParseRedirs;
  }

  predicate GoodArgs(argv: seq<string>) { forall i :: 0 <= i < |argv| ==> GoodWord(argv[i]) }

  /** All of the text before `rest` was read, as this simple command. */
  predicate SimpleIs(r: Result<Simple>, rest: string, argv: seq<string>, rs: seq<Redirect<string>>) {
    r.Ok? && r.rest == rest && Texts(r.val.argv) == argv && PlainRedirs(r.val.rs) == rs
  }

  /** Before a word there is no symbol to peek at. */
  lemma WordAhead(w: string, rest: string)
    requires GoodWord(w)
    ensures SkipSpace(" " + w + rest) == w + rest
    ensures !Peek(" " + w + rest, {'|', ')', '&', ';'}) && !Peek(" " + w + rest, {'<', '>'})
            && !Peek(" " + w + rest, {'('})
    ensures !Peek(w + rest, {'<', '>'}) && SkipSpace(w + rest) == w + rest
  {
    assert " " + w + rest == " " + (w + rest);
    SpaceBefore(w + rest);
    assert (w + rest)[0] == w[0];
    assert SkipSpace(w + rest) == w + rest;
  }

  /** The end of a simple command. */
  lemma ArgsEnd(argv: seq<Word>, rs: seq<Redirect<Word>>, rest: string)
    requires Stops(rest, 0)
    ensures ParseArgs(argv, rs, rest) == Ok(Simple(argv, rs), rest)
  {
    StopsAt(rest, 0);
  }

  lemma ArgsStep(done: seq<Word>, rs: seq<Redirect<Word>>, w: string, more: string)
    requires GoodWord(w) && Breaks(more) && |done| + 1 < MAXARGS
    ensures var r := ParseRedirs(rs, SkipSpace(more));
            ParseArgs(done, rs, " " + w + more) == if r.Panic? then Panic
              else ParseArgs(done + [Word(w, |more|)], r.val, r.rest)
  {
    WordAhead(w, more);
    TextToken(w, more);
    hide GetToken, SkipSpace, Peek, ParseRedirs, GoodWord, Breaks;
  }

  function Tail(argv: seq<string>, rs: seq<Redirect<string>>, rest: string): string {
    Words(argv) + (RedirsText(rs) + rest)
  }

  lemma TailSplit(argv: seq<string>, rs: seq<Redirect<string>>, rest: string)
    requires argv != []
    ensures Tail(argv, rs, rest) == " " + argv[0] + Tail(argv[1..], rs, rest)
  {
  }

  lemma TailNone(rs: seq<Redirect<string>>, rest: string)
    ensures Tail([], rs, rest) == RedirsText(rs) + rest
  {
  }

  lemma TailBreaks(argv: seq<string>, rs: seq<Redirect<string>>, rest: string)
    requires Stops(rest, 0)
    ensures Breaks(Tail(argv, rs, rest))
  {
    if argv == [] {
      TailNone(rs, rest);
      RedirsBreak(rs, rest);
    } else {
      TailSplit(argv, rs, rest);
    }
  }

  lemma TextsNext(done: seq<Word>, w: Word, argv: seq<string>)
    requires argv != [] && argv[0] == w.text
    ensures Texts(done + [w]) + argv[1..] == Texts(done) + argv
  {
    assert Texts(done + [w]) == Texts(done) + [w.text];
  }

  lemma SimpleAre(argv: seq<Word>, r: Result<seq<Redirect<Word>>>, rest: string, rs: seq<Redirect<string>>)
    requires RedirsAre(r, rest, rs)
    ensures r.Ok? && r.rest == rest && SimpleIs(Ok(Simple(argv, r.val), rest), rest, Texts(argv), rs)
  {
  }

  lemma RedirsNotYet(rs: seq<Redirect<Word>>, w: string, rest: string)
    requires GoodWord(w)
    ensures ParseRedirs(rs, w + rest) == Ok(rs, w + rest)
  {
    WordAhead(w, rest);
  }

  lemma GoodArgsTail(argv: seq<string>)
    requires GoodArgs(argv) && argv != []
    ensures GoodWord(argv[0]) && GoodArgs(argv[1..])
  {
  }

  lemma NoneBefore(rs: seq<Redirect<string>>)
    ensures PlainRedirs([]) + rs == rs
  {
    assert PlainRedirs([]) == [];
  }

  lemma {:induction false} ArgsRead(done: seq<Word>, argv: seq<string>, rs: seq<Redirect<string>>, rest: string)
    requires argv != [] && GoodArgs(argv) && GoodRedirs(rs) && Stops(rest, 0) && |done| + |argv| < MAXARGS
    ensures SimpleIs(ParseArgs(done, [], Tail(argv, rs, rest)), rest, Texts(done) + argv, rs)
    decreases |argv|
  {
    hide *;
    var w, more := argv[0], Tail(argv[1..], rs, rest);
    TailSplit(argv, rs, rest);
    TailBreaks(argv[1..], rs, rest);
    GoodArgsTail(argv);
    ArgsStep(done, [], w, more);
    TextsNext(done, Word(w, |more|), argv);
    if |argv| == 1 {
      assert argv[1..] == [];
      TailNone(rs, rest);
      SkipNone(rs, rest);
      RedirsRead([], rs, rest);
      NoneBefore(rs);
      var r := ParseRedirs([], RedirsText(rs) + rest);
      SimpleAre(done + [Word(w, |more|)], r, rest, rs);
      ArgsEnd(done + [Word(w, |more|)], r.val, rest);
      assert Texts(done + [Word(w, |more|)]) + [] == Texts(done + [Word(w, |more|)]);
    } else {
      TailSplit(argv[1..], rs, rest);
      GoodArgsTail(argv[1..]);
      WordAhead(argv[1..][0], Tail(argv[1..][1..], rs, rest));
      RedirsNotYet([], argv[1..][0], Tail(argv[1..][1..], rs, rest));
      ArgsSkip(done + [Word(w, |more|)], [], more);
      ArgsRead(done + [Word(w, |more|)], argv[1..], rs, rest);
    }
  }

  /** A simple command with its redirections, through parseexec. */
  lemma ExecRead(argv: seq<string>, rs: seq<Redirect<string>>, rest: string)
    requires GoodArgs(argv) && GoodRedirs(rs) && Stops(rest, 0) && |argv| < MAXARGS
    ensures Reads(ParseExec(Tail(argv, rs, rest)), Wrap(Exec(argv), rs), rest)
  {
    hide *;
    if argv == [] {
      TailNone(rs, rest);
      NoParen(rs, rest);
      RedirsRead([], rs, rest);
      NoneBefore(rs);
      var r := ParseRedirs([], RedirsText(rs) + rest);
      SimpleAre([], r, rest, rs);
      ArgsEnd([], r.val, rest);
      ExecFrom(Tail(argv, rs, rest), argv, rs, rest);
    } else {
      TailSplit(argv, rs, rest);
      GoodArgsTail(argv);
      var more := Tail(argv[1..], rs, rest);
      WordAhead(argv[0], more);
      SpaceRedirs(argv[0], more);
      ArgsSkip([], [], Tail(argv, rs, rest));
      ArgsRead([], argv, rs, rest);
      NoTexts(argv);
      ExecFrom(Tail(argv, rs, rest), argv, rs, rest);
    }
  }

  lemma NoTexts(argv: seq<string>)
    ensures Texts([]) == [] && Texts([]) + argv == argv
  {
  }

  lemma NoParen(rs: seq<Redirect<string>>, rest: string)
    requires Stops(rest, 0)
    ensures !Peek(RedirsText(rs) + rest, {'('})
  {
    SkipNone(rs, rest);
    StopsAt(rest, 0);
    RedirsBreak(rs, rest);
    if rs != [] { assert (RedirsText(rs) + rest)[0] == if rs[0].output then '>' else '<'; }
  }

  lemma SpaceRedirs(w: string, rest: string)
    requires GoodWord(w)
    ensures ParseRedirs([], " " + w + rest) == Ok([], w + rest)
  {
    WordAhead(w, rest);
  }

  /** All of the text before `rest` was read, as a command with this tree. */
  predicate Reads(r: Result<Cmd<Word>>, t: Cmd<string>, rest: string) { r.Ok? && r.rest == rest && Plain(r.val) == t }

  lemma ExecFrom(s: string, argv: seq<string>, rs: seq<Redirect<string>>, rest: string)
    requires !Peek(s, {'('}) && ParseRedirs([], s).Ok?
    requires SimpleIs(ParseArgs([], ParseRedirs([], s).val, ParseRedirs([], s).rest), rest, argv, rs)
    ensures Reads(ParseExec(s), Wrap(Exec(argv), rs), rest)
  {
    var simple := ParseArgs([], ParseRedirs([], s).val, ParseRedirs([], s).rest).val;
    PlainWrap(Exec(simple.argv), simple.rs);
    hide Peek, ParseRedirs, ParseArgs;
  }

  lemma {:induction false} PlainWrap(c: Cmd<Word>, rs: seq<Redirect<Word>>)
    ensures Plain(Wrap(c, rs)) == Wrap(Plain(c), PlainRedirs(rs))
    decreases |rs|
  {
    if rs != [] {
      PlainWrap(Redir(c, rs[0].file, rs[0].output), rs[1..]);
      assert PlainRedirs(rs)[1..] == PlainRedirs(rs[1..]);
    }
  }

  // -------------------------------------------------------------- all levels

  function ParseLevel(lev: nat, s: string): Result<Cmd<Word>> {
    if lev == 0 then ParseExec(s)
    else if lev == 1 then ParsePipe(s)
    else if lev == 2 then
      match ParsePipe(s)
      case Panic => Panic
      case Ok(c, s1) => ParseBacks(c, s1)
    else ParseLine(s)
  }

  lemma ExecSkip(s: string)
    ensures ParseExec(SkipSpace(s)) == ParseExec(s)
  {
    SkipTwice(s);
    hide GetToken, SkipSpace, ParseArgs;
  }

  lemma PipeSkip(s: string)
    ensures ParsePipe(SkipSpace(s)) == ParsePipe(s)
  {
    ExecSkip(s);
    hide SkipSpace, ParseExec;
  }

  lemma LineSkip(s: string)
    ensures ParseLine(SkipSpace(s)) == ParseLine(s)
  {
    PipeSkip(s);
    hide SkipSpace, ParsePipe;
  }

  /** A phrase followed by what may follow the next level is a phrase of that level. */
  lemma Lift(lev: nat, s: string, t: Cmd<string>, rest: string)
    requires lev < 3 && Reads(ParseLevel(lev, s), t, rest) && Stops(rest, lev + 1)
    ensures Reads(ParseLevel(lev + 1, s), t, rest)
  {
    StopsAt(rest, lev + 1);
    hide ParseExec, Plain;
    if lev == 1 { hide ParsePipe; }
  }

  lemma ConsumeSymbol(c: char, rest: string)
    requires IsSymbol(c) && c != '>'
    ensures var s := [c] + rest; SkipSpace(s) == s && Consume(s) == SkipSpace(rest)
  {
    var s := [c] + rest;
    assert s[1..] == rest;
  }

  function Amps(k: nat): string { if k == 0 then "" else "&" + Amps(k - 1) }

  function Backs<W>(t: Cmd<W>, k: nat): Cmd<W>
    decreases k
  {
    if k == 0 then t else Backs(Back(t), k - 1)
  }

  lemma {:induction false} BacksRead(c: Cmd<Word>, k: nat, rest: string)
    requires Stops(rest, 2)
    ensures Reads(ParseBacks(c, Amps(k) + rest), Backs(Plain(c), k), rest)
    decreases k
  {
    if k == 0 {
      StopsAt(rest, 2);
      assert Amps(k) + rest == rest;
    } else {
      hide *;
      var more := Amps(k - 1) + rest;
      BacksStep(c, k, rest);
      AmpsFirst(k - 1, rest);
      BacksRead(Back(c), k - 1, rest);
      BacksPlain(c, k);
    }
  }

  lemma BacksPlain(c: Cmd<Word>, k: nat)
    requires k > 0
    ensures Backs(Plain(Back(c)), k - 1) == Backs(Plain(c), k)
  {
  }

  lemma BacksStep(c: Cmd<Word>, k: nat, rest: string)
    requires k > 0
    ensures ParseBacks(c, Amps(k) + rest) == ParseBacks(Back(c), SkipSpace(Amps(k - 1) + rest))
  {
    var more := Amps(k - 1) + rest;
    assert Amps(k) + rest == ['&'] + more;
    ConsumeSymbol('&', more);
    assert (['&'] + more)[0] == '&';
    hide Consume, SkipSpace;
  }

  lemma AmpsFirst(k: nat, rest: string)
    requires Stops(rest, 2)
    ensures SkipSpace(Amps(k) + rest) == Amps(k) + rest && Stops(Amps(k) + rest, 1)
  {
    StopsAt(rest, 2);
    if k == 0 { assert Amps(k) + rest == rest; } else { assert (Amps(k) + rest)[0] == '&'; }
  }

  lemma SymbolStops(c: char, rest: string, lev: nat)
    requires c in Follow(lev)
    ensures Stops([c] + rest, lev)
  {
  }

  /** The recursion of AtLevel, BackRead and ExecPrint, all on the same tree. */
  function Rank(t: Cmd<string>, lev: nat): nat { if lev < Level(t) then 20 + 2 * lev else 2 * lev + 2 }

  /** t printed for a level is read back at that level. */
  lemma AtLevel(t: Cmd<string>, lev: nat, rest: string)
    requires Good(t) && lev <= 3 && Stops(rest, lev)
    ensures Reads(ParseLevel(lev, Print(t, lev) + rest), t, rest)
    decreases t, Rank(t, lev)
  {
    hide Good, ParseExec, ParsePipe, ParseLine, ParseBacks, Reads, Stops, Body;
    SameStop(rest, lev);
    if lev == 0 {
      ExecPrint(t, [], rest);
      assert RedirsText([]) + rest == rest;
    } else if lev == 1 {
      if t.Pipe? { PipeRead(t, rest); }
      else {
        AtLevel(t, 0, rest);
        Lift(0, Print(t, 0) + rest, t, rest);
      }
    } else if lev == 2 {
      BackRead(t, 0, rest);
      assert Amps(0) + rest == rest;
    } else {
      if t.List? { ListRead(t, rest); }
      else {
        AtLevel(t, 2, rest);
        Lift(2, Print(t, 2) + rest, t, rest);
      }
    }
  }

  lemma SameStop(rest: string, lev: nat)
    requires Stops(rest, lev)
    ensures lev >= 1 ==> Stops(rest, lev - 1)
    ensures Stops(rest, 0)
  {
  }

  lemma Parts(t: Cmd<string>)
    requires Good(t)
    ensures t.Pipe? || t.List? ==> Good(t.left) && Good(t.right)
    ensures t.Back? || t.Redir? ==> Good(t.cmd)
    ensures t.Redir? ==> GoodWord(t.file)
    ensures t.Exec? ==> |t.argv| < MAXARGS && GoodArgs(t.argv)
  {
  }

  lemma PipeRead(t: Cmd<string>, rest: string)
    requires Good(t) && t.Pipe? && Stops(rest, 1)
    ensures Reads(ParsePipe(Print(t, 1) + rest), t, rest)
    decreases t, 3
  {
    Parts(t);
    var right := Print(t.right, 1) + rest;
    var s := Print(t, 1) + rest;
    PipeText(t, rest);
    SymbolStops('|', right, 0);
    AtLevel(t.left, 0, ['|'] + right);
    AtLevel(t.right, 1, rest);
    ConsumeSymbol('|', right);
    PipeSkip(right);
    PipeFrom(s, t.left, right, t.right, rest);
  }

  lemma PipeText(t: Cmd<string>, rest: string)
    requires t.Pipe?
    ensures Print(t, 1) + rest == Print(t.left, 0) + (['|'] + (Print(t.right, 1) + rest))
  {
    assert Print(t, 1) == Print(t.left, 0) + "|" + Print(t.right, 1);
    Regroup(Print(t.left, 0), '|', Print(t.right, 1), rest);
  }

  lemma ListText(t: Cmd<string>, rest: string)
    requires t.List?
    ensures Print(t, 3) + rest == Print(t.left, 2) + ([';'] + (Print(t.right, 3) + rest))
  {
    assert Print(t, 3) == Print(t.left, 2) + ";" + Print(t.right, 3);
    Regroup(Print(t.left, 2), ';', Print(t.right, 3), rest);
  }

  lemma Regroup(a: string, c: char, b: string, rest: string)
    ensures a + [c] + b + rest == a + ([c] + (b + rest))
  {
  }

  lemma PipeFrom(s: string, l: Cmd<string>, right: string, r: Cmd<string>, rest: string)
    requires Reads(ParseExec(s), l, ['|'] + right) && Reads(ParsePipe(SkipSpace(right)), r, rest)
    ensures Reads(ParsePipe(s), Pipe(l, r), rest)
  {
    ConsumeSymbol('|', right);
    assert (['|'] + right)[0] == '|';
    hide ParseExec, Consume, SkipSpace;
  }

  lemma BackText(t: Cmd<string>, k: nat, rest: string)
    requires t.Back?
    ensures Print(t, 2) + (Amps(k) + rest) == Print(t.cmd, 2) + (Amps(k + 1) + rest)
  {
    assert Print(t, 2) == Print(t.cmd, 2) + "&";
    assert Amps(k + 1) == "&" + Amps(k);
    Regroup(Print(t.cmd, 2), '&', Amps(k), rest);
    assert "&" + Amps(k) + rest == ['&'] + (Amps(k) + rest);
  }

  lemma BacksNext(t: Cmd<string>, k: nat)
    ensures Backs(t, k + 1) == Backs(Back(t), k)
  {
  }

  lemma BackRead(t: Cmd<string>, k: nat, rest: string)
    requires Good(t) && Stops(rest, 2)
    ensures Reads(ParseLevel(2, Print(t, 2) + (Amps(k) + rest)), Backs(t, k), rest)
    decreases t, Rank(t, 2) - 1
  {
    Parts(t);
    if t.Back? {
      BackText(t, k, rest);
      BackRead(t.cmd, k + 1, rest);
      BacksNext(t.cmd, k);
    } else {
      hide Good, ParseExec, ParsePipe, ParseBacks, Stops, Body;
      AmpsFirst(k, rest);
      AtLevel(t, 1, Amps(k) + rest);
      var s := Print(t, 2) + (Amps(k) + rest);
      BacksRead(ParsePipe(s).val, k, rest);
    }
  }

  lemma ListRead(t: Cmd<string>, rest: string)
    requires Good(t) && t.List? && Stops(rest, 3)
    ensures Reads(ParseLine(Print(t, 3) + rest), t, rest)
    decreases t, 3
  {
    Parts(t);
    var right := Print(t.right, 3) + rest;
    var s := Print(t, 3) + rest;
    ListText(t, rest);
    SymbolStops(';', right, 2);
    AtLevel(t.left, 2, [';'] + right);
    AtLevel(t.right, 3, rest);
    LineSkip(right);
    ListFrom(s, t.left, right, t.right, rest);
  }

  lemma ListFrom(s: string, l: Cmd<string>, right: string, r: Cmd<string>, rest: string)
    requires Reads(ParseLevel(2, s), l, [';'] + right) && Reads(ParseLine(SkipSpace(right)), r, rest)
    ensures Reads(ParseLine(s), List(l, r), rest)
  {
    ConsumeSymbol(';', right);
    assert ([';'] + right)[0] == ';';
    hide ParsePipe, Consume, SkipSpace, ParseBacks;
  }

  /** t as parseexec reads it, with redirections behind it. */
  lemma ExecPrint(t: Cmd<string>, rs: seq<Redirect<string>>, rest: string)
    requires Good(t) && GoodRedirs(rs) && Stops(rest, 0)
    ensures Reads(ParseExec(Print(t, 0) + (RedirsText(rs) + rest)), Wrap(t, rs), rest)
    decreases t, if Level(t) == 0 then 1 else 19
  {
    Parts(t);
    hide *;
    if t.Exec? {
      ExecText(t.argv, rs, rest);
      ExecRead(t.argv, rs, rest);
    } else if t.Redir? {
      var r := Redirect(t.file, t.output);
      MoreRedirs(r, rs, rest);
      RedirPrint(t, rs, rest);
      ExecPrint(t.cmd, [r] + rs, rest);
      WrapMore(t.cmd, r, rs);
    } else {
      SymbolAfter(rs, rest);
      AtLevel(t, 3, [')'] + (RedirsText(rs) + rest));
      BlockText(t, RedirsText(rs) + rest);
      BlockRead(t, rs, rest);
    }
  }

  lemma SymbolAfter(rs: seq<Redirect<string>>, rest: string)
    ensures Stops([')'] + (RedirsText(rs) + rest), 3)
  {
  }

  lemma ExecText(argv: seq<string>, rs: seq<Redirect<string>>, rest: string)
    ensures Print(Exec(argv), 0) + (RedirsText(rs) + rest) == Tail(argv, rs, rest)
  {
  }

  lemma RedirPrint(t: Cmd<string>, rs: seq<Redirect<string>>, rest: string)
    requires t.Redir?
    ensures Print(t, 0) + (RedirsText(rs) + rest) == Print(t.cmd, 0)
            + (RedirsText([Redirect(t.file, t.output)] + rs) + rest)
  {
    var r := Redirect(t.file, t.output);
    assert ([r] + rs)[1..] == rs;
    assert Print(t, 0) == Print(t.cmd, 0) + RedirText(r);
    assert RedirsText([r] + rs) == RedirText(r) + RedirsText(rs);
  }

  lemma WrapMore(c: Cmd<string>, r: Redirect<string>, rs: seq<Redirect<string>>)
    ensures Wrap(c, [r] + rs) == Wrap(Redir(c, r.file, r.output), rs)
  {
    assert ([r] + rs)[1..] == rs;
  }

  lemma BlockText(t: Cmd<string>, tail: string)
    requires Level(t) > 0
    ensures Print(t, 0) + tail == ['('] + (Body(t) + ([')'] + tail))
    ensures Print(t, 3) == Body(t) && ParseLevel(3, Body(t) + ([')'] + tail)) == ParseLine(Body(t) + ([')'] + tail))
  {
    assert Print(t, 0) == "(" + Body(t) + ")";
    hide Body, Print;
    InParens(Body(t), tail);
  }

  lemma InParens(b: string, tail: string)
    ensures "(" + b + ")" + tail == ['('] + (b + ([')'] + tail))
  {
  }

  lemma MoreRedirs(r: Redirect<string>, rs: seq<Redirect<string>>, rest: string)
    requires GoodWord(r.file) && GoodRedirs(rs)
    ensures GoodRedirs([r] + rs) && RedirsText([r] + rs) == RedirText(r) + RedirsText(rs)
  {
    assert ([r] + rs)[1..] == rs;
  }

  lemma BlockRead(t: Cmd<string>, rs: seq<Redirect<string>>, rest: string)
    requires GoodRedirs(rs) && Stops(rest, 0)
    requires Reads(ParseLine(Body(t) + ([')'] + (RedirsText(rs) + rest))), t, [')'] + (RedirsText(rs) + rest))
    ensures Reads(ParseExec(['('] + (Body(t) + ([')'] + (RedirsText(rs) + rest)))), Wrap(t, rs), rest)
  {
    var tail := RedirsText(rs) + rest;
    var inner := Body(t) + ([')'] + tail);
    var s := ['('] + inner;
    ConsumeSymbol('(', inner);
    ConsumeSymbol(')', tail);
    SkipNone(rs, rest);
    LineSkip(inner);
    RedirsRead([], rs, rest);
    NoneBefore(rs);
    BlockFrom(s, inner, tail, t, rs, rest);
  }

  lemma BlockFrom(s: string, inner: string, tail: string, t: Cmd<string>, rs: seq<Redirect<string>>, rest: string)
    requires s == ['('] + inner && SkipSpace(s) == s && Consume(s) == SkipSpace(inner)
    requires Reads(ParseLine(SkipSpace(inner)), t, [')'] + tail)
    requires SkipSpace([')'] + tail) == [')'] + tail && Consume([')'] + tail) == tail
    requires RedirsAre(ParseRedirs([], tail), rest, rs)
    ensures Reads(ParseExec(s), Wrap(t, rs), rest)
  {
    PlainWrap(ParseLine(SkipSpace(inner)).val, ParseRedirs([], tail).val);
    assert s[0] == '(' && ([')'] + tail)[0] == ')';
    hide ParseLine, Consume, SkipSpace, ParseRedirs, Plain, Wrap;
  }

  /** Parsing undoes printing, for every good tree. */
  lemma ParsePrint(t: Cmd<string>)
    requires Good(t)
    ensures var r := ParseCmd(Print(t, 3)); r.Ok? && Plain(r.val) == t
  {
    AtLevel(t, 3, "");
    assert Print(t, 3) + "" == Print(t, 3);
    assert SkipSpace("") == "";
    hide ParseLine, Print;
  }

  // --------------------------------------------------------------- >> and >

  /** The line with every >> that gettoken takes as one token turned into a > and a space. */
  function Single(s: string): (r: string)
    ensures |r| == |s| && (s != "" ==> r[0] == s[0])
  {
    if s == "" then ""
    else if s[0] == '>' && |s| > 1 && s[1] == '>' then "> " + Single(s[2..])
    else [s[0]] + Single(s[1..])
  }

  function SingleRest<T>(r: Result<T>): Result<T> {
    match r
    case Panic => Panic
    case Ok(v, rest) => Ok(v, Single(rest))
  }

  lemma SingleNext(s: string)
    requires s != "" && !(s[0] == '>' && |s| > 1 && s[1] == '>')
    ensures Single(s) == [s[0]] + Single(s[1..]) && Single(s)[1..] == Single(s[1..])
  {
  }

  lemma {:induction false} SingleSkip(s: string)
    ensures SkipSpace(Single(s)) == Single(SkipSpace(s))
  {
    if s != "" && IsSpace(s[0]) {
      SingleNext(s);
      SingleSkip(s[1..]);
    }
  }

  lemma {:induction false} SingleWord(s: string)
    ensures WordAt(Single(s)) == WordAt(s) && Single(s)[|WordAt(s)|..] == Single(s[|WordAt(s)|..])
  {
    if s != "" && !IsSpace(s[0]) && !IsSymbol(s[0]) {
      SingleNext(s);
      SingleWord(s[1..]);
      var n := |WordAt(s[1..])|;
      assert s[1..][n..] == s[n + 1..] && Single(s)[1..][n..] == Single(s)[n + 1..];
    } else {
      assert s[0..] == s && Single(s)[0..] == Single(s);
    }
  }

  /** gettoken takes the same token, but for the > in place of >>. */
  lemma SingleToken(s: string)
    ensures var (tok, rest) := GetToken(s);
            GetToken(Single(s)) == (if tok == Append then Symbol('>') else tok, Single(rest))
  {
    hide SkipSpace, WordAt, Single;
    SingleSkip(s);
    var t := SkipSpace(s);
    if t != "" {
      if t[0] == '>' && |t| > 1 && t[1] == '>' {
        SingleArrow(t);
        SingleSkip(t[2..]);
      } else if IsSymbol(t[0]) {
        SingleNotArrow(t);
        SingleSkip(t[1..]);
      } else {
        SingleNotArrow(t);
        SingleWord(t);
        SingleSkip(t[|WordAt(t)|..]);
      }
    }
  }

  lemma SkipOne(u: string)
    ensures SkipSpace(("> " + u)[1..]) == SkipSpace(u)
  {
    var v := ("> " + u)[1..];
    assert v[0] == ' ' && v[1..] == u;
  }

  lemma SingleArrow(t: string)
    requires |t| > 1 && t[0] == '>' && t[1] == '>'
    ensures Single(t)[0] == '>' && Single(t)[1] != '>' && SkipSpace(Single(t)[1..]) == SkipSpace(Single(t[2..]))
  {
    hide SkipSpace;
    var u := Single(t[2..]);
    assert Single(t) == "> " + u;
    SkipOne(u);
  }

  lemma SingleNotArrow(t: string)
    requires t != "" && !(t[0] == '>' && |t| > 1 && t[1] == '>')
    ensures Single(t)[0] == t[0] && Single(t)[1..] == Single(t[1..])
    ensures !(Single(t)[0] == '>' && |Single(t)| > 1 && Single(t)[1] == '>')
  {
    SingleNext(t);
  }

  lemma SinglePeek(s: string, toks: set<char>)
    ensures Peek(Single(s), toks) == Peek(s, toks)
    ensures SkipSpace(Single(s)) != "" <==> SkipSpace(s) != ""
    ensures Peek(s, toks) ==> Consume(Single(s)) == Single(Consume(s))
  {
    hide SkipSpace, Single, GetToken;
    SingleSkip(s);
    SingleToken(SkipSpace(s));
  }

  lemma {:induction false} SingleRedirs(rs: seq<Redirect<Word>>, s: string)
    ensures ParseRedirs(rs, Single(s)) == SingleRest(ParseRedirs(rs, s))
    decreases |s|
  {
    hide Single, SkipSpace, GetToken, Peek;
    SinglePeek(s, {'<', '>'});
    SingleSkip(s);
    if Peek(s, {'<', '>'}) {
      var (tok, s1) := GetToken(SkipSpace(s));
      SingleToken(SkipSpace(s));
      SingleToken(s1);
      var (file, s2) := GetToken(s1);
      if file.Text? {
        SingleRedirs(rs + [Redirect(file.word, tok != Symbol('<'))], s2);
      }
    }
  }

  lemma {:induction false} SingleArgs(argv: seq<Word>, rs: seq<Redirect<Word>>, s: string)
    ensures ParseArgs(argv, rs, Single(s)) == SingleRest(ParseArgs(argv, rs, s))
    decreases |s|
  {
    hide Single, SkipSpace, GetToken, Peek, ParseRedirs;
    SinglePeek(s, {'|', ')', '&', ';'});
    SingleSkip(s);
    if !Peek(s, {'|', ')', '&', ';'}) {
      var (tok, s1) := GetToken(SkipSpace(s));
      SingleToken(SkipSpace(s));
      if tok.Text? && |argv| + 1 < MAXARGS {
        SingleRedirs(rs, s1);
        var r := ParseRedirs(rs, s1);
        if r.Ok? {
          SingleArgs(argv + [tok.word], r.val, r.rest);
        }
      }
    }
  }

  lemma {:induction false} SingleExec(s: string)
    ensures ParseExec(Single(s)) == SingleRest(ParseExec(s))
    decreases |s|, 1
  {
    hide Single, SkipSpace, GetToken, Peek, ParseRedirs, ParseArgs, ParseBlock, Wrap;
    SinglePeek(s, {'('});
    SingleSkip(s);
    if Peek(s, {'('}) {
      SingleBlock(SkipSpace(s));
    } else {
      SingleRedirs([], s);
      var r := ParseRedirs([], s);
      if r.Ok? {
        SingleArgs([], r.val, r.rest);
      }
    }
  }

  lemma {:induction false} SingleBlock(s: string)
    ensures ParseBlock(Single(s)) == SingleRest(ParseBlock(s))
    decreases |s|, 0
  {
    hide Single, SkipSpace, GetToken, Peek, ParseRedirs, ParseLine, Consume, Wrap;
    SinglePeek(s, {'('});
    if Peek(s, {'('}) {
      SingleLine(Consume(s));
      var r := ParseLine(Consume(s));
      if r.Ok? {
        SinglePeek(r.rest, {')'});
        if Peek(r.rest, {')'}) {
          SingleRedirs([], Consume(r.rest));
        }
      }
    }
  }

  lemma {:induction false} SinglePipe(s: string)
    ensures ParsePipe(Single(s)) == SingleRest(ParsePipe(s))
    decreases |s|, 2
  {
    hide Single, SkipSpace, GetToken, Peek, ParseExec, Consume;
    SingleExec(s);
    var r := ParseExec(s);
    if r.Ok? {
      SinglePeek(r.rest, {'|'});
      SingleSkip(r.rest);
      if Peek(r.rest, {'|'}) {
        SinglePipe(Consume(r.rest));
      }
    }
  }

  lemma {:induction false} SingleBacks(c: Cmd<Word>, s: string)
    ensures ParseBacks(c, Single(s)) == SingleRest(ParseBacks(c, s))
    decreases |s|
  {
    hide Single, SkipSpace, GetToken, Peek, Consume;
    SinglePeek(s, {'&'});
    SingleSkip(s);
    if Peek(s, {'&'}) {
      SingleBacks(Back(c), Consume(s));
    }
  }

  lemma {:induction false} SingleLine(s: string)
    ensures ParseLine(Single(s)) == SingleRest(ParseLine(s))
    decreases |s|, 3
  {
    hide Single, SkipSpace, GetToken, Peek, ParsePipe, ParseBacks, Consume;
    SinglePipe(s);
    var r := ParsePipe(s);
    if r.Ok? {
      SingleBacks(r.val, r.rest);
      var b := ParseBacks(r.val, r.rest);
      SinglePeek(b.rest, {';'});
      SingleSkip(b.rest);
      if Peek(b.rest, {';'}) {
        SingleLine(Consume(b.rest));
      }
    }
  }

  /** Every line means what it means with > in place of each >>, panics included: the shell
      does not append. */
  lemma AppendIsOutput(s: string)
    ensures ParseCmd(Single(s)) == ParseCmd(s)
  {
    hide Single, SkipSpace, ParseLine;
    SingleLine(s);
    var r := ParseLine(s);
    if r.Ok? {
      SingleSkip(r.rest);
    }
  }
}
