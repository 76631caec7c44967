/** The parser as it runs: a cursor into the line that every routine advances, loops for blanks,
    words, redirections and arguments, and nulterminate writing into the buffer (sh.c). A panic of
    the shell is the result None. */
module ShellCode {
  import opened Options
  import opened Shell
  import opened ShellWords

  class Parser {
    const line: string
    var pos: nat

    ghost predicate Valid()
      reads this
    {
      pos <= |line|
    }

    ghost function Rest(): string
      requires Valid()
      reads this
    {
      line[pos..]
    }

    constructor (s: string)
      ensures Valid() && line == s && pos == 0
    {
      line, pos := s, 0;
    }

    /** The loop over blanks. */
    method Blanks()
      requires Valid()
      modifies this
      ensures Valid() && old(pos) <= pos && Rest() == SkipSpace(old(Rest()))
    {
      while pos < |line| && IsSpace(line[pos])
        invariant Valid() && old(pos) <= pos && SkipSpace(Rest()) == SkipSpace(old(Rest()))
        decreases |line| - pos
      {
        assert line[pos..][1..] == line[pos + 1..];
        pos := pos + 1;
      }
    }

    method PeekFor(toks: set<char>) returns (r: bool)
      requires Valid()
      modifies this
      ensures Valid() && old(pos) <= pos && r == Peek(old(Rest()), toks) && Rest() == SkipSpace(old(Rest()))
      ensures r ==> pos < |line|
    {
      Blanks();
      r := pos < |line| && line[pos] in toks;
    }

    /** The loop over a word's characters. */
    method ReadWord() returns (word: string)
      requires Valid()
      modifies this
      ensures Valid() && word == WordAt(old(Rest())) && pos == old(pos) + |word| && Rest() == old(Rest())[|word|..]
    {
      hide WordAt;
      word := "";
      while pos < |line| && !IsSpace(line[pos]) && !IsSymbol(line[pos])
        invariant Valid() && pos == old(pos) + |word|
        invariant word + WordAt(Rest()) == WordAt(old(Rest()))
        decreases |line| - pos
      {
        WordStep(word, Rest(), line[pos + 1..]);
        word := word + [line[pos]];
        pos := pos + 1;
      }
      WordNone(Rest());
      assert word + "" == word;
    }

    method NextToken() returns (tok: Token)
      requires Valid()
      modifies this
      ensures Valid() && old(pos) <= pos && (tok, Rest()) == GetToken(old(Rest()))
      ensures tok != End ==> old(pos) < pos
    {
      hide WordAt, SkipSpace;
      Blanks();
      if pos == |line| {
        tok := End;
      } else if line[pos] == '>' {
        pos := pos + 1;
        if pos < |line| && line[pos] == '>' {
          tok := Append;
          pos := pos + 1;
        } else {
          tok := Symbol('>');
        }
        Blanks();
      } else if IsSymbol(line[pos]) {
        tok := Symbol(line[pos]);
        pos := pos + 1;
        Blanks();
      } else {
        var word := ReadWord();
        tok := Text(Word(word, |line| - pos));
        Blanks();
      }
    }

    method Redirs(before: seq<Redirect<Word>>) returns (r: Option<seq<Redirect<Word>>>)
      requires Valid()
      modifies this
      ensures Valid() && old(pos) <= pos
      ensures ParseRedirs(before, old(Rest())) == match r case None => Panic case Some(rs) => Ok(rs, Rest())
    {
      var rs := before;
      var more := PeekFor({'<', '>'});
      RedirsSkip(before, old(Rest()));
      SkipTwice(old(Rest()));
      while more
        invariant Valid() && old(pos) <= pos
        invariant ParseRedirs(before, old(Rest())) == ParseRedirs(rs, Rest())
        invariant more == Peek(Rest(), {'<', '>'}) && SkipSpace(Rest()) == Rest()
        decreases |line| - pos
      {
        var tok := NextToken();
        var file := NextToken();
        if !file.Text? { return None; }
        rs := rs + [Redirect(file.word, tok != Symbol('<'))];
        ghost var s := Rest();
        more := PeekFor({'<', '>'});
        RedirsSkip(rs, s);
        SkipTwice(s);
      }
      return Some(rs);
    }

    method ExecCmd() returns (r: Option<Cmd<Word>>)
      requires Valid()
      modifies this
      ensures Valid() && old(pos) <= pos
      ensures ParseExec(old(Rest())) == match r case None => Panic case Some(c) => Ok(c, Rest())
      decreases |line| - pos, 1
    {
      var block := PeekFor({'('});
      ExecSkip(old(Rest()));
      SkipTwice(old(Rest()));
      if block {
        r := Block();
        return;
      }
      var first := Redirs([]);
      if first.None? { return None; }
      r := Args(first.v);
    }

    /** parseexec's loop. */
    method Args(first: seq<Redirect<Word>>) returns (r: Option<Cmd<Word>>)
      requires Valid()
      modifies this
      ensures Valid() && old(pos) <= pos
      ensures match ParseArgs([], first, old(Rest()))
              case Panic => r == None
              case Ok(simple, rest) => r == Some(Wrap(Exec(simple.argv), simple.rs)) && Rest() == rest
    {
      var argv: seq<Word> := [];
      var rs := first;
      var stop := PeekFor({'|', ')', '&', ';'});
      ArgsSkip([], first, old(Rest()));
      SkipTwice(old(Rest()));
      while !stop
        invariant Valid() && old(pos) <= pos
        invariant ParseArgs([], first, old(Rest())) == ParseArgs(argv, rs, Rest())
        invariant stop == Peek(Rest(), {'|', ')', '&', ';'}) && SkipSpace(Rest()) == Rest()
        decreases |line| - pos
      {
        var tok := NextToken();
        if tok == End { break; }
        if !tok.Text? { return None; }
        if |argv| + 1 >= MAXARGS { return None; }
        ghost var s := Rest();
        var more := Redirs(rs);
        if more.None? { return None; }
        argv := argv + [tok.word];
        rs := more.v;
        ghost var t := Rest();
        stop := PeekFor({'|', ')', '&', ';'});
        ArgsSkip(argv, rs, t);
        SkipTwice(t);
      }
      return Some(Wrap(Exec(argv), rs));
    }

    method Block() returns (r: Option<Cmd<Word>>)
      requires Valid() && Peek(Rest(), {'('})
      modifies this
      ensures Valid() && old(pos) <= pos
      ensures ParseBlock(old(Rest())) == match r case None => Panic case Some(c) => Ok(c, Rest())
      decreases |line| - pos, 0
    {
      Bracket();
      var c := LineCmd();
      if c.None? { return None; }
      ghost var s1 := Rest();
      var close := PeekFor({')'});
      if !close { return None; }
      PeekConsume(s1);
      var _ := NextToken();
      var rs := Redirs([]);
      if rs.None? { return None; }
      return Some(Wrap(c.v, rs.v));
    }

    /** peek, then gettoken past the symbol. */
    method Bracket()
      requires Valid() && SkipSpace(Rest()) != ""
      modifies this
      ensures Valid() && old(pos) < pos && Rest() == Consume(old(Rest()))
    {
      ghost var s := Rest();
      Blanks();
      PeekConsume(s);
      var _ := NextToken();
    }

    method PipeCmd() returns (r: Option<Cmd<Word>>)
      requires Valid()
      modifies this
      ensures Valid() && old(pos) <= pos
      ensures ParsePipe(old(Rest())) == match r case None => Panic case Some(c) => Ok(c, Rest())
      decreases |line| - pos, 2
    {
      hide ParseExec, GetToken;
      r := ExecCmd();
      if r.None? { return; }
      ghost var s1 := Rest();
      var bar := PeekFor({'|'});
      if bar {
        PeekConsume(s1);
        var _ := NextToken();
        var right := PipeCmd();
        if right.None? { return None; }
        r := Some(Pipe(r.v, right.v));
      }
    }

    method LineCmd() returns (r: Option<Cmd<Word>>)
      requires Valid()
      modifies this
      ensures Valid() && old(pos) <= pos
      ensures ParseLine(old(Rest())) == match r case None => Panic case Some(c) => Ok(c, Rest())
      decreases |line| - pos, 3
    {
      hide ParsePipe, GetToken, ParseBacks;
      r := PipeCmd();
      if r.None? { return; }
      var c := Ampersands(r.v);
      r := Some(c);
      ghost var s1 := Rest();
      var semi := PeekFor({';'});
      if semi {
        PeekConsume(s1);
        var _ := NextToken();
        var right := LineCmd();
        if right.None? { return None; }
        r := Some(List(c, right.v));
      }
    }

    /** parseline's loop over ampersands. */
    method Ampersands(c: Cmd<Word>) returns (r: Cmd<Word>)
      requires Valid()
      modifies this
      ensures Valid() && old(pos) <= pos && ParseBacks(c, old(Rest())) == Ok(r, Rest())
    {
      r := c;
      var amp := PeekFor({'&'});
      BacksSkip(c, old(Rest()));
      SkipTwice(old(Rest()));
      while amp
        invariant Valid() && old(pos) <= pos
        invariant ParseBacks(c, old(Rest())) == ParseBacks(r, Rest())
        invariant amp == Peek(Rest(), {'&'}) && SkipSpace(Rest()) == Rest()
        decreases |line| - pos
      {
        var _ := NextToken();
        r := Back(r);
        ghost var s := Rest();
        amp := PeekFor({'&'});
        BacksSkip(r, s);
        SkipTwice(s);
      }
    }

    method Parse() returns (r: Option<Cmd<Word>>)
      requires Valid() && pos == 0
      modifies this
      ensures Valid()
      ensures ParseCmd(line) == match r case None => Panic case Some(c) => Ok(c, "")
    {
      assert line[0..] == line;
      r := LineCmd();
      if r.None? { return; }
      Blanks();
      if pos != |line| { return None; }
    }
  }

  lemma WordStep(word: string, s: string, t: string)
    requires s != "" && t == s[1..] && !IsSpace(s[0]) && !IsSymbol(s[0])
    ensures word + WordAt(s) == word + [s[0]] + WordAt(t)
  {
    assert WordAt(s) == [s[0]] + WordAt(t);
  }

  lemma WordNone(s: string)
    requires s == "" || IsSpace(s[0]) || IsSymbol(s[0])
    ensures WordAt(s) == ""
  {
  }

  lemma RedirsSkip(rs: seq<Redirect<Word>>, s: string)
    ensures ParseRedirs(rs, SkipSpace(s)) == ParseRedirs(rs, s)
  {
    SkipTwice(s);
    hide GetToken, SkipSpace;
  }

  lemma BacksSkip(c: Cmd<Word>, s: string)
    ensures ParseBacks(c, SkipSpace(s)) == ParseBacks(c, s)
  {
    SkipTwice(s);
    hide GetToken, SkipSpace;
  }

  lemma PeekConsume(s: string)
    requires SkipSpace(s) != ""
    ensures Consume(s) == GetToken(SkipSpace(s)).1
  {
  }

  /** nulterminate over the whole tree; the buffer is the line and its NUL. */
  method NulTerminate(buf: array<char>, ghost line: string, c: Cmd<Word>)
    requires buf.Length == |line| + 1 && Placed(line, c)
    modifies buf
    ensures forall i: nat :: i < buf.Length ==> buf[i] == if EndsAt(line, c, i) then '\0' else old(buf[i])
    decreases c
  {
    match c
    case Exec(argv) =>
      var i := 0;
      while i < |argv|
        invariant i <= |argv|
        invariant forall k: nat :: k < buf.Length ==>
                  buf[k] == if EndsAt(line, Exec(argv[..i]), k) then '\0' else old(buf[k])
      {
        assert InPlace(line, argv[i]);
        buf[buf.Length - 1 - argv[i].left] := '\0';
        OneMoreEnd(line, argv, i);
        i := i + 1;
      }
      assert argv[..i] == argv;
    case Redir(d, file, _) =>
      NulTerminate(buf, line, d);
      buf[buf.Length - 1 - file.left] := '\0';
    case Pipe(l, r) =>
      NulTerminate(buf, line, l);
      NulTerminate(buf, line, r);
    case List(l, r) =>
      NulTerminate(buf, line, l);
      NulTerminate(buf, line, r);
    case Back(d) => NulTerminate(buf, line, d);
  }

  lemma OneMoreEnd(line: string, argv: seq<Word>, i: nat)
    requires i < |argv|
    ensures forall k: int :: EndsAt(line, Exec(argv[..i + 1]), k) <==>
            EndsAt(line, Exec(argv[..i]), k)
            || EndOf(line, argv[i]) == k
  {
    forall k: int
      ensures EndsAt(line, Exec(argv[..i + 1]), k) <==> EndsAt(line, Exec(argv[..i]), k) || EndOf(line, argv[i]) == k
    {
      if EndsAt(line, Exec(argv[..i]), k) {
        var m :| 0 <= m < i && EndOf(line, argv[..i][m]) == k;
        assert argv[..i + 1][m] == argv[m];
      }
      assert argv[..i + 1][i] == argv[i];
    }
  }

  /** parsecmd: parse the line, then cut its words apart in the buffer. */
  method ParseAndCut(line: string, buf: array<char>) returns (r: Option<Cmd<Word>>)
    requires '\0' !in line && buf[..] == line + "\0"
    modifies buf
    ensures ParseCmd(line) == match r case None => Panic case Some(c) => Ok(c, "")
    ensures r.Some? ==> Placed(line, r.v) && buf[..] == Terminated(line, r.v)
    ensures r.None? ==> buf[..] == old(buf[..])
  {
    hide ParseCmd, EndsAt, Placed;
    var p := new Parser(line);
    r := p.Parse();
    if r.Some? {
      PrintParse(line);
      NulTerminate(buf, line, r.v);
    }
  }
}
