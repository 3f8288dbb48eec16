/** The shell's parser as it runs (sh.c): a position that advances through the line, and the line
    cut into C strings in place at the end. */
module Shell {
  import opened Common
  import opened ShellSyntax
  import opened ShellRoundTrip
  import opened ShellTokens

  class Parser {
    const line: string
    var s: nat

    constructor (line: string)
      ensures this.line == line && s == 0
    {
      this.line, s := line, 0;
    }

    ghost predicate Valid()
      reads this
    {
      s <= |line| && NUL !in line
    }

    method SkipBlanks()
      requires Valid()
      modifies this
      ensures Valid() && s == Skip(line, old(s))
    {
      while s < |line| && Blank(line[s])
        invariant s <= |line| && Skip(line, s) == Skip(line, old(s))
        decreases |line| - s
      {
        s := s + 1;
      }
    }

    method GetTok() returns (kind: char, range: Range)
      requires Valid()
      modifies this
      ensures Valid() && GetToken(line, old(s)) == Token(kind, range, s)
    {
      SkipBlanks();
      var q := s;
      var c := At(line, s);
      kind := c;
      if c == NUL {
      } else if c == '|' || c == '(' || c == ')' || c == ';' || c == '&' || c == '<' {
        s := s + 1;
      } else if c == '>' {
        s := s + 1;
        if At(line, s) == '>' {
          kind := '+';
          s := s + 1;
        }
      } else {
        kind := 'a';
        while s < |line| && !Blank(line[s]) && !Symbol(line[s])
          invariant q <= s <= |line| && WordEnd(line, s) == WordEnd(line, q)
          decreases |line| - s
        {
          s := s + 1;
        }
      }
      range := Range(q, s);
      SkipBlanks();
    }

    method PeekFor(toks: string) returns (b: bool)
      requires Valid()
      modifies this
      ensures Valid() && s == Skip(line, old(s)) && b == Peek(line, old(s), toks)
    {
      SkipBlanks();
      b := At(line, s) != NUL && At(line, s) in toks;
    }
  
    method DoRedirs(rs0: seq<Redirection>) returns (ok: bool, rs: seq<Redirection>)
      requires Valid()
      modifies this
      ensures Valid() && old(s) <= s
      ensures ParseRedirs(line, old(s), rs0) == if ok then Ok(rs, s) else Panic
    {
      rs := rs0;
      while true
        invariant Valid() && old(s) <= s && ParseRedirs(line, s, rs) == ParseRedirs(line, old(s), rs0)
        decreases |line| - s
      {
        ghost var s0 := s;
        var b := PeekFor("<>");
        SkipTwice(line, s0);
        if !b { return true, rs; }
        var kind, _ := GetTok();
        var fkind, file := GetTok();
        if fkind != 'a' { return false, rs; }
        rs := rs + [Redirect(kind, file)];
      }
    }

    method DoArgs(rs0: seq<Redirection>) returns (r: Option<Cmd>)
      requires Valid()
      modifies this
      ensures Valid() && old(s) <= s
      ensures ParseArgs(line, old(s), [], rs0) == if r.Some? then Ok(r.value, s) else Panic
    {
      var argv, rs := [], rs0;
      while true
        invariant Valid() && old(s) <= s && ParseArgs(line, s, argv, rs) == ParseArgs(line, old(s), [], rs0)
        decreases |line| - s
      {
        ghost var s0 := s;
        var b := PeekFor("|)&;");
        SkipTwice(line, s0);
        if b { break; }
        var kind, range := GetTok();
        if kind == NUL { break; }
        if kind != 'a' { return None; }
        if |argv| + 1 >= MAXARGS { return None; }
        argv := argv + [range];
        var ok, rs1 := DoRedirs(rs);
        if !ok { return None; }
        rs := rs1;
      }
      r := Some(Wrap(Exec(argv), rs));
    }

    method DoExec() returns (r: Option<Cmd>)
      requires Valid()
      modifies this
      ensures Valid() && old(s) <= s
      ensures ParseExec(line, old(s)) == if r.Some? then Ok(r.value, s) else Panic
      decreases |line| - s, 1
    {
      var b := PeekFor("(");
      SkipTwice(line, old(s));
      if b {
        SameBlock(line, old(s));
        r := DoBlock();
        return;
      }
      var ok, rs := DoRedirs([]);
      if !ok { return None; }
      r := DoArgs(rs);
    }

    method DoBlock() returns (r: Option<Cmd>)
      requires Valid() && Peek(line, s, "(")
      modifies this
      ensures Valid() && old(s) <= s
      ensures ParseBlock(line, old(s)) == if r.Some? then Ok(r.value, s) else Panic
      decreases |line| - s, 0
    {
      var _, _ := GetTok();
      var c := DoLine();
      if c.None? { return None; }
      ghost var s0 := s;
      var b := PeekFor(")");
      SkipTwice(line, s0);
      if !b { return None; }
      var _, _ := GetTok();
      var ok, rs := DoRedirs([]);
      if !ok { return None; }
      r := Some(Wrap(c.value, rs));
    }

    method DoPipe() returns (r: Option<Cmd>)
      requires Valid()
      modifies this
      ensures Valid() && old(s) <= s
      ensures ParsePipe(line, old(s)) == if r.Some? then Ok(r.value, s) else Panic
      decreases |line| - s, 2
    {
      r := DoExec();
      if r.None? { return; }
      ghost var s0 := s;
      var b := PeekFor("|");
      SkipTwice(line, s0);
      if b {
        var _, _ := GetTok();
        var right := DoPipe();
        r := if right.None? then None else Some(Pipe(r.value, right.value));
      }
    }

    method DoLine() returns (r: Option<Cmd>)
      requires Valid()
      modifies this
      ensures Valid() && old(s) <= s
      ensures ParseLine(line, old(s)) == if r.Some? then Ok(r.value, s) else Panic
      decreases |line| - s, 3
    {
      r := DoPipe();
      if r.None? { return; }
      var c := DoBacks(r.value);
      ghost var s0 := s;
      var b := PeekFor(";");
      SkipTwice(line, s0);
      r := Some(c);
      if b {
        var _, _ := GetTok();
        var right := DoLine();
        r := if right.None? then None else Some(List(c, right.value));
      }
    }

    method DoBacks(c0: Cmd) returns (c: Cmd)
      requires Valid()
      modifies this
      ensures Valid() && old(s) <= s && ParseBacks(line, old(s), c0) == Ok(c, s)
    {
      c := c0;
      while true
        invariant Valid() && old(s) <= s && ParseBacks(line, s, c) == ParseBacks(line, old(s), c0)
        decreases |line| - s
      {
        ghost var s0 := s;
        var b := PeekFor("&");
        SkipTwice(line, s0);
        if !b { return; }
        var _, _ := GetTok();
        c := Back(c);
      }
    }
  }

  /** Skipping blanks a second time changes nothing. */
  lemma SkipTwice(l: string, s: nat)
    requires s <= |l| && NUL !in l
    ensures Skip(l, Skip(l, s)) == Skip(l, s) && GetToken(l, Skip(l, s)) == GetToken(l, s)
    ensures At(l, Skip(l, s)) == NUL <==> Skip(l, s) == |l|
  {
  }

  lemma SameBlock(l: string, s: nat)
    requires s <= |l| && NUL !in l && Peek(l, s, "(")
    ensures Peek(l, Skip(l, s), "(") && ParseBlock(l, Skip(l, s)) == ParseBlock(l, s)
  {
    SkipTwice(l, s);
  }

  /** Write a NUL at the end of every token of c. */
  method NulTerminate(c: Cmd, buf: array<char>)
    requires forall r :: r in Tokens(c) ==> r.eq < buf.Length
    modifies buf
    ensures forall k :: 0 <= k < buf.Length ==> buf[k] == if EndsToken(Tokens(c), k) then NUL else old(buf[k])
    decreases c
  {
    match c
    case Exec(argv) =>
      var i := 0;
      while i < |argv|
        invariant 0 <= i <= |argv|
        invariant forall k :: 0 <= k < buf.Length ==>
          buf[k] == if EndsToken((set r | r in argv[..i]), k) then NUL else old(buf[k])
      {
        assert argv[i] in Tokens(c);
        buf[argv[i].eq] := NUL;
        assert forall r :: r in argv[..i + 1] <==> r in argv[..i] || r == argv[i];
        i := i + 1;
      }
      assert argv[..i] == argv;
    case Redir(d, r) =>
      NulTerminate(d, buf);
      buf[r.file.eq] := NUL;
    case Pipe(a, b) =>
      NulTerminate(a, buf);
      NulTerminate(b, buf);
    case List(a, b) =>
      NulTerminate(a, buf);
      NulTerminate(b, buf);
    case Back(d) =>
      NulTerminate(d, buf);
  }

  ghost predicate EndsToken(rs: set<Range>, k: int) {
    exists r :: r in rs && r.eq == k
  }

  /** strlen */
  method Strlen(buf: array<char>) returns (n: nat)
    requires exists k :: 0 <= k < buf.Length && buf[k] == NUL
    ensures n < buf.Length && buf[n] == NUL && forall k :: 0 <= k < n ==> buf[k] != NUL
  {
    n := 0;
    ghost var z :| 0 <= z < buf.Length && buf[z] == NUL;
    while buf[n] != NUL
      invariant n <= z && forall k :: 0 <= k < n ==> buf[k] != NUL
      decreases z - n
    {
      n := n + 1;
    }
  }

  /** Parse the C string in buf and cut it into its words. None is the panic on a syntax error. */
  method Parsecmd(buf: array<char>) returns (r: Option<Cmd>)
    requires exists k :: 0 <= k < buf.Length && buf[k] == NUL
    modifies buf
    ensures var l := CString(old(buf[..]), 0);
      && NUL !in l && ParseCmd(l).Ok? == r.Some?
      && (r.Some? ==> ParseCmd(l).value == r.value && forall t :: t in Tokens(r.value) ==>
           CString(buf[..], t.q) == Word(t, l))
  {
    var es := Strlen(buf);
    var l := buf[..es];
    CStringIs(buf[..], 0, es);
    var parser := new Parser(l);
    r := parser.DoLine();
    if r.None? { return; }
    ghost var p := parser.s;
    var b := parser.PeekFor("");
    if parser.s != es { return None; }
    LineWhole(l, 0);
    NulTerminate(r.value, buf);
    forall t | t in Tokens(r.value) ensures CString(buf[..], t.q) == Word(t, l) {
      assert WholeWord(l, t);
      TokensReadBack(buf[..], l, Tokens(r.value), t);
    }
  }
}
