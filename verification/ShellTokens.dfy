/** Where the tokens of a parsed command lie, and what cutting the line at their ends does. */
module ShellTokens {
  import opened ShellSyntax
  import opened ShellRoundTrip

  /** Every range that a command points to. */
  function Tokens(c: Cmd): set<Range> {
    match c
    case Exec(argv) => set r | r in argv
    case Redir(d, r) => Tokens(d) + {r.file}
    case Pipe(a, b) => Tokens(a) + Tokens(b)
    case List(a, b) => Tokens(a) + Tokens(b)
    case Back(d) => Tokens(d)
  }

  /** A whole word of the line: word characters up to a blank, a symbol or the end. */
  ghost predicate WholeWord(l: string, r: Range) {
    && r.q < r.eq <= |l|
    && (forall k :: r.q <= k < r.eq ==> !Blank(l[k]) && !Symbol(l[k]) && l[k] != NUL)
    && (r.eq < |l| ==> Blank(l[r.eq]) || Symbol(l[r.eq]))
  }

  ghost predicate WholeWords(l: string, rs: set<Range>) {
    forall r :: r in rs ==> WholeWord(l, r)
  }

  lemma {:induction false} InsideWord(l: string, s: nat)
    requires s <= |l|
    ensures forall k :: s <= k < WordEnd(l, s) ==> !Blank(l[k]) && !Symbol(l[k])
    decreases |l| - s
  {
    if s < |l| && !Blank(l[s]) && !Symbol(l[s]) { InsideWord(l, s + 1); }
  }

  lemma WordTokenIsWhole(l: string, s: nat)
    requires s <= |l| && NUL !in l && GetToken(l, s).kind == 'a'
    ensures WholeWord(l, GetToken(l, s).range)
  {
    InsideWord(l, Skip(l, s));
  }

  ghost predicate WholeRedirs(l: string, rs: seq<Redirection>) {
    forall i :: 0 <= i < |rs| ==> WholeWord(l, rs[i].file) && ModeFits(rs[i])
  }

  /** Reading as descriptor 0, or writing and creating as descriptor 1. */
  predicate ModeFits(r: Redirection) { (r.mode == O_RDONLY && r.fd == 0) || (r.mode == O_WRONLY_CREATE && r.fd == 1) }

  /** At most nine arguments and only those redirections. */
  ghost predicate Bounded(c: Cmd) {
    match c
    case Exec(argv) => |argv| < MAXARGS
    case Redir(d, r) => Bounded(d) && ModeFits(r)
    case Pipe(a, b) => Bounded(a) && Bounded(b)
    case List(a, b) => Bounded(a) && Bounded(b)
    case Back(d) => Bounded(d)
  }

  /** Whole words, within those bounds. */
  ghost predicate WellMade(l: string, c: Cmd) { WholeWords(l, Tokens(c)) && Bounded(c) }

  lemma {:induction false} RedirsWhole(l: string, s: nat, rs: seq<Redirection>)
    requires s <= |l| && NUL !in l && WholeRedirs(l, rs)
    ensures ParseRedirs(l, s, rs).Ok? ==> WholeRedirs(l, ParseRedirs(l, s, rs).value)
    decreases |l| - s
  {
    if Peek(l, s, "<>") {
      var t := GetToken(l, s);
      var f := GetToken(l, t.next);
      if f.kind == 'a' {
        WordTokenIsWhole(l, t.next);
        RedirsWhole(l, f.next, rs + [Redirect(t.kind, f.range)]);
      }
    }
  }

  lemma {:induction false} WrapWhole(l: string, c: Cmd, rs: seq<Redirection>)
    requires WellMade(l, c) && WholeRedirs(l, rs)
    ensures WellMade(l, Wrap(c, rs))
  {
    if rs != [] { WrapWhole(l, c, rs[..|rs| - 1]); }
  }

  lemma {:induction false} ArgsWhole(l: string, s: nat, argv: seq<Range>, rs: seq<Redirection>)
    requires s <= |l| && NUL !in l && WholeRedirs(l, rs) && |argv| < MAXARGS
    requires forall i :: 0 <= i < |argv| ==> WholeWord(l, argv[i])
    ensures ParseArgs(l, s, argv, rs).Ok? ==> WellMade(l, ParseArgs(l, s, argv, rs).value)
    decreases |l| - s
  {
    WrapWhole(l, Exec(argv), rs);
    var t := GetToken(l, s);
    if t.kind == 'a' {
      WordTokenIsWhole(l, s);
      RedirsWhole(l, t.next, rs);
      var r := ParseRedirs(l, t.next, rs);
      if r.Ok? && t.next > s && |argv| + 1 < MAXARGS { ArgsWhole(l, r.pos, argv + [t.range], r.value); }
    }
  }

  lemma {:induction false} ExecWhole(l: string, s: nat)
    requires s <= |l| && NUL !in l
    ensures ParseExec(l, s).Ok? ==> WellMade(l, ParseExec(l, s).value)
    decreases |l| - s, 1
  {
    if Peek(l, s, "(") {
      BlockWhole(l, s);
    } else {
      RedirsWhole(l, Skip(l, s), []);
      var r := ParseRedirs(l, Skip(l, s), []);
      if r.Ok? { ArgsWhole(l, r.pos, [], r.value); }
    }
  }

  lemma {:induction false} BlockWhole(l: string, s: nat)
    requires s <= |l| && NUL !in l && Peek(l, s, "(")
    ensures ParseBlock(l, s).Ok? ==> WellMade(l, ParseBlock(l, s).value)
    decreases |l| - s, 0
  {
    var t := GetToken(l, s);
    LineWhole(l, t.next);
    var c := ParseLine(l, t.next);
    if c.Ok? {
      var p := GetToken(l, c.pos).next;
      RedirsWhole(l, p, []);
      var r := ParseRedirs(l, p, []);
      if r.Ok? { WrapWhole(l, c.value, r.value); }
    }
  }

  lemma {:induction false} PipeWhole(l: string, s: nat)
    requires s <= |l| && NUL !in l
    ensures ParsePipe(l, s).Ok? ==> WellMade(l, ParsePipe(l, s).value)
    decreases |l| - s, 2
  {
    ExecWhole(l, s);
    var c := ParseExec(l, s);
    if c.Ok? && Peek(l, c.pos, "|") { PipeWhole(l, GetToken(l, c.pos).next); }
  }

  lemma {:induction false} BacksWhole(l: string, s: nat, c: Cmd)
    requires s <= |l| && NUL !in l && WellMade(l, c)
    ensures WellMade(l, ParseBacks(l, s, c).value)
    decreases |l| - s
  {
    if Peek(l, s, "&") { BacksWhole(l, GetToken(l, s).next, Back(c)); }
  }

  /** Every token of every parsed command is a whole word of the line. */
  lemma {:induction false} LineWhole(l: string, s: nat)
    requires s <= |l| && NUL !in l
    ensures ParseLine(l, s).Ok? ==> WellMade(l, ParseLine(l, s).value)
    decreases |l| - s, 3
  {
    PipeWhole(l, s);
    var c := ParsePipe(l, s);
    if c.Ok? {
      BacksWhole(l, c.pos, c.value);
      var b := ParseBacks(l, c.pos, c.value);
      if Peek(l, b.pos, ";") { LineWhole(l, GetToken(l, b.pos).next); }
    }
  }

  /** Every parsed command is the tree of some printed one: words that can be written, redirections that
      the syntax has, at most nine arguments. With ParseUndoesPrint, parsing reaches exactly those. */
  lemma ParsedIsLegal(l: string)
    requires NUL !in l && ParseCmd(l).Ok?
    ensures LegalTree(Text(ParseCmd(l).value, l))
  {
    LineWhole(l, 0);
    WellMadeIsLegal(l, ParseCmd(l).value);
  }

  lemma WordIsLegal(l: string, r: Range)
    requires WholeWord(l, r)
    ensures Legal(Word(r, l))
  {
    forall k | 0 <= k < |Word(r, l)| ensures Word(r, l)[k] == l[r.q + k] {}
  }

  lemma {:induction false} WellMadeIsLegal(l: string, c: Cmd)
    requires WellMade(l, c)
    ensures LegalTree(Text(c, l))
  {
    match c
    case Exec(argv) =>
      forall i | 0 <= i < |argv| ensures Legal(Words(argv, l)[i]) {
        assert argv[i] in Tokens(c);
        WordIsLegal(l, argv[i]);
      }
    case Redir(d, r) =>
      assert r.file in Tokens(c);
      WordIsLegal(l, r.file);
      WellMadeIsLegal(l, d);
    case Pipe(a, b) =>
      WellMadeIsLegal(l, a);
      WellMadeIsLegal(l, b);
    case List(a, b) =>
      WellMadeIsLegal(l, a);
      WellMadeIsLegal(l, b);
    case Back(d) => WellMadeIsLegal(l, d);
  }

  /** The C string at p. */
  function CString(b: seq<char>, p: nat): string
    decreases |b| - p
  {
    if p < |b| && b[p] != NUL then [b[p]] + CString(b, p + 1) else ""
  }

  lemma {:induction false} CStringIs(b: seq<char>, p: nat, e: nat)
    requires p <= e < |b| && b[e] == NUL && forall k :: p <= k < e ==> b[k] != NUL
    ensures CString(b, p) == b[p..e]
    decreases e - p
  {
    if p < e {
      CStringIs(b, p + 1, e);
      assert b[p..e] == [b[p]] + b[p + 1..e];
    }
  }

  /** b is the line l in memory, with NUL written at the end of each token in rs. */
  ghost predicate Terminated(b: seq<char>, l: string, rs: set<Range>) {
    && |b| > |l|
    && (forall r :: r in rs ==> r.eq < |b| && b[r.eq] == NUL)
    && (forall k :: 0 <= k < |l| ==> b[k] == l[k] || exists r :: r in rs && r.eq == k)
  }

  /** Once every token is terminated, each reads as a C string as exactly its word: no terminator
      lies inside a token. */
  lemma TokensReadBack(b: seq<char>, l: string, rs: set<Range>, r: Range)
    requires Terminated(b, l, rs) && WholeWords(l, rs) && r in rs
    ensures CString(b, r.q) == Word(r, l)
  {
    forall k | r.q <= k < r.eq ensures b[k] == l[k] {
      forall t | t in rs ensures t.eq != k {
        assert WholeWord(l, t) && WholeWord(l, r);
      }
    }
    CStringIs(b, r.q, r.eq);
    assert b[r.q..r.eq] == l[r.q..r.eq];
  }
}
