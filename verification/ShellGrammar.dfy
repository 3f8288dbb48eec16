/** Nothing of the line is lost or made up: in every line that parses, each word stands in the command
    exactly once and each operator for one node of it, and the parentheses pair up. */
module ShellGrammar {
  import opened ShellSyntax

  /** The word tokens from s on. */
  function WordsAhead(l: string, s: nat): multiset<Range>
    requires s <= |l| && NUL !in l
    decreases |l| - s
  {
    var t := GetToken(l, s);
    if t.kind == NUL || t.next <= s then multiset{}
    else (if t.kind == 'a' then multiset{t.range} else multiset{}) + WordsAhead(l, t.next)
  }

  /** What a token counts for operator ch: one for itself, ">>" for '>', and ')' against '('. */
  function Weight(kind: char, ch: char): int {
    if kind == ch || (ch == '>' && kind == '+') then 1 else if ch == '(' && kind == ')' then -1 else 0
  }

  /** The operators ch from s on. */
  function OpsAhead(l: string, s: nat, ch: char): int
    requires s <= |l| && NUL !in l
    decreases |l| - s
  {
    var t := GetToken(l, s);
    if t.kind == NUL || t.next <= s then 0 else Weight(t.kind, ch) + OpsAhead(l, t.next, ch)
  }

  predicate IsOperator(ch: char) { ch in "|&;<>(" }

  /** The words of a command. */
  function Ranges(c: Cmd): multiset<Range> {
    match c
    case Exec(argv) => multiset(argv)
    case Redir(d, r) => Ranges(d) + multiset{r.file}
    case Pipe(a, b) => Ranges(a) + Ranges(b)
    case List(a, b) => Ranges(a) + Ranges(b)
    case Back(d) => Ranges(d)
  }

  /** The nodes of a command that operator ch stands for; '(' stands for none. */
  function Ops(c: Cmd, ch: char): int {
    match c
    case Exec(argv) => 0
    case Redir(d, r) => Ops(d, ch) + RedirOp(r, ch)
    case Pipe(a, b) => Ops(a, ch) + Ops(b, ch) + (if ch == '|' then 1 else 0)
    case List(a, b) => Ops(a, ch) + Ops(b, ch) + (if ch == ';' then 1 else 0)
    case Back(d) => Ops(d, ch) + (if ch == '&' then 1 else 0)
  }

  function RedirOp(r: Redirection, ch: char): int { if ch == (if r.fd == 0 then '<' else '>') then 1 else 0 }

  function Files(rs: seq<Redirection>): multiset<Range> {
    if rs == [] then multiset{} else Files(rs[..|rs| - 1]) + multiset{rs[|rs| - 1].file}
  }

  function RedirOps(rs: seq<Redirection>, ch: char): int {
    if rs == [] then 0 else RedirOps(rs[..|rs| - 1], ch) + RedirOp(rs[|rs| - 1], ch)
  }

  /** Between s and p the words went from w0 to w1 and the operators ch from n0 to n1. */
  ghost predicate Moved(l: string, ch: char, s: nat, w0: multiset<Range>, n0: int, p: nat, w1: multiset<Range>,
    n1: int)
  {
    && s <= |l| && p <= |l| && NUL !in l
    && WordsAhead(l, s) + w0 == WordsAhead(l, p) + w1 && OpsAhead(l, s, ch) + n0 == OpsAhead(l, p, ch) + n1
  }

  lemma MovedTwice(l: string, ch: char, s: nat, w0: multiset<Range>, n0: int, p: nat, w1: multiset<Range>, n1: int,
        q: nat, w2: multiset<Range>, n2: int)
    requires Moved(l, ch, s, w0, n0, p, w1, n1) && Moved(l, ch, p, w1, n1, q, w2, n2)
    ensures Moved(l, ch, s, w0, n0, q, w2, n2)
  {
  }

  /** The same with something more on both sides. */
  lemma MovedBeside(l: string, ch: char, s: nat, w0: multiset<Range>, n0: int, p: nat, w1: multiset<Range>, n1: int,
        w: multiset<Range>, n: int)
    requires Moved(l, ch, s, w0, n0, p, w1, n1)
    ensures Moved(l, ch, s, w + w0, n + n0, p, w + w1, n + n1)
  {
    assert WordsAhead(l, s) + (w + w0) == w + (WordsAhead(l, s) + w0);
    assert WordsAhead(l, p) + (w + w1) == w + (WordsAhead(l, p) + w1);
  }

  lemma NextIsFurther(l: string, s: nat)
    requires s <= |l| && NUL !in l && GetToken(l, s).kind != NUL
    ensures GetToken(l, s).next > s
  {
  }

  /** One token is read. */
  lemma ReadToken(l: string, ch: char, s: nat)
    requires s <= |l| && NUL !in l && GetToken(l, s).kind != NUL
    ensures var t := GetToken(l, s);
      var word := if t.kind == 'a' then multiset{t.range} else multiset{};
      Moved(l, ch, s, multiset{}, 0, t.next, word, Weight(t.kind, ch))
  {
    NextIsFurther(l, s);
  }

  lemma SkipReadsNothing(l: string, ch: char, s: nat)
    requires s <= |l| && NUL !in l
    ensures Moved(l, ch, s, multiset{}, 0, Skip(l, s), multiset{}, 0)
  {
    var q := Skip(l, s);
    assert GetToken(l, q) == GetToken(l, s);
    if GetToken(l, s).kind != NUL { NextIsFurther(l, q); NextIsFurther(l, s); }
  }

  lemma PeekedKind(l: string, s: nat, toks: string)
    requires s <= |l| && NUL !in l && Peek(l, s, toks) && forall c :: c in toks ==> Symbol(c)
    ensures var k := GetToken(l, s).kind; k in toks || (k == '+' && '>' in toks)
  {
  }

  lemma {:induction false} RedirsAccounted(l: string, ch: char, s: nat, rs: seq<Redirection>)
    requires s <= |l| && NUL !in l && IsOperator(ch) && ParseRedirs(l, s, rs).Ok?
    ensures var r := ParseRedirs(l, s, rs);
      Moved(l, ch, s, Files(rs), RedirOps(rs, ch), r.pos, Files(r.value), RedirOps(r.value, ch))
    decreases |l| - s
  {
    var r := ParseRedirs(l, s, rs);
    if Peek(l, s, "<>") {
      var t := GetToken(l, s);
      var f := GetToken(l, t.next);
      var next := rs + [Redirect(t.kind, f.range)];
      PeekedKind(l, s, "<>");
      ReadToken(l, ch, s);
      ReadToken(l, ch, t.next);
      NextIsFurther(l, s);
      assert next[..|rs|] == rs;
      TwoTokens(l, ch, s, t, f, rs, next);
      RedirsAccounted(l, ch, f.next, next);
      MovedTwice(l, ch, s, Files(rs), RedirOps(rs, ch), f.next, Files(next), RedirOps(next, ch),
        r.pos, Files(r.value), RedirOps(r.value, ch));
    } else {
      SkipReadsNothing(l, ch, s);
      MovedBeside(l, ch, s, multiset{}, 0, r.pos, multiset{}, 0, Files(rs), RedirOps(rs, ch));
    }
  }

  /** An operator and a file are one redirection more. */
  lemma TwoTokens(l: string, ch: char, s: nat, t: Token, f: Token, rs: seq<Redirection>, next: seq<Redirection>)
    requires Moved(l, ch, s, multiset{}, 0, t.next, multiset{}, Weight(t.kind, ch))
    requires Moved(l, ch, t.next, multiset{}, 0, f.next, multiset{f.range}, 0)
    requires IsOperator(ch) && (t.kind == '<' || t.kind == '>' || t.kind == '+')
    requires next == rs + [Redirect(t.kind, f.range)]
    ensures Moved(l, ch, s, Files(rs), RedirOps(rs, ch), f.next, Files(next), RedirOps(next, ch))
  {
    assert next[..|next| - 1] == rs;
    assert Files(next) == Files(rs) + multiset{f.range};
    MovedBeside(l, ch, s, multiset{}, 0, t.next, multiset{}, Weight(t.kind, ch), Files(rs), RedirOps(rs, ch));
    MovedBeside(l, ch, t.next, multiset{}, 0, f.next, multiset{f.range}, 0, Files(rs), RedirOps(next, ch));
    Plus(Files(rs));
    assert RedirOps(next, ch) == RedirOps(rs, ch) + Weight(t.kind, ch);
    MovedTwice(l, ch, s, Files(rs), RedirOps(rs, ch), t.next, Files(rs), RedirOps(next, ch),
      f.next, Files(next), RedirOps(next, ch));
  }

  lemma Plus(w: multiset<Range>)
    ensures w + multiset{} == w
  {
  }

  lemma {:induction false} WrapCounts(c: Cmd, rs: seq<Redirection>, ch: char)
    ensures Ranges(Wrap(c, rs)) == Ranges(c) + Files(rs) && Ops(Wrap(c, rs), ch) == Ops(c, ch) + RedirOps(rs, ch)
  {
    if rs != [] { WrapCounts(c, rs[..|rs| - 1], ch); }
  }

  lemma {:induction false} ArgsAccounted(l: string, ch: char, s: nat, argv: seq<Range>, rs: seq<Redirection>)
    requires s <= |l| && NUL !in l && IsOperator(ch) && ParseArgs(l, s, argv, rs).Ok?
    ensures var r := ParseArgs(l, s, argv, rs);
      Moved(l, ch, s, multiset(argv) + Files(rs), RedirOps(rs, ch), r.pos, Ranges(r.value), Ops(r.value, ch))
    decreases |l| - s
  {
    var r, t := ParseArgs(l, s, argv, rs), GetToken(l, s);
    if Peek(l, s, "|)&;") || t.kind == NUL {
      WrapCounts(Exec(argv), rs, ch);
      SkipReadsNothing(l, ch, s);
      AtTheEnd(l, s);
      MovedBeside(l, ch, s, multiset{}, 0, r.pos, multiset{}, 0, multiset(argv) + Files(rs), RedirOps(rs, ch));
    } else {
      var r1 := ParseRedirs(l, t.next, rs);
      NextIsFurther(l, s);
      OneArg(l, ch, s, argv, rs);
      ArgsAccounted(l, ch, r1.pos, argv + [t.range], r1.value);
      MovedTwice(l, ch, s, multiset(argv) + Files(rs), RedirOps(rs, ch),
        r1.pos, multiset(argv + [t.range]) + Files(r1.value), RedirOps(r1.value, ch),
        r.pos, Ranges(r.value), Ops(r.value, ch));
    }
  }

  /** One turn of the argument loop: a word and the redirections behind it. */
  lemma OneArg(l: string, ch: char, s: nat, argv: seq<Range>, rs: seq<Redirection>)
    requires s <= |l| && NUL !in l && IsOperator(ch) && GetToken(l, s).kind == 'a'
    requires ParseRedirs(l, GetToken(l, s).next, rs).Ok?
    ensures var t := GetToken(l, s);
      var r := ParseRedirs(l, t.next, rs);
      Moved(l, ch, s, multiset(argv) + Files(rs), RedirOps(rs, ch),
            r.pos, multiset(argv + [t.range]) + Files(r.value), RedirOps(r.value, ch))
  {
    var t := GetToken(l, s);
    var r := ParseRedirs(l, t.next, rs);
    var args := multiset(argv + [t.range]);
    ReadToken(l, ch, s);
    MovedBeside(l, ch, s, multiset{}, 0, t.next, multiset{t.range}, 0, multiset(argv) + Files(rs), RedirOps(rs, ch));
    Plus(multiset(argv) + Files(rs));
    assert multiset(argv) + Files(rs) + multiset{t.range} == args + Files(rs);
    RedirsAccounted(l, ch, t.next, rs);
    MovedBeside(l, ch, t.next, Files(rs), RedirOps(rs, ch), r.pos, Files(r.value), RedirOps(r.value, ch), args, 0);
    MovedTwice(l, ch, s, multiset(argv) + Files(rs), RedirOps(rs, ch), t.next, args + Files(rs), RedirOps(rs, ch),
      r.pos, args + Files(r.value), RedirOps(r.value, ch));
  }

  lemma AtTheEnd(l: string, s: nat)
    requires s <= |l| && NUL !in l
    ensures GetToken(l, s).kind == NUL ==> GetToken(l, s).next == Skip(l, s) == |l|
  {
  }

  /** The command c was read between s and p. */
  ghost predicate Accounted(l: string, ch: char, s: nat, c: Cmd, p: nat) {
    Moved(l, ch, s, multiset{}, 0, p, Ranges(c), Ops(c, ch))
  }

  lemma {:induction false} ExecAccounted(l: string, ch: char, s: nat)
    requires s <= |l| && NUL !in l && IsOperator(ch) && ParseExec(l, s).Ok?
    ensures Accounted(l, ch, s, ParseExec(l, s).value, ParseExec(l, s).pos)
    decreases |l| - s, 1
  {
    if Peek(l, s, "(") {
      BlockAccounted(l, ch, s);
    } else {
      var r := ParseRedirs(l, Skip(l, s), []);
      var e := ParseExec(l, s);
      SkipReadsNothing(l, ch, s);
      RedirsAccounted(l, ch, Skip(l, s), []);
      ArgsAccounted(l, ch, r.pos, [], r.value);
      MovedTwice(l, ch, s, multiset{}, 0, Skip(l, s), multiset{}, 0, r.pos, Files(r.value), RedirOps(r.value, ch));
      var none: seq<Range> := [];
      assert multiset(none) + Files(r.value) == Files(r.value);
      MovedTwice(l, ch, s, multiset{}, 0, r.pos, Files(r.value), RedirOps(r.value, ch),
        e.pos, Ranges(e.value), Ops(e.value, ch));
    }
  }

  lemma {:induction false} BlockAccounted(l: string, ch: char, s: nat)
    requires s <= |l| && NUL !in l && IsOperator(ch) && Peek(l, s, "(") && ParseBlock(l, s).Ok?
    ensures Accounted(l, ch, s, ParseBlock(l, s).value, ParseBlock(l, s).pos)
    decreases |l| - s, 0
  {
    var t := GetToken(l, s);
    var c := ParseLine(l, t.next);
    var u := GetToken(l, c.pos);
    var r := ParseRedirs(l, u.next, []);
    PeekedKind(l, s, "(");
    PeekedKind(l, c.pos, ")");
    NextIsFurther(l, s);
    ReadToken(l, ch, s);
    LineAccounted(l, ch, t.next);
    ReadToken(l, ch, c.pos);
    RedirsAccounted(l, ch, u.next, []);
    WrapCounts(c.value, r.value, ch);
    InParentheses(l, ch, s, t.next, c, u.next, r);
  }

  /** What is between the parentheses, and the redirections behind them. */
  lemma InParentheses(l: string, ch: char, s: nat, a: nat, c: Result<Cmd>, b: nat, r: Result<seq<Redirection>>)
    requires IsOperator(ch) && c.Ok? && r.Ok?
    requires Moved(l, ch, s, multiset{}, 0, a, multiset{}, Weight('(', ch)) && Accounted(l, ch, a, c.value, c.pos)
    requires Moved(l, ch, c.pos, multiset{}, 0, b, multiset{}, Weight(')', ch))
    requires Moved(l, ch, b, multiset{}, 0, r.pos, Files(r.value), RedirOps(r.value, ch))
    ensures Moved(l, ch, s, multiset{}, 0,
                  r.pos, Ranges(c.value) + Files(r.value), Ops(c.value, ch) + RedirOps(r.value, ch))
  {
    assert Weight('(', ch) + Weight(')', ch) == 0;
    Chain(WordsAhead(l, s), WordsAhead(l, c.pos), Ranges(c.value), WordsAhead(l, r.pos), Files(r.value));
    Plus(WordsAhead(l, s));
    Plus(WordsAhead(l, a));
    Plus(WordsAhead(l, c.pos));
    Plus(WordsAhead(l, b));
  }

  lemma Chain(a: multiset<Range>, b: multiset<Range>, x: multiset<Range>, c: multiset<Range>, y: multiset<Range>)
    requires a == b + x && b == c + y
    ensures a == c + (x + y)
  {
  }

  /** Two commands with an operator of weight n between them. */
  lemma BothAccounted(l: string, ch: char, s: nat, c: Cmd, p: nat, n: int, q: nat, d: Cmd, e: nat)
    requires Accounted(l, ch, s, c, p) && Moved(l, ch, p, multiset{}, 0, q, multiset{}, n) && Accounted(l, ch, q, d, e)
    ensures Moved(l, ch, s, multiset{}, 0, e, Ranges(c) + Ranges(d), Ops(c, ch) + Ops(d, ch) + n)
  {
    Plus(WordsAhead(l, s));
    Plus(WordsAhead(l, p));
    Plus(WordsAhead(l, q));
    Chain(WordsAhead(l, s), WordsAhead(l, p), Ranges(c), WordsAhead(l, e), Ranges(d));
  }

  lemma SkipAccounted(l: string, ch: char, s: nat, c: Cmd, p: nat)
    requires Accounted(l, ch, s, c, p)
    ensures Accounted(l, ch, s, c, Skip(l, p))
  {
    SkipReadsNothing(l, ch, p);
  }

  lemma {:induction false} PipeAccounted(l: string, ch: char, s: nat)
    requires s <= |l| && NUL !in l && IsOperator(ch) && ParsePipe(l, s).Ok?
    ensures Accounted(l, ch, s, ParsePipe(l, s).value, ParsePipe(l, s).pos)
    decreases |l| - s, 2
  {
    ExecAccounted(l, ch, s);
    var c := ParseExec(l, s);
    if Peek(l, c.pos, "|") {
      var t := GetToken(l, c.pos);
      PeekedKind(l, c.pos, "|");
      NextIsFurther(l, c.pos);
      ReadToken(l, ch, c.pos);
      PipeAccounted(l, ch, t.next);
      BothAccounted(l, ch, s, c.value, c.pos, Weight('|', ch), t.next, ParsePipe(l, t.next).value,
        ParsePipe(l, t.next).pos);
    } else {
      SkipAccounted(l, ch, s, c.value, c.pos);
    }
  }

  lemma {:induction false} BacksAccounted(l: string, ch: char, s0: nat, s: nat, c: Cmd)
    requires s <= |l| && NUL !in l && IsOperator(ch) && Accounted(l, ch, s0, c, s)
    ensures Accounted(l, ch, s0, ParseBacks(l, s, c).value, ParseBacks(l, s, c).pos)
    decreases |l| - s
  {
    if Peek(l, s, "&") {
      var t := GetToken(l, s);
      PeekedKind(l, s, "&");
      NextIsFurther(l, s);
      ReadToken(l, ch, s);
      BackAccounted(l, ch, s0, c, s, t.next);
      BacksAccounted(l, ch, s0, t.next, Back(c));
    } else {
      SkipAccounted(l, ch, s0, c, s);
    }
  }

  lemma BackAccounted(l: string, ch: char, s: nat, c: Cmd, p: nat, q: nat)
    requires Accounted(l, ch, s, c, p) && IsOperator(ch)
    requires Moved(l, ch, p, multiset{}, 0, q, multiset{}, Weight('&', ch))
    ensures Accounted(l, ch, s, Back(c), q)
  {
    Plus(WordsAhead(l, p));
    Plus(WordsAhead(l, q));
    assert Weight('&', ch) == if ch == '&' then 1 else 0;
  }

  lemma {:induction false} LineAccounted(l: string, ch: char, s: nat)
    requires s <= |l| && NUL !in l && IsOperator(ch) && ParseLine(l, s).Ok?
    ensures Accounted(l, ch, s, ParseLine(l, s).value, ParseLine(l, s).pos)
    decreases |l| - s, 3
  {
    PipeAccounted(l, ch, s);
    var c := ParsePipe(l, s);
    BacksAccounted(l, ch, s, c.pos, c.value);
    var b := ParseBacks(l, c.pos, c.value);
    if Peek(l, b.pos, ";") {
      var t := GetToken(l, b.pos);
      PeekedKind(l, b.pos, ";");
      NextIsFurther(l, b.pos);
      ReadToken(l, ch, b.pos);
      LineAccounted(l, ch, t.next);
      BothAccounted(l, ch, s, b.value, b.pos, Weight(';', ch), t.next, ParseLine(l, t.next).value,
        ParseLine(l, t.next).pos);
    } else {
      SkipAccounted(l, ch, s, b.value, b.pos);
    }
  }

  /** In every line that parses, every word is in the command exactly once, every '|', ';', '&', '<',
      '>' and ">>" stands for one node of it, and there are as many '(' as ')'. */
  lemma NothingIsLost(l: string, ch: char)
    requires NUL !in l && ParseCmd(l).Ok? && IsOperator(ch)
    ensures WordsAhead(l, 0) == Ranges(ParseCmd(l).value)
    ensures OpsAhead(l, 0, ch) == Ops(ParseCmd(l).value, ch)
    ensures ch == '(' ==> OpsAhead(l, 0, ch) == 0
  {
    var c := ParseLine(l, 0);
    LineAccounted(l, ch, 0);
    SkipAccounted(l, ch, 0, c.value, c.pos);
    AtTheEnd(l, |l|);
    assert WordsAhead(l, |l|) == multiset{} && OpsAhead(l, |l|, ch) == 0;
    Plus(WordsAhead(l, 0));
    Plus(Ranges(c.value));
    NoParenthesis(c.value);
  }

  lemma {:induction false} NoParenthesis(c: Cmd)
    ensures Ops(c, '(') == 0
  {
    match c
    case Exec(_) =>
    case Redir(d, r) => NoParenthesis(d);
    case Pipe(a, b) => NoParenthesis(a); NoParenthesis(b);
    case List(a, b) => NoParenthesis(a); NoParenthesis(b);
    case Back(d) => NoParenthesis(d);
  }
}
