/** Parsing undoes printing, for every command tree and however its redirections are written. */
module ShellRoundTrip {
  import opened ShellSyntax

  /** A redirection; one of the output may be written ">" or, when `twice`, ">>". */
  datatype RedirText = RedirText(file: string, mode: int, fd: int, twice: bool)

  /** A command tree with its words as strings. */
  datatype Tree =
    | TExec(argv: seq<string>)
    | TRedir(cmd: Tree, redirection: RedirText)
    | TPipe(left: Tree, right: Tree)
    | TList(left: Tree, right: Tree)
    | TBack(cmd: Tree)

  /** The tree that a parsed command stands for. */
  function Text(c: Cmd, l: string): Tree {
    match c
    case Exec(argv) => TExec(Words(argv, l))
    case Redir(d, r) => TRedir(Text(d, l), RText(r, l))
    case Pipe(a, b) => TPipe(Text(a, l), Text(b, l))
    case List(a, b) => TList(Text(a, l), Text(b, l))
    case Back(d) => TBack(Text(d, l))
  }

  function Word(r: Range, l: string): string { if r.q <= r.eq <= |l| then l[r.q..r.eq] else "" }

  function Words(rs: seq<Range>, l: string): (w: seq<string>)
    ensures |w| == |rs|
  {
    seq(|rs|, i requires 0 <= i < |rs| => Word(rs[i], l))
  }

  function RText(r: Redirection, l: string): RedirText { RedirText(Word(r.file, l), r.mode, r.fd, false) }

  function RTexts(rs: seq<Redirection>, l: string): (w: seq<RedirText>)
    ensures |w| == |rs|
  {
    seq(|rs|, i requires 0 <= i < |rs| => RText(rs[i], l))
  }

  // The same file, mode and descriptor, written once: the shell keeps no trace of ">>".

  function Once(r: RedirText): RedirText { r.(twice := false) }

  function Onces(rs: seq<RedirText>): (w: seq<RedirText>)
    ensures |w| == |rs|
  {
    seq(|rs|, i requires 0 <= i < |rs| => Once(rs[i]))
  }

  function Plain(t: Tree): (p: Tree)
    ensures !t.TRedir? ==> !p.TRedir?
  {
    match t
    case TExec(argv) => t
    case TRedir(d, r) => TRedir(Plain(d), Once(r))
    case TPipe(a, b) => TPipe(Plain(a), Plain(b))
    case TList(a, b) => TList(Plain(a), Plain(b))
    case TBack(d) => TBack(Plain(d))
  }

  /** A word: some characters, none blank, special or NUL. */
  ghost predicate Legal(w: string) {
    w != "" && forall k :: 0 <= k < |w| ==> !Blank(w[k]) && !Symbol(w[k]) && w[k] != NUL
  }

  ghost predicate LegalRedir(r: RedirText) {
    Legal(r.file) && ((r.mode == O_RDONLY && r.fd == 0 && !r.twice) || (r.mode == O_WRONLY_CREATE && r.fd == 1))
  }

  /** Legal words, redirections that the syntax can express, at most nine arguments. */
  ghost predicate LegalTree(t: Tree) {
    match t
    case TExec(argv) => |argv| < MAXARGS && forall i :: 0 <= i < |argv| ==> Legal(argv[i])
    case TRedir(d, r) => LegalTree(d) && LegalRedir(r)
    case TPipe(a, b) => LegalTree(a) && LegalTree(b)
    case TList(a, b) => LegalTree(a) && LegalTree(b)
    case TBack(d) => LegalTree(d)
  }

  // The printers take the text k that follows, so that nothing is ever appended twice.

  function PrintWords(ws: seq<string>, k: string): string {
    if ws == [] then k else ws[0] + (" " + PrintWords(ws[1..], k))
  }

  function Operator(r: RedirText): string { if r.fd == 0 then "<" else if r.twice then ">>" else ">" }

  function PrintRedirs(rs: seq<RedirText>, k: string): string {
    if rs == [] then k
    else Operator(rs[0]) + (rs[0].file + (" " + PrintRedirs(rs[1..], k)))
  }

  /** The innermost command under the redirections of t, and those redirections, innermost first. */
  function Core(t: Tree): (c: Tree)
    ensures !c.TRedir? && (t.TRedir? ==> c < t) && (!t.TRedir? ==> c == t)
  {
    if t.TRedir? then Core(t.cmd) else t
  }

  function Redirs(t: Tree): seq<RedirText> { if t.TRedir? then Redirs(t.cmd) + [t.redirection] else [] }

  function TWrap(c: Tree, rs: seq<RedirText>): Tree {
    if rs == [] then c else TRedir(TWrap(c, rs[..|rs| - 1]), rs[|rs| - 1])
  }

  /** A pipe, list or background command, without parentheses. */
  function PrintOpen(t: Tree, k: string): string
    decreases t, 0
  {
    match t
    case TPipe(a, b) => PrintExec(a, "|" + PrintPipe(b, k))
    case TList(a, b) => PrintBack(a, ";" + PrintLine(b, k))
    case TBack(d) => PrintBack(d, "&" + k)
    case _ => k
  }

  /** What `parseexec` reads: words or a block in parentheses, then redirections. */
  function PrintExec(t: Tree, k: string): string
    decreases t, 1
  {
    var rs := PrintRedirs(Redirs(t), k);
    if Core(t).TExec? then PrintWords(Core(t).argv, rs) else "(" + PrintOpen(Core(t), ")" + rs)
  }

  /** What `parsepipe` reads. */
  function PrintPipe(t: Tree, k: string): string
    decreases t, 2
  {
    if t.TPipe? then PrintOpen(t, k) else PrintExec(t, k)
  }

  /** What `parseline` reads before a ';'. */
  function PrintBack(t: Tree, k: string): string
    decreases t, 2
  {
    if t.TPipe? || t.TBack? then PrintOpen(t, k) else PrintExec(t, k)
  }

  /** What `parseline` reads. */
  function PrintLine(t: Tree, k: string): string
    decreases t, 2
  {
    if t.TPipe? || t.TBack? || t.TList? then PrintOpen(t, k) else PrintExec(t, k)
  }

  /** The line from s on is x. */
  ghost predicate Left(l: string, s: nat, x: string) {
    s <= |l| && l[s..] == x
  }

  lemma LeftAfter(l: string, s: nat, x: string, y: string)
    requires Left(l, s, x + y)
    ensures s + |x| <= |l| && Left(l, s + |x|, y) && l[s..s + |x|] == x
  {
    assert l[s..][|x|..] == y && l[s..][..|x|] == x;
    assert l[s..][|x|..] == l[s + |x|..] && l[s..][..|x|] == l[s..s + |x|];
  }

  /** Nothing to skip at the front. */
  ghost predicate Tight(x: string) { x == "" || !Blank(x[0]) }

  ghost predicate EndsAt(rest: string, stops: string) {
    rest == "" || rest[0] in stops
  }

  lemma NoSkip(l: string, s: nat, x: string)
    requires Left(l, s, x) && Tight(x)
    ensures Skip(l, s) == s && At(l, s) == if x == "" then NUL else x[0]
  {
    if x != "" { assert l[s] == l[s..][0]; }
  }

  /** A word followed by a blank is one token, and the blank is skipped behind it. */
  lemma TokenOfWord(l: string, s: nat, w: string, more: string)
    requires NUL !in l && Left(l, s, w + (" " + more)) && Legal(w) && Tight(more)
    ensures var t := GetToken(l, s);
      t.kind == 'a' && Word(t.range, l) == w && Left(l, t.next, more)
  {
    var e := s + |w|;
    LeftAfter(l, s, w, " " + more);
    LeftAfter(l, e, " ", more);
    assert l[e] == l[e..][0] == ' ';
    forall k | s <= k < e ensures l[k] == w[k - s] { assert l[k] == l[s..e][k - s]; }
    WordEndIs(l, s, e);
    NoSkip(l, e + 1, more);
    assert Skip(l, e) == Skip(l, e + 1);
  }

  lemma {:induction false} WordEndIs(l: string, s: nat, e: nat)
    requires s <= e < |l| && (forall k :: s <= k < e ==> !Blank(l[k]) && !Symbol(l[k])) && (Blank(l[e]) || Symbol(l[e]))
    ensures WordEnd(l, s) == e
    decreases e - s
  {
    if s < e { WordEndIs(l, s + 1, e); }
  }

  /** A symbol is a token of one character, unless it begins ">>". */
  lemma TokenOfSymbol(l: string, s: nat, c: char, more: string)
    requires NUL !in l && Left(l, s, [c] + more) && Symbol(c) && Tight(more)
    requires (c == '>' && more != "" ==> more[0] != '>')
    ensures var t := GetToken(l, s); t.kind == c && Left(l, t.next, more) && t.next == s + 1
  {
    NoSkip(l, s, [c] + more);
    LeftAfter(l, s, [c], more);
    NoSkip(l, s + 1, more);
  }

  /** ">>" is one token of two characters. */
  lemma TokenOfAppend(l: string, s: nat, more: string)
    requires NUL !in l && Left(l, s, ">>" + more) && Tight(more)
    ensures Peek(l, s, "<>")
    ensures var t := GetToken(l, s); t.kind == '+' && Left(l, t.next, more) && t.next == s + 2
  {
    NoSkip(l, s, ">>" + more);
    LeftAfter(l, s, ">>", more);
    assert l[s..s + 2][1] == '>';
    NoSkip(l, s + 2, more);
  }

  lemma {:induction false} TextOfWrap(c: Cmd, rs: seq<Redirection>, l: string)
    ensures Text(Wrap(c, rs), l) == TWrap(Text(c, l), RTexts(rs, l))
  {
    if rs != [] {
      TextOfWrap(c, rs[..|rs| - 1], l);
      assert RTexts(rs, l)[..|rs| - 1] == RTexts(rs[..|rs| - 1], l);
    }
  }

  lemma {:induction false} WrapOfCore(t: Tree)
    ensures TWrap(Plain(Core(t)), Onces(Redirs(t))) == Plain(t)
  {
    if t.TRedir? {
      WrapOfCore(t.cmd);
      assert Onces(Redirs(t))[..|Redirs(t)| - 1] == Onces(Redirs(t.cmd));
    }
  }

  lemma {:induction false} LegalCore(t: Tree)
    requires LegalTree(t)
    ensures LegalTree(Core(t)) && forall i :: 0 <= i < |Redirs(t)| ==> LegalRedir(Redirs(t)[i])
  {
    if t.TRedir? { LegalCore(t.cmd); }
  }

  /** One printed redirection is two tokens, the operator and the file; the file, the mode and the
      descriptor come back, whichever operator was chosen. */
  lemma OneRedir(l: string, s: nat, r: RedirText, more: string)
    requires NUL !in l && LegalRedir(r) && Tight(more)
    requires Left(l, s, Operator(r) + (r.file + (" " + more)))
    ensures Peek(l, s, "<>")
    ensures var t := GetToken(l, s);
      var f := GetToken(l, t.next);
      f.kind == 'a' && Left(l, f.next, more) && RText(Redirect(t.kind, f.range), l) == Once(r)
  {
    var body := r.file + (" " + more);
    assert body[0] == r.file[0];
    if r.twice {
      TokenOfAppend(l, s, body);
      TokenOfWord(l, s + 2, r.file, more);
    } else {
      var op := if r.fd == 0 then '<' else '>';
      NoSkip(l, s, [op] + body);
      TokenOfSymbol(l, s, op, body);
      TokenOfWord(l, s + 1, r.file, more);
    }
  }

  lemma RedirsTight(rs: seq<RedirText>, k: string)
    requires Tight(k)
    ensures Tight(PrintRedirs(rs, k)) && (rs != [] ==> PrintRedirs(rs, k) != "" && PrintRedirs(rs, k)[0] in "<>")
  {
  }

  /** The redirections printed for rs are read back in order. */
  lemma {:induction false} RedirsReadBack(l: string, s: nat, rs: seq<RedirText>, acc: seq<Redirection>, k: string)
    requires NUL !in l && Left(l, s, PrintRedirs(rs, k)) && Tight(k) && (k != "" ==> k[0] != '<' && k[0] != '>')
    requires forall i :: 0 <= i < |rs| ==> LegalRedir(rs[i])
    ensures var r := ParseRedirs(l, s, acc);
      r.Ok? && Left(l, r.pos, k) && RTexts(r.value, l) == RTexts(acc, l) + Onces(rs)
    decreases |rs|
  {
    if rs == [] {
      NoSkip(l, s, k);
      assert RTexts(acc, l) + Onces(rs) == RTexts(acc, l);
    } else {
      RedirsTight(rs[1..], k);
      OneRedir(l, s, rs[0], PrintRedirs(rs[1..], k));
      var t := GetToken(l, s);
      var f := GetToken(l, t.next);
      RedirsReadBack(l, f.next, rs[1..], acc + [Redirect(t.kind, f.range)], k);
      RTextsSnoc(acc, Redirect(t.kind, f.range), l, rs);
    }
  }

  lemma RTextsSnoc(acc: seq<Redirection>, r: Redirection, l: string, rs: seq<RedirText>)
    requires rs != [] && RText(r, l) == Once(rs[0])
    ensures RTexts(acc + [r], l) + Onces(rs[1..]) == RTexts(acc, l) + Onces(rs)
  {
  }

  lemma WordsTight(ws: seq<string>, k: string)
    requires ws != [] && Legal(ws[0])
    ensures PrintWords(ws, k) != "" && PrintWords(ws, k)[0] == ws[0][0]
  {
  }

  /** One turn of the argument loop: a word is read, and the loop goes on behind it. */
  lemma ArgStep(l: string, s: nat, w: string, more: string, argv: seq<Range>, acc: seq<Redirection>)
    requires NUL !in l && Left(l, s, w + (" " + more)) && Legal(w) && Tight(more) && |argv| + 1 < MAXARGS
    ensures var t := GetToken(l, s);
      var r := ParseRedirs(l, t.next, acc);
      && Left(l, t.next, more) && Words(argv + [t.range], l) == Words(argv, l) + [w]
      && (r.Ok? ==> ParseArgs(l, s, argv, acc) == ParseArgs(l, r.pos, argv + [t.range], r.value))
  {
    var x := w + (" " + more);
    assert x[0] == w[0];
    NoSkip(l, s, x);
    TokenOfWord(l, s, w, more);
  }

  /** Behind a word that another word follows, there is no redirection. */
  lemma MiddleArg(l: string, s: nat, w: string, more: string, argv: seq<Range>)
    requires NUL !in l && Left(l, s, w + (" " + more)) && Legal(w) && |argv| + 1 < MAXARGS
    requires more != "" && !Blank(more[0]) && !Symbol(more[0])
    ensures var t := GetToken(l, s);
      && Left(l, t.next, more) && Words(argv + [t.range], l) == Words(argv, l) + [w]
      && ParseArgs(l, s, argv, []) == ParseArgs(l, t.next, argv + [t.range], [])
  {
    ArgStep(l, s, w, more, argv, []);
    NoSkip(l, GetToken(l, s).next, more);
  }

  /** Behind the last word come the redirections. */
  lemma LastArg(l: string, s: nat, w: string, argv: seq<Range>, rs: seq<RedirText>, k: string)
    requires NUL !in l && Left(l, s, w + (" " + PrintRedirs(rs, k))) && Legal(w) && Stops(k, "|)&;")
    requires |argv| + 1 < MAXARGS
    requires forall i :: 0 <= i < |rs| ==> LegalRedir(rs[i])
    ensures var r := ParseArgs(l, s, argv, []);
      r.Ok? && Left(l, r.pos, k) && Text(r.value, l) == TWrap(TExec(Words(argv, l) + [w]), Onces(rs))
  {
    RedirsTight(rs, k);
    ArgStep(l, s, w, PrintRedirs(rs, k), argv, []);
    var t := GetToken(l, s);
    RedirsReadBack(l, t.next, rs, [], k);
    var r := ParseRedirs(l, t.next, []);
    assert RTexts([], l) + Onces(rs) == Onces(rs);
    ArgsEnd(l, r.pos, argv + [t.range], r.value, k);
  }

  /** The words and then the redirections of a simple command are read back. */
  lemma {:induction false} ArgsReadBack(l: string, s: nat, ws: seq<string>, argv: seq<Range>, rs: seq<RedirText>,
        k: string)
    requires NUL !in l && ws != [] && Left(l, s, PrintWords(ws, PrintRedirs(rs, k)))
    requires Stops(k, "|)&;") && |argv| + |ws| < MAXARGS && (forall i :: 0 <= i < |ws| ==> Legal(ws[i]))
    requires forall i :: 0 <= i < |rs| ==> LegalRedir(rs[i])
    ensures var r := ParseArgs(l, s, argv, []);
      r.Ok? && Left(l, r.pos, k) && Text(r.value, l) == TWrap(TExec(Words(argv, l) + ws), Onces(rs))
    decreases |ws|
  {
    var tail := PrintRedirs(rs, k);
    if ws[1..] == [] {
      assert PrintWords(ws[1..], tail) == tail;
      LastArg(l, s, ws[0], argv, rs, k);
      assert [ws[0]] == ws;
    } else {
      WordsTight(ws[1..], tail);
      MiddleArg(l, s, ws[0], PrintWords(ws[1..], tail), argv);
      var t := GetToken(l, s);
      ArgsReadBack(l, t.next, ws[1..], argv + [t.range], rs, k);
      ConsWords(Words(argv, l), ws);
    }
  }

  lemma ConsWords(a: seq<string>, ws: seq<string>)
    requires ws != []
    ensures a + [ws[0]] + ws[1..] == a + ws
  {
  }

  /** The rest starts a new part of the line, or is empty. */
  ghost predicate Stops(rest: string, stops: string) {
    EndsAt(rest, stops) && Tight(rest) && (rest != "" ==> Symbol(rest[0]) && rest[0] != '<' && rest[0] != '>')
  }

  /** At the end of a simple command, the argument loop ends. */
  lemma ArgsEnd(l: string, s: nat, argv: seq<Range>, acc: seq<Redirection>, rest: string)
    requires NUL !in l && Left(l, s, rest) && Stops(rest, "|)&;")
    ensures var r := ParseArgs(l, s, argv, acc);
      r.Ok? && Left(l, r.pos, rest) && Text(r.value, l) == TWrap(TExec(Words(argv, l)), RTexts(acc, l))
  {
    NoSkip(l, s, rest);
    TextOfWrap(Exec(argv), acc, l);
    if rest == "" { assert GetToken(l, s) == Token(NUL, Range(s, s), s); }
  }

  // One step of each parsing function, on any line.

  lemma AtSymbol(l: string, s: nat, c: char, more: string)
    requires NUL !in l && Left(l, s, [c] + more) && Symbol(c) && c != '>' && Tight(more)
    ensures s < |l| && GetToken(l, s).next == s + 1 && Left(l, s + 1, more)
    ensures Skip(l, s) == s && At(l, s) == c
  {
    NoSkip(l, s, [c] + more);
    TokenOfSymbol(l, s, c, more);
  }

  lemma BlockParts(l: string, s: nat, c: Cmd, p: nat, rs: seq<Redirection>, q: nat)
    requires NUL !in l && s < |l| && Peek(l, s, "(") && GetToken(l, s).next == s + 1 && ParseLine(l, s + 1) == Ok(c, p)
    requires p < |l| && Peek(l, p, ")") && GetToken(l, p).next == p + 1 && ParseRedirs(l, p + 1, []) == Ok(rs, q)
    ensures ParseExec(l, s) == Ok(Wrap(c, rs), q)
  {
    assert ParseExec(l, s) == ParseBlock(l, s);
  }

  lemma BlockStep(l: string, s: nat, inside: string, c: Cmd, p: nat, after: string, rs: seq<Redirection>, q: nat)
    requires NUL !in l && Left(l, s, ['('] + inside) && Tight(inside) && s < |l| && ParseLine(l, s + 1) == Ok(c, p)
    requires Left(l, p, [')'] + after) && Tight(after) && p < |l| && ParseRedirs(l, p + 1, []) == Ok(rs, q)
    ensures ParseExec(l, s) == Ok(Wrap(c, rs), q)
  {
    AtSymbol(l, s, '(', inside);
    AtSymbol(l, p, ')', after);
    BlockParts(l, s, c, p, rs, q);
  }

  lemma PipeStep(l: string, s: nat, c: Cmd, p: nat, more: string, d: Cmd, q: nat)
    requires NUL !in l && s <= |l| && ParseExec(l, s) == Ok(c, p)
    requires Left(l, p, ['|'] + more) && Tight(more) && p < |l| && ParsePipe(l, p + 1) == Ok(d, q)
    ensures ParsePipe(l, s) == Ok(Pipe(c, d), q)
  {
    AtSymbol(l, p, '|', more);
  }

  lemma BackStep(l: string, q: nat, c: Cmd, more: string)
    requires NUL !in l && Left(l, q, ['&'] + more) && Tight(more)
    ensures q < |l| && Left(l, q + 1, more) && ParseBacks(l, q, c) == ParseBacks(l, q + 1, Back(c))
  {
    AtSymbol(l, q, '&', more);
  }

  /** The '&' loop of the command at s reaches c at q. */
  ghost predicate BacksTo(l: string, s: nat, c: Cmd, q: nat)
    requires NUL !in l && s <= |l|
  {
    var r := ParsePipe(l, s);
    r.Ok? && q <= |l| && ParseBacks(l, r.pos, r.value) == ParseBacks(l, q, c)
  }

  lemma ListStep(l: string, s: nat, c: Cmd, p: nat, more: string, d: Cmd, q: nat)
    requires NUL !in l && s <= |l| && BacksTo(l, s, c, p) && Left(l, p, [';'] + more) && Tight(more)
    requires p < |l| && ParseLine(l, p + 1) == Ok(d, q)
    ensures ParseLine(l, s) == Ok(List(c, d), q)
  {
    AtSymbol(l, p, ';', more);
    assert ParseBacks(l, p, c) == Ok(c, p);
  }

  lemma LineEnd(l: string, s: nat, c: Cmd, q: nat, k: string)
    requires NUL !in l && s <= |l| && BacksTo(l, s, c, q) && Left(l, q, k) && Stops(k, ")")
    ensures ParseLine(l, s) == Ok(c, q)
  {
    NoSkip(l, q, k);
  }

  /** A simple command without words. */
  lemma NoWordsReadBack(l: string, s: nat, rs: seq<RedirText>, k: string)
    requires NUL !in l && Left(l, s, PrintRedirs(rs, k)) && Stops(k, "|)&;")
    requires forall i :: 0 <= i < |rs| ==> LegalRedir(rs[i])
    ensures var r := ParseExec(l, s); r.Ok? && Left(l, r.pos, k) && Text(r.value, l) == TWrap(TExec([]), Onces(rs))
  {
    RedirsTight(rs, k);
    NoSkip(l, s, PrintRedirs(rs, k));
    RedirsReadBack(l, s, rs, [], k);
    var r := ParseRedirs(l, s, []);
    assert RTexts([], l) + Onces(rs) == Onces(rs);
    ArgsEnd(l, r.pos, [], r.value, k);
    assert Words([], l) == [];
  }

  /** A simple command with words. */
  lemma WordsReadBack(l: string, s: nat, ws: seq<string>, rs: seq<RedirText>, k: string)
    requires NUL !in l && ws != [] && |ws| < MAXARGS && Left(l, s, PrintWords(ws, PrintRedirs(rs, k)))
    requires Stops(k, "|)&;")
    requires (forall i :: 0 <= i < |ws| ==> Legal(ws[i])) && forall i :: 0 <= i < |rs| ==> LegalRedir(rs[i])
    ensures var r := ParseExec(l, s); r.Ok? && Left(l, r.pos, k) && Text(r.value, l) == TWrap(TExec(ws), Onces(rs))
  {
    var x := PrintWords(ws, PrintRedirs(rs, k));
    WordsTight(ws, PrintRedirs(rs, k));
    NoSkip(l, s, x);
    StraightToArgs(l, s);
    ArgsReadBack(l, s, ws, [], rs, k);
    assert Words([], l) + ws == ws;
  }

  lemma StraightToArgs(l: string, s: nat)
    requires NUL !in l && s <= |l| && Skip(l, s) == s && !Peek(l, s, "(") && !Peek(l, s, "<>")
    ensures ParseExec(l, s) == ParseArgs(l, s, [], [])
  {
  }

  /** A simple command is read back by `parseexec`. */
  lemma SimpleReadBack(l: string, s: nat, t: Tree, k: string)
    requires NUL !in l && LegalTree(t) && Core(t).TExec? && Left(l, s, PrintExec(t, k)) && Stops(k, "|)&;")
    ensures var r := ParseExec(l, s); r.Ok? && Left(l, r.pos, k) && Text(r.value, l) == Plain(t)
  {
    LegalCore(t);
    WrapOfCore(t);
    if Core(t).argv == [] { NoWordsReadBack(l, s, Redirs(t), k); }
    else { WordsReadBack(l, s, Core(t).argv, Redirs(t), k); }
  }

  /** What is printed never starts with a blank. */
  lemma {:induction false} PrintTight(t: Tree, k: string)
    requires LegalTree(t) && Tight(k)
    ensures Tight(PrintExec(t, k)) && Tight(PrintOpen(t, k)) && Tight(PrintPipe(t, k)) && Tight(PrintBack(t, k))
    ensures Tight(PrintLine(t, k))
    decreases t
  {
    LegalCore(t);
    RedirsTight(Redirs(t), k);
    if Core(t).TExec? && Core(t).argv != [] { WordsTight(Core(t).argv, PrintRedirs(Redirs(t), k)); }
    match t
    case TPipe(a, b) => PrintTight(a, "|" + PrintPipe(b, k));
    case TList(a, b) => PrintTight(a, ";" + PrintLine(b, k));
    case TBack(d) => PrintTight(d, "&" + k);
    case _ =>
  }

  /** Whatever is printed for `parseexec` is read back by it. */
  lemma {:induction false} ExecReadBack(l: string, s: nat, t: Tree, k: string)
    requires NUL !in l && LegalTree(t) && Left(l, s, PrintExec(t, k)) && Stops(k, "|)&;")
    ensures var r := ParseExec(l, s); r.Ok? && Left(l, r.pos, k) && Text(r.value, l) == Plain(t)
    decreases t, 2
  {
    if Core(t).TExec? {
      SimpleReadBack(l, s, t, k);
    } else {
      LegalCore(t);
      WrapOfCore(t);
      var rs := PrintRedirs(Redirs(t), k);
      var inside := PrintOpen(Core(t), [')'] + rs);
      LeftAfter(l, s, ['('], inside);
      RedirsTight(Redirs(t), k);
      PrintTight(Core(t), [')'] + rs);
      OpenReadBack(l, s + 1, Core(t), [')'] + rs);
      var c := ParseLine(l, s + 1);
      BlockReadBack(l, s, c.value, c.pos, Redirs(t), inside, k);
    }
  }

  /** A block is read back by `parseexec` when its inside is by `parseline`. */
  lemma BlockReadBack(l: string, s: nat, c: Cmd, p: nat, rs: seq<RedirText>, inside: string, k: string)
    requires NUL !in l && Left(l, s, ['('] + inside) && Tight(inside) && Stops(k, "|)&;")
    requires forall i :: 0 <= i < |rs| ==> LegalRedir(rs[i])
    requires s < |l| && ParseLine(l, s + 1) == Ok(c, p) && Left(l, p, [')'] + PrintRedirs(rs, k))
    ensures var r := ParseExec(l, s); r.Ok? && Left(l, r.pos, k) && Text(r.value, l) == TWrap(Text(c, l), Onces(rs))
  {
    RedirsTight(rs, k);
    var r, q := RedirsBehind(l, p, rs, k);
    BlockStep(l, s, inside, c, p, PrintRedirs(rs, k), r, q);
    TextOfWrap(c, r, l);
  }

  lemma RedirsBehind(l: string, p: nat, rs: seq<RedirText>, k: string) returns (r: seq<Redirection>, q: nat)
    requires NUL !in l && Left(l, p, [')'] + PrintRedirs(rs, k)) && Stops(k, "|)&;")
    requires forall i :: 0 <= i < |rs| ==> LegalRedir(rs[i])
    ensures p < |l| && ParseRedirs(l, p + 1, []) == Ok(r, q) && Left(l, q, k) && RTexts(r, l) == Onces(rs)
  {
    LeftAfter(l, p, [')'], PrintRedirs(rs, k));
    RedirsReadBack(l, p + 1, rs, [], k);
    r, q := ParseRedirs(l, p + 1, []).value, ParseRedirs(l, p + 1, []).pos;
    assert RTexts([], l) + Onces(rs) == Onces(rs);
  }

  /** A printed pipe is read back by `parsepipe`. */
  lemma {:induction false} PipeOpenReadBack(l: string, s: nat, t: Tree, k: string)
    requires NUL !in l && LegalTree(t) && t.TPipe? && Left(l, s, PrintOpen(t, k)) && Stops(k, ")&;")
    ensures var r := ParsePipe(l, s); r.Ok? && Left(l, r.pos, k) && Text(r.value, l) == Plain(t)
    decreases t, 0
  {
    ExecReadBack(l, s, t.left, ['|'] + PrintPipe(t.right, k));
    PipeTail(l, s, t.left, t.right, k);
  }

  /** The right side of a pipe, once the left one is read. */
  lemma {:induction false} PipeTail(l: string, s: nat, left: Tree, right: Tree, k: string)
    requires NUL !in l && LegalTree(right) && Stops(k, ")&;") && s <= |l|
    requires var c := ParseExec(l, s);
      c.Ok? && Left(l, c.pos, ['|'] + PrintPipe(right, k)) && Text(c.value, l) == Plain(left)
    ensures var r := ParsePipe(l, s); r.Ok? && Left(l, r.pos, k) && Text(r.value, l) == TPipe(Plain(left), Plain(right))
    decreases right, 4
  {
    var more := PrintPipe(right, k);
    var c := ParseExec(l, s);
    LeftAfter(l, c.pos, ['|'], more);
    PipeReadBack(l, c.pos + 1, right, k);
    PrintTight(right, k);
    var d := ParsePipe(l, c.pos + 1);
    PipeStep(l, s, c.value, c.pos, more, d.value, d.pos);
  }

  /** Whatever is printed for `parsepipe` is read back by it. */
  lemma {:induction false} PipeReadBack(l: string, s: nat, t: Tree, k: string)
    requires NUL !in l && LegalTree(t) && Left(l, s, PrintPipe(t, k)) && Stops(k, ")&;")
    ensures var r := ParsePipe(l, s); r.Ok? && Left(l, r.pos, k) && Text(r.value, l) == Plain(t)
    decreases t, 3
  {
    if t.TPipe? {
      PipeOpenReadBack(l, s, t, k);
    } else {
      ExecReadBack(l, s, t, k);
      NoSkip(l, ParseExec(l, s).pos, k);
    }
  }

  /** `parseline` reads a command and then goes through its '&' loop to the end of what was printed. */
  lemma {:induction false} BackReadBack(l: string, s: nat, t: Tree, k: string) returns (c: Cmd, p: nat)
    requires NUL !in l && LegalTree(t) && Left(l, s, PrintBack(t, k)) && Stops(k, ")&;")
    ensures Left(l, p, k) && Text(c, l) == Plain(t) && BacksTo(l, s, c, p)
    decreases t, 4
  {
    if t.TBack? {
      c, p := BackOpenReadBack(l, s, t, k);
    } else if t.TPipe? {
      PipeOpenReadBack(l, s, t, k);
      c, p := ParsePipe(l, s).value, ParsePipe(l, s).pos;
    } else {
      ExecReadBack(l, s, t, k);
      NoSkip(l, ParseExec(l, s).pos, k);
      c, p := ParsePipe(l, s).value, ParsePipe(l, s).pos;
    }
  }

  lemma {:induction false} BackOpenReadBack(l: string, s: nat, t: Tree, k: string) returns (c: Cmd, p: nat)
    requires NUL !in l && LegalTree(t) && t.TBack? && Left(l, s, PrintOpen(t, k)) && Stops(k, ")&;")
    ensures Left(l, p, k) && Text(c, l) == Plain(t) && BacksTo(l, s, c, p)
    decreases t, 0
  {
    var d, q := BackReadBack(l, s, t.cmd, ['&'] + k);
    BackStep(l, q, d, k);
    c, p := Back(d), q + 1;
  }

  /** Whatever is printed for `parseline` is read back by it. */
  lemma {:induction false} LineReadBack(l: string, s: nat, t: Tree, k: string)
    requires NUL !in l && LegalTree(t) && Left(l, s, PrintLine(t, k)) && Stops(k, ")")
    ensures var r := ParseLine(l, s); r.Ok? && Left(l, r.pos, k) && Text(r.value, l) == Plain(t)
    decreases t, 5
  {
    if t.TPipe? || t.TBack? || t.TList? {
      OpenReadBack(l, s, t, k);
    } else {
      var c, p := BackReadBack(l, s, t, k);
      LineEnd(l, s, c, p, k);
    }
  }

  lemma {:induction false} OpenReadBack(l: string, s: nat, t: Tree, k: string)
    requires NUL !in l && LegalTree(t) && !t.TExec? && !t.TRedir? && Left(l, s, PrintOpen(t, k)) && Stops(k, ")")
    ensures var r := ParseLine(l, s); r.Ok? && Left(l, r.pos, k) && Text(r.value, l) == Plain(t)
    decreases t, 1
  {
    match t
    case TPipe(a, b) =>
      PipeOpenReadBack(l, s, t, k);
      LineEnd(l, s, ParsePipe(l, s).value, ParsePipe(l, s).pos, k);
    case TBack(d) =>
      var c, p := BackOpenReadBack(l, s, t, k);
      LineEnd(l, s, c, p, k);
    case TList(a, b) =>
      ListReadBack(l, s, t, k);
  }

  lemma {:induction false} ListReadBack(l: string, s: nat, t: Tree, k: string)
    requires NUL !in l && LegalTree(t) && t.TList? && Left(l, s, PrintOpen(t, k)) && Stops(k, ")")
    ensures var r := ParseLine(l, s); r.Ok? && Left(l, r.pos, k) && Text(r.value, l) == Plain(t)
    decreases t, 0
  {
    var c, p := BackReadBack(l, s, t.left, [';'] + PrintLine(t.right, k));
    var d, q := RightReadBack(l, p, t.right, k);
    ListStep(l, s, c, p, PrintLine(t.right, k), d, q);
  }

  /** What stands behind a ';'. */
  lemma {:induction false} RightReadBack(l: string, p: nat, t: Tree, k: string) returns (d: Cmd, q: nat)
    requires NUL !in l && LegalTree(t) && Left(l, p, [';'] + PrintLine(t, k)) && Stops(k, ")")
    ensures p < |l| && ParseLine(l, p + 1) == Ok(d, q) && Left(l, q, k) && Text(d, l) == Plain(t)
    ensures Tight(PrintLine(t, k))
    decreases t, 6
  {
    LeftAfter(l, p, [';'], PrintLine(t, k));
    LineReadBack(l, p + 1, t, k);
    PrintTight(t, k);
    d, q := ParseLine(l, p + 1).value, ParseLine(l, p + 1).pos;
  }

  /** Parsing undoes printing: every word, file, mode and descriptor comes back, for every choice of
      ">" and ">>". */
  lemma ParseUndoesPrint(t: Tree)
    requires LegalTree(t)
    ensures NUL !in PrintLine(t, "")
    ensures var r := ParseCmd(PrintLine(t, "")); r.Ok? && Text(r.value, PrintLine(t, "")) == Plain(t)
  {
    var l := PrintLine(t, "");
    NoNul(t, "");
    LineReadBack(l, 0, t, "");
    NoSkip(l, ParseLine(l, 0).pos, "");
  }

  lemma {:induction false} NoNulWords(ws: seq<string>, k: string)
    requires NUL !in k && forall i :: 0 <= i < |ws| ==> Legal(ws[i])
    ensures NUL !in PrintWords(ws, k)
  {
    if ws != [] { NoNulWords(ws[1..], k); }
  }

  lemma {:induction false} NoNulRedirs(rs: seq<RedirText>, k: string)
    requires NUL !in k && forall i :: 0 <= i < |rs| ==> LegalRedir(rs[i])
    ensures NUL !in PrintRedirs(rs, k)
  {
    if rs != [] { NoNulRedirs(rs[1..], k); }
  }

  lemma {:induction false} NoNul(t: Tree, k: string)
    requires LegalTree(t) && NUL !in k
    ensures NUL !in PrintExec(t, k) && NUL !in PrintOpen(t, k) && NUL !in PrintPipe(t, k) && NUL !in PrintBack(t, k)
    ensures NUL !in PrintLine(t, k)
    decreases t
  {
    LegalCore(t);
    var c, rs := Core(t), PrintRedirs(Redirs(t), k);
    NoNulRedirs(Redirs(t), k);
    if c.TExec? { NoNulWords(c.argv, rs); }
    else if t.TRedir? { NoNul(c, ")" + rs); }
    else { NoNulOpen(t, ")" + rs); }
    NoNulOpen(t, k);
  }

  lemma {:induction false} NoNulOpen(t: Tree, k: string)
    requires LegalTree(t) && NUL !in k
    ensures NUL !in PrintOpen(t, k)
    decreases t, 0
  {
    match t
    case TPipe(a, b) => NoNul(b, k); NoNul(a, "|" + PrintPipe(b, k));
    case TList(a, b) => NoNul(b, k); NoNul(a, ";" + PrintLine(b, k));
    case TBack(d) => NoNul(d, "&" + k);
    case _ =>
  }
}
