/** The shell's command parser (sh.c). Commands hold token ranges into the line, as the C structs
    hold pointers; the functions are the specification that the parsing methods are proved against. */
module ShellSyntax {
  const NUL: char := '\0'
  const MAXARGS: nat := 10
  const O_RDONLY: int := 0
  const O_WRONLY_CREATE: int := 0x201

  /** " \t\r\n\v" */
  predicate Blank(c: char) { c == ' ' || c == '\t' || c == '\r' || c == '\n' || c == '\U{000B}' }

  /** "<|>&;()" */
  predicate Symbol(c: char) { c == '<' || c == '|' || c == '>' || c == '&' || c == ';' || c == '(' || c == ')' }

  /** A token `q..eq` of the line. */
  datatype Range = Range(q: nat, eq: nat)

  datatype Redirection = Redirection(file: Range, mode: int, fd: int)

  datatype Cmd =
    | Exec(argv: seq<Range>)
    | Redir(cmd: Cmd, redirection: Redirection)
    | Pipe(left: Cmd, right: Cmd)
    | List(left: Cmd, right: Cmd)
    | Back(cmd: Cmd)

  /** The C string of the line, with its terminator. */
  function At(l: string, s: nat): char { if s < |l| then l[s] else NUL }

  /** The first position from s on that is not blank. */
  function Skip(l: string, s: nat): (r: nat)
    requires s <= |l|
    ensures s <= r <= |l| && (r < |l| ==> !Blank(l[r]))
    decreases |l| - s
  {
    if s < |l| && Blank(l[s]) then Skip(l, s + 1) else s
  }

  /** The end of the word that starts at s. */
  function WordEnd(l: string, s: nat): (r: nat)
    requires s <= |l|
    ensures s <= r <= |l| && (r < |l| ==> Blank(l[r]) || Symbol(l[r]))
    decreases |l| - s
  {
    if s < |l| && !Blank(l[s]) && !Symbol(l[s]) then WordEnd(l, s + 1) else s
  }

  /** A token: its kind ('a' for a word, '+' for ">>", NUL at the end), its range, and where the
      next one may start. */
  datatype Token = Token(kind: char, range: Range, next: nat)

  function TokenEnd(l: string, s: nat): (r: nat)
    requires s <= |l| && NUL !in l
    ensures s <= r <= |l| && (s < |l| && !Blank(l[s]) ==> s < r)
  {
    var c := At(l, s);
    if c == NUL then s
    else if c == '>' && At(l, s + 1) == '>' then s + 2
    else if Symbol(c) then s + 1
    else WordEnd(l, s)
  }

  function TokenKind(l: string, s: nat): char
    requires s <= |l|
  {
    var c := At(l, s);
    if c == NUL then NUL
    else if c == '>' && At(l, s + 1) == '>' then '+'
    else if Symbol(c) then c
    else 'a'
  }

  /** `gettoken` */
  function GetToken(l: string, s: nat): (t: Token)
    requires s <= |l| && NUL !in l
    ensures s <= t.range.q <= t.range.eq <= t.next <= |l|
  {
    var q := Skip(l, s);
    Token(TokenKind(l, q), Range(q, TokenEnd(l, q)), Skip(l, TokenEnd(l, q)))
  }

  /** `peek`: is the next character one of toks? */
  predicate Peek(l: string, s: nat, toks: string)
    requires s <= |l|
  {
    var c := At(l, Skip(l, s));
    c != NUL && c in toks
  }

  datatype Result<T> = Ok(value: T, pos: nat) | Panic

  predicate InBounds<T>(r: Result<T>, l: string, s: nat) { r.Ok? ==> s <= r.pos <= |l| }

  /** The redirection that a '<', '>' or ">>" token asks for. */
  function Redirect(kind: char, file: Range): Redirection {
    if kind == '<' then Redirection(file, O_RDONLY, 0) else Redirection(file, O_WRONLY_CREATE, 1)
  }

  /** `parseredirs`, collecting the redirections in order. */
  function ParseRedirs(l: string, s: nat, rs: seq<Redirection>): (r: Result<seq<Redirection>>)
    requires s <= |l| && NUL !in l
    ensures InBounds(r, l, s)
    decreases |l| - s
  {
    if Peek(l, s, "<>") then
      var t := GetToken(l, s);
      var f := GetToken(l, t.next);
      if f.kind != 'a' then Panic
      else ParseRedirs(l, f.next, rs + [Redirect(t.kind, f.range)])
    else Ok(rs, Skip(l, s))
  }

  /** A command with redirections around it, the first one innermost. */
  function Wrap(c: Cmd, rs: seq<Redirection>): Cmd {
    if rs == [] then c else Redir(Wrap(c, rs[..|rs| - 1]), rs[|rs| - 1])
  }

  /** The argument loop of `parseexec`. */
  function ParseArgs(l: string, s: nat, argv: seq<Range>, rs: seq<Redirection>): (r: Result<Cmd>)
    requires s <= |l| && NUL !in l
    ensures InBounds(r, l, s)
    decreases |l| - s
  {
    if Peek(l, s, "|)&;") then Ok(Wrap(Exec(argv), rs), Skip(l, s))
    else
      var t := GetToken(l, s);
      if t.kind == NUL then Ok(Wrap(Exec(argv), rs), t.next)
      else if t.kind != 'a' then Panic
      else if |argv| + 1 >= MAXARGS then Panic
      else
        var r := ParseRedirs(l, t.next, rs);
        if r.Panic? then Panic else ParseArgs(l, r.pos, argv + [t.range], r.value)
  }

  function ParseExec(l: string, s: nat): (r: Result<Cmd>)
    requires s <= |l| && NUL !in l
    ensures InBounds(r, l, s)
    decreases |l| - s, 1
  {
    if Peek(l, s, "(") then ParseBlock(l, s)
    else
      var r := ParseRedirs(l, Skip(l, s), []);
      if r.Panic? then Panic else ParseArgs(l, r.pos, [], r.value)
  }

  function ParseBlock(l: string, s: nat): (r: Result<Cmd>)
    requires s <= |l| && NUL !in l && Peek(l, s, "(")
    ensures InBounds(r, l, s)
    decreases |l| - s, 0
  {
    var t := GetToken(l, s);
    var c := ParseLine(l, t.next);
    if c.Panic? || !Peek(l, c.pos, ")") then Panic
    else
      var r := ParseRedirs(l, GetToken(l, c.pos).next, []);
      if r.Panic? then Panic else Ok(Wrap(c.value, r.value), r.pos)
  }

  function ParsePipe(l: string, s: nat): (r: Result<Cmd>)
    requires s <= |l| && NUL !in l
    ensures InBounds(r, l, s)
    decreases |l| - s, 2
  {
    var c := ParseExec(l, s);
    if c.Ok? && Peek(l, c.pos, "|") then
      var r := ParsePipe(l, GetToken(l, c.pos).next);
      if r.Panic? then Panic else Ok(Pipe(c.value, r.value), r.pos)
    else if c.Ok? then Ok(c.value, Skip(l, c.pos)) else Panic
  }

  /** The '&' loop of `parseline`. */
  function ParseBacks(l: string, s: nat, c: Cmd): (r: Result<Cmd>)
    requires s <= |l| && NUL !in l
    ensures r.Ok? && InBounds(r, l, s)
    decreases |l| - s
  {
    if Peek(l, s, "&") then ParseBacks(l, GetToken(l, s).next, Back(c)) else Ok(c, Skip(l, s))
  }

  function ParseLine(l: string, s: nat): (r: Result<Cmd>)
    requires s <= |l| && NUL !in l
    ensures InBounds(r, l, s)
    decreases |l| - s, 3
  {
    var c := ParsePipe(l, s);
    if c.Panic? then Panic
    else
      var b := ParseBacks(l, c.pos, c.value);
      if Peek(l, b.pos, ";") then
        var r := ParseLine(l, GetToken(l, b.pos).next);
        if r.Panic? then Panic else Ok(List(b.value, r.value), r.pos)
      else Ok(b.value, Skip(l, b.pos))
  }

  /** `parsecmd`, before `nulterminate`: the whole line must be used up. */
  function ParseCmd(l: string): Result<Cmd>
    requires NUL !in l
  {
    var c := ParseLine(l, 0);
    if c.Ok? && Skip(l, c.pos) == |l| then c else Panic
  }
}
