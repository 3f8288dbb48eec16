/** The pattern matcher of grep.c. A C string is modelled by its characters before the NUL. */
module Grep {
  /** One place of a pattern: a character or `.` once, or any number of times. */
  datatype Item = One(c: char) | Star(c: char)

  /** A pattern: its items, and whether it ends in the `$` that stands for the end of the text. */
  datatype Pattern = Pattern(items: seq<Item>, toEnd: bool)

  function Parse(re: string): Pattern {
    if re == "" then Pattern([], false)
    else if |re| >= 2 && re[1] == '*' then
      var p := Parse(re[2..]);
      Pattern([Star(re[0])] + p.items, p.toEnd)
    else if re == "$" then Pattern([], true)
    else
      var p := Parse(re[1..]);
      Pattern([One(re[0])] + p.items, p.toEnd)
  }

  /** A pattern written out. */
  function Show(p: Pattern): string
    decreases |p.items|
  {
    if p.items == [] then (if p.toEnd then "$" else "")
    else
      var rest := Show(Pattern(p.items[1..], p.toEnd));
      if p.items[0].Star? then [p.items[0].c, '*'] + rest else [p.items[0].c] + rest
  }

  /** No character is followed by a `*` that it does not own, and a `$` at the end is the anchor. */
  predicate Writable(p: Pattern)
    decreases |p.items|
  {
    if p.items == [] then true
    else
      var q := Pattern(p.items[1..], p.toEnd);
      && Writable(q)
      && (p.items[0].One? ==> (Show(q) == "" ==> p.items[0].c != '$') && (Show(q) != "" ==> Show(q)[0] != '*'))
  }

  /** Every pattern text is the writing of what it is read as ... */
  lemma {:induction false} ShowUndoesParse(re: string)
    ensures Show(Parse(re)) == re && Writable(Parse(re))
    decreases |re|
  {
    if re == "" || re == "$" {
    } else if |re| >= 2 && re[1] == '*' {
      ShowUndoesParse(re[2..]);
      assert Parse(re).items[1..] == Parse(re[2..]).items;
      assert re == [re[0], '*'] + re[2..];
    } else {
      ShowUndoesParse(re[1..]);
      assert Parse(re).items[1..] == Parse(re[1..]).items;
      assert re == [re[0]] + re[1..];
    }
  }

  /** ... and every pattern that can be written is read back. */
  lemma {:induction false} ParseUndoesShow(p: Pattern)
    requires Writable(p)
    ensures Parse(Show(p)) == p
    decreases |p.items|
  {
    if p.items != [] {
      var q := Pattern(p.items[1..], p.toEnd);
      ParseUndoesShow(q);
      assert [p.items[0]] + q.items == p.items;
      var n := if p.items[0].Star? then 2 else 1;
      assert Show(p)[n..] == Show(q);
    }
  }

  predicate Fits(c: char, x: char) { c == '.' || c == x }

  /** The words of one item. */
  predicate Spells(item: Item, w: string) {
    (item.One? ==> |w| == 1) && forall i :: 0 <= i < |w| ==> Fits(item.c, w[i])
  }

  function Join(pieces: seq<string>): string {
    if pieces == [] then "" else pieces[0] + Join(pieces[1..])
  }

  ghost predicate Cut(pieces: seq<string>, items: seq<Item>, w: string) {
    && |pieces| == |items| && Join(pieces) == w
    && forall i :: 0 <= i < |items| ==> Spells(items[i], pieces[i])
  }

  /** The language of a sequence of items: the joins of one word of each. */
  ghost predicate Member(items: seq<Item>, w: string) { exists pieces :: Cut(pieces, items, w) }

  /** A word of the pattern lies at the start of the text, and reaches its end if it must. */
  ghost predicate Starts(p: Pattern, text: string) {
    exists k :: 0 <= k <= |text| && Reaches(p, text, k)
  }

  ghost predicate Reaches(p: Pattern, text: string, k: int)
    requires 0 <= k <= |text|
  {
    (p.toEnd ==> k == |text|) && Member(p.items, text[..k])
  }

  /** The meaning of a whole pattern: a leading `^` allows only the start of the text. */
  ghost predicate Found(re: string, text: string) {
    if re != "" && re[0] == '^' then Starts(Parse(re[1..]), text)
    else exists s :: 0 <= s <= |text| && Starts(Parse(re), text[s..])
  }

  lemma MemberCons(item: Item, items: seq<Item>, w: string, n: int)
    requires 0 <= n <= |w| && Spells(item, w[..n]) && Member(items, w[n..])
    ensures Member([item] + items, w)
  {
    var pieces :| Cut(pieces, items, w[n..]);
    assert ([w[..n]] + pieces)[1..] == pieces && w[..n] + w[n..] == w;
    assert Cut([w[..n]] + pieces, [item] + items, w);
  }

  lemma MemberUncons(item: Item, items: seq<Item>, w: string) returns (n: int)
    requires Member([item] + items, w)
    ensures 0 <= n <= |w| && Spells(item, w[..n]) && Member(items, w[n..])
  {
    var pieces :| Cut(pieces, [item] + items, w);
    n := |pieces[0]|;
    assert w[..n] == pieces[0] && w[n..] == Join(pieces[1..]);
    forall i | 0 <= i < |items| ensures Spells(items[i], pieces[1..][i]) {
      assert ([item] + items)[i + 1] == items[i];
    }
    assert Cut(pieces[1..], items, w[n..]);
  }

  lemma StartsNil(text: string)
    ensures Starts(Pattern([], false), text)
    ensures Starts(Pattern([], true), text) <==> text == ""
  {
    assert Cut([], [], text[..0]);
    assert Reaches(Pattern([], false), text, 0);
    if Starts(Pattern([], true), text) {
      var pieces :| Cut(pieces, [], text[..|text|]);
    }
    if text == "" { assert Reaches(Pattern([], true), text, 0); }
  }

  /** A pattern whose first item takes the first n characters. */
  lemma StartsCons(item: Item, p: Pattern, text: string, n: int)
    requires 0 <= n <= |text| && Spells(item, text[..n]) && Starts(p, text[n..])
    ensures Starts(Pattern([item] + p.items, p.toEnd), text)
  {
    var k :| 0 <= k <= |text[n..]| && Reaches(p, text[n..], k);
    var w := text[..n + k];
    assert w[..n] == text[..n] && w[n..] == text[n..][..k];
    MemberCons(item, p.items, w, n);
    assert Reaches(Pattern([item] + p.items, p.toEnd), text, n + k);
  }

  lemma StartsUncons(item: Item, p: Pattern, text: string) returns (n: int)
    requires Starts(Pattern([item] + p.items, p.toEnd), text)
    ensures 0 <= n <= |text| && Spells(item, text[..n]) && Starts(p, text[n..])
  {
    var k :| 0 <= k <= |text| && Reaches(Pattern([item] + p.items, p.toEnd), text, k);
    n := MemberUncons(item, p.items, text[..k]);
    assert text[..k][..n] == text[..n] && text[..k][n..] == text[n..][..k - n];
    assert Reaches(p, text[n..], k - n);
  }

  /** No number of repetitions up to i works, and more than i are not possible. */
  lemma StarFails(c: char, p: Pattern, text: string, i: int)
    requires 0 <= i <= |text| && (i < |text| ==> !Fits(c, text[i]))
    requires forall n :: 0 <= n <= i ==> !Starts(p, text[n..])
    ensures !Starts(Pattern([Star(c)] + p.items, p.toEnd), text)
  {
    forall n | i < n <= |text| ensures !Spells(Star(c), text[..n]) {
      assert !Fits(c, text[..n][i]);
    }
    if Starts(Pattern([Star(c)] + p.items, p.toEnd), text) {
      var n := StartsUncons(Star(c), p, text);
      assert false;
    }
  }

  /** `matchhere` */
  method MatchHere(re: string, text: string) returns (r: bool)
    ensures r <==> Starts(Parse(re), text)
    decreases |re|, |text|, 0
  {
    StartsNil(text);
    if re == "" {
      return true;
    }
    if |re| >= 2 && re[1] == '*' {
      r := MatchStar(re[0], re[2..], text);
      return;
    }
    if re == "$" {
      return text == "";
    }
    ghost var p := Parse(re[1..]);
    if Starts(Parse(re), text) { ghost var n := StartsUncons(One(re[0]), p, text); assert n == 1; }
    if text != "" && (re[0] == '.' || re[0] == text[0]) {
      r := MatchHere(re[1..], text[1..]);
      if r { StartsCons(One(re[0]), p, text, 1); }
      return;
    }
    return false;
  }

  /** `matchstar` */
  method MatchStar(c: char, re: string, text: string) returns (r: bool)
    ensures r <==> Starts(Pattern([Star(c)] + Parse(re).items, Parse(re).toEnd), text)
    decreases |re|, |text|, 1
  {
    ghost var p := Parse(re);
    var i := 0;
    while true
      invariant 0 <= i <= |text| && forall j :: 0 <= j < i ==> Fits(c, text[j])
      invariant forall n :: 0 <= n < i ==> !Starts(p, text[n..])
      decreases |text| - i
    {
      var here := MatchHere(re, text[i..]);
      if here {
        StartsCons(Star(c), p, text, i);
        return true;
      }
      if i == |text| || !(text[i] == c || c == '.') {
        break;
      }
      i := i + 1;
    }
    StarFails(c, p, text, i);
    return false;
  }

  /** `match` */
  method Match(re: string, text: string) returns (r: bool)
    ensures r <==> Found(re, text)
  {
    if re != "" && re[0] == '^' {
      r := MatchHere(re[1..], text);
      return;
    }
    var s := 0;
    while true
      invariant 0 <= s <= |text| && forall n :: 0 <= n < s ==> !Starts(Parse(re), text[n..])
      decreases |text| - s
    {
      var here := MatchHere(re, text[s..]);
      if here {
        return true;
      }
      if s == |text| {
        break;
      }
      s := s + 1;
    }
    return false;
  }
}
