/** The shell's suggestions (sh.c): the edit distance of two words, and a sort of the candidates
    by distance that keeps each distance with its candidate. */
module EditDistance {
  function Init(s: string): string
    requires s != ""
  {
    s[..|s| - 1]
  }

  function Last(s: string): char
    requires s != ""
  {
    s[|s| - 1]
  }

  function Min3(x: int, y: int, z: int): (m: int)
    ensures m <= x && m <= y && m <= z && (m == x || m == y || m == z)
  {
    if x <= y && x <= z then x else if y <= x && y <= z then y else z
  }

  /** The recurrence that `stringdistance` tabulates. */
  function D(s: string, t: string): nat
    decreases |s| + |t|
  {
    if s == "" then |t|
    else if t == "" then |s|
    else if Last(s) == Last(t) then D(Init(s), Init(t))
    else Min3(D(s, Init(t)), D(Init(s), t), D(Init(s), Init(t))) + 1
  }

  /** A change of one character anywhere in a string. */
  datatype Edit = Insert(pos: nat, c: char) | Delete(pos: nat) | Replace(pos: nat, c: char)

  predicate Fits(e: Edit, s: string) { if e.Insert? then e.pos <= |s| else e.pos < |s| }

  function Apply(e: Edit, s: string): string
    requires Fits(e, s)
  {
    match e
    case Insert(p, c) => s[..p] + [c] + s[p..]
    case Delete(p) => s[..p] + s[p + 1..]
    case Replace(p, c) => s[..p] + [c] + s[p + 1..]
  }

  /** The script turns s into t. */
  ghost predicate Turns(script: seq<Edit>, s: string, t: string)
    decreases |script|
  {
    if script == [] then s == t
    else Fits(script[0], s) && Turns(script[1..], Apply(script[0], s), t)
  }

  lemma {:induction false} Symmetric(s: string, t: string)
    ensures D(s, t) == D(t, s)
    decreases |s| + |t|
  {
    if s != "" && t != "" {
      Symmetric(Init(s), Init(t));
      Symmetric(s, Init(t));
      Symmetric(Init(s), t);
    }
  }

  /** One more character at the end changes the distance by at most one, either way. */
  lemma {:induction false} OneMore(s: string, t: string)
    requires s != ""
    ensures D(s, t) <= D(Init(s), t) + 1 && D(Init(s), t) <= D(s, t) + 1
    decreases |s| + |t|, 0
  {
    if t != "" {
      OneMoreRight(Init(s), t);
      OneMore(s, Init(t));
    }
  }

  lemma {:induction false} OneMoreRight(s: string, t: string)
    requires t != ""
    ensures D(s, t) <= D(s, Init(t)) + 1 && D(s, Init(t)) <= D(s, t) + 1
    decreases |s| + |t|, 1
  {
    Symmetric(s, t);
    Symmetric(s, Init(t));
    OneMore(t, s);
  }

  /** Another last character changes the distance by at most one. */
  lemma {:induction false} OtherLast(p: string, a: char, b: char, t: string)
    ensures D(p + [a], t) <= D(p + [b], t) + 1
    decreases |t|
  {
    assert Init(p + [a]) == p && Init(p + [b]) == p;
    if t != "" {
      OneMoreRight(p, t);
      OneMore(p + [b], Init(t));
      OtherLast(p, a, b, Init(t));
    }
  }

  /** Strings p + x + q and p + y + q that differ in at most one character at one place. */
  lemma {:induction false} OneEditApart(p: string, x: string, y: string, q: string, t: string)
    requires |x| <= 1 && |y| <= 1
    ensures D(p + x + q, t) <= D(p + y + q, t) + 1
    decreases |q| + |t|
  {
    var s, s' := p + x + q, p + y + q;
    if q == "" {
      assert s == p + x && s' == p + y;
      LastApart(p, x, y, t);
    } else if t != "" {
      assert Init(s) == p + x + Init(q) && Init(s') == p + y + Init(q);
      OneEditApart(p, x, y, Init(q), Init(t));
      if Last(q) != Last(t) {
        OneEditApart(p, x, y, q, Init(t));
        OneEditApart(p, x, y, Init(q), t);
      }
    }
  }

  lemma LastApart(p: string, x: string, y: string, t: string)
    requires |x| <= 1 && |y| <= 1
    ensures D(p + x, t) <= D(p + y, t) + 1
  {
    if |x| == 1 && |y| == 1 {
      OtherLast(p, x[0], y[0], t);
      assert p + x == p + [x[0]] && p + y == p + [y[0]];
    } else if |x| == 1 {
      assert Init(p + x) == p == p + y;
      OneMore(p + x, t);
    } else if |y| == 1 {
      assert Init(p + y) == p == p + x;
      OneMore(p + y, t);
    } else {
      assert p + x == p + y;
    }
  }

  /** One edit anywhere brings a string at most one step closer to t. */
  lemma EditStep(e: Edit, s: string, t: string)
    requires Fits(e, s)
    ensures D(s, t) <= D(Apply(e, s), t) + 1
  {
    match e
    case Insert(p, c) =>
      OneEditApart(s[..p], "", [c], s[p..], t);
      assert s[..p] + "" + s[p..] == s;
    case Delete(p) =>
      OneEditApart(s[..p], [s[p]], "", s[p + 1..], t);
      assert s[..p] + [s[p]] + s[p + 1..] == s && s[..p] + "" + s[p + 1..] == Apply(e, s);
    case Replace(p, c) =>
      OneEditApart(s[..p], [s[p]], [c], s[p + 1..], t);
      assert s[..p] + [s[p]] + s[p + 1..] == s;
  }

  lemma {:induction false} NoDistance(s: string)
    ensures D(s, s) == 0
  {
    if s != "" { NoDistance(Init(s)); }
  }

  /** No script is shorter than the distance. */
  lemma {:induction false} LowerBound(script: seq<Edit>, s: string, t: string)
    requires Turns(script, s, t)
    ensures D(s, t) <= |script|
    decreases |script|
  {
    if script == [] {
      NoDistance(s);
    } else {
      EditStep(script[0], s, t);
      LowerBound(script[1..], Apply(script[0], s), t);
    }
  }

  /** A script that turns s into t also turns s + c into t + c. */
  lemma {:induction false} Extend(script: seq<Edit>, s: string, t: string, c: char)
    requires Turns(script, s, t)
    ensures Turns(script, s + [c], t + [c])
    decreases |script|
  {
    if script != [] {
      assert Apply(script[0], s + [c]) == Apply(script[0], s) + [c];
      Extend(script[1..], Apply(script[0], s), t, c);
    }
  }

  lemma {:induction false} Snoc(script: seq<Edit>, s: string, t: string, e: Edit)
    requires Turns(script, s, t) && Fits(e, t)
    ensures Turns(script + [e], s, Apply(e, t))
    decreases |script|
  {
    if script == [] {
      assert script + [e] == [e] && [e][1..] == [];
    } else {
      Snoc(script[1..], Apply(script[0], s), t, e);
      assert (script + [e])[1..] == script[1..] + [e];
    }
  }

  /** A script to t without its last character, and then that character. */
  lemma ThenInsert(script: seq<Edit>, s: string, t: string) returns (longer: seq<Edit>)
    requires t != "" && Turns(script, s, Init(t))
    ensures |longer| == |script| + 1 && Turns(longer, s, t)
  {
    var e := Insert(|t| - 1, Last(t));
    Snoc(script, s, Init(t), e);
    assert Apply(e, Init(t)) == t;
    longer := script + [e];
  }

  /** A script for s without its last character, and then the removal of that character. */
  lemma ThenDelete(script: seq<Edit>, s: string, t: string) returns (longer: seq<Edit>)
    requires s != "" && Turns(script, Init(s), t)
    ensures |longer| == |script| + 1 && Turns(longer, s, t)
  {
    var e, u := Delete(|t|), t + [Last(s)];
    Extend(script, Init(s), t, Last(s));
    assert Init(s) + [Last(s)] == s;
    Snoc(script, s, u, e);
    assert Apply(e, u) == t;
    longer := script + [e];
  }

  /** A script for both without their last characters, and then an exchange of those. */
  lemma ThenReplace(script: seq<Edit>, s: string, t: string) returns (longer: seq<Edit>)
    requires s != "" && t != "" && Turns(script, Init(s), Init(t))
    ensures |longer| == |script| + 1 && Turns(longer, s, t)
    ensures Last(s) == Last(t) ==> Turns(script, s, t)
  {
    var e, u := Replace(|t| - 1, Last(t)), Init(t) + [Last(s)];
    Extend(script, Init(s), Init(t), Last(s));
    assert Init(s) + [Last(s)] == s && Init(t) + [Last(t)] == t;
    Snoc(script, s, u, e);
    assert Apply(e, u) == t;
    longer := script + [e];
  }

  /** Some script has exactly the length of the distance. */
  lemma {:induction false} Attained(s: string, t: string) returns (script: seq<Edit>)
    ensures |script| == D(s, t) && Turns(script, s, t)
    decreases |s| + |t|
  {
    if s == "" && t == "" {
      script := [];
    } else if s == "" || (t != "" && Last(s) != Last(t) && D(s, t) == D(s, Init(t)) + 1) {
      script := Attained(s, Init(t));
      script := ThenInsert(script, s, t);
    } else if t == "" || (Last(s) != Last(t) && D(s, t) == D(Init(s), t) + 1) {
      script := Attained(Init(s), t);
      script := ThenDelete(script, s, t);
    } else {
      script := Attained(Init(s), Init(t));
      var longer := ThenReplace(script, s, t);
      script := if Last(s) == Last(t) then script else longer;
    }
  }

  /** `threeintmin` */
  function ThreeIntMin(x1: int, x2: int, x3: int): int {
    if x1 <= x2 && x1 <= x3 then x1 else if x2 <= x1 && x2 <= x3 then x2 else x3
  }

  /** What the table holds for the first i and the first j characters. */
  ghost function Cell(s1: string, s2: string, i: int, j: int): nat
    requires 0 <= i <= |s1| && 0 <= j <= |s2|
  {
    D(s1[..i], s2[..j])
  }

  lemma CellStep(s1: string, s2: string, i: int, j: int)
    requires 0 <= i <= |s1| && 0 <= j <= |s2|
    ensures i == 0 ==> Cell(s1, s2, i, j) == j
    ensures j == 0 ==> Cell(s1, s2, i, j) == i
    ensures i > 0 && j > 0 && s1[i - 1] == s2[j - 1] ==> Cell(s1, s2, i, j) == Cell(s1, s2, i - 1, j - 1)
    ensures i > 0 && j > 0 && s1[i - 1] != s2[j - 1] ==>
      Cell(s1, s2, i, j) == ThreeIntMin(Cell(s1, s2, i, j - 1), Cell(s1, s2, i - 1, j), Cell(s1, s2, i - 1, j - 1)) + 1
  {
    if i > 0 && j > 0 {
      assert Init(s1[..i]) == s1[..i - 1] && Init(s2[..j]) == s2[..j - 1];
    }
  }

  ghost predicate RowDone(s1: string, s2: string, dp: array2<int>, i: int, j: int)
    requires 0 <= i <= |s1| && 0 <= j <= |s2| + 1
    requires dp.Length0 == |s1| + 1 && dp.Length1 == |s2| + 1
    reads dp
  {
    forall b :: 0 <= b < j ==> dp[i, b] == Cell(s1, s2, i, b)
  }

  /** The first column and the first row. */
  method FillEdges(s1: string, s2: string, dp: array2<int>)
    requires dp.Length0 == |s1| + 1 && dp.Length1 == |s2| + 1
    modifies dp
    ensures forall a :: 0 <= a <= |s1| ==> dp[a, 0] == a
    ensures RowDone(s1, s2, dp, 0, |s2| + 1)
  {
    var i := 0;
    while i <= |s1|
      invariant 0 <= i <= |s1| + 1
      invariant forall a :: 0 <= a < i ==> dp[a, 0] == a
    {
      dp[i, 0] := i;
      i := i + 1;
    }
    i := 0;
    while i <= |s2|
      invariant 0 <= i <= |s2| + 1
      invariant forall a :: 0 <= a <= |s1| ==> dp[a, 0] == a
      invariant forall b :: 0 <= b < i ==> dp[0, b] == b
    {
      dp[0, i] := i;
      i := i + 1;
    }
    dp[0, 0] := 0;
    forall b | 0 <= b <= |s2| ensures Cell(s1, s2, 0, b) == b { CellStep(s1, s2, 0, b); }
  }

  /** The inner loop: row i from row i - 1. */
  method FillRow(s1: string, s2: string, dp: array2<int>, i: int)
    requires dp.Length0 == |s1| + 1 && dp.Length1 == |s2| + 1
    requires 1 <= i <= |s1| && RowDone(s1, s2, dp, i - 1, |s2| + 1) && dp[i, 0] == i
    modifies dp
    ensures RowDone(s1, s2, dp, i, |s2| + 1)
    ensures forall a :: 0 <= a <= |s1| && a != i ==> dp[a, 0] == old(dp[a, 0])
  {
    CellStep(s1, s2, i, 0);
    var j := 1;
    while j <= |s2|
      invariant 1 <= j <= |s2| + 1
      invariant RowDone(s1, s2, dp, i - 1, |s2| + 1) && RowDone(s1, s2, dp, i, j)
      invariant forall a :: 0 <= a <= |s1| && a != i ==> dp[a, 0] == old(dp[a, 0])
    {
      CellStep(s1, s2, i, j);
      if s1[i - 1] == s2[j - 1] {
        dp[i, j] := dp[i - 1, j - 1];
      } else {
        dp[i, j] := ThreeIntMin(dp[i, j - 1], dp[i - 1, j], dp[i - 1, j - 1]) + 1;
      }
      j := j + 1;
    }
  }

  /** `stringdistance`: the length of the shortest script from s1 to s2. */
  method StringDistance(s1: string, s2: string) returns (ans: int)
    ensures ans == D(s1, s2)
    ensures exists script :: Turns(script, s1, s2) && |script| == ans
    ensures forall script :: Turns(script, s1, s2) ==> ans <= |script|
  {
    var dp := new int[|s1| + 1, |s2| + 1];
    FillEdges(s1, s2, dp);
    var i := 1;
    while i <= |s1|
      invariant 1 <= i <= |s1| + 1 && RowDone(s1, s2, dp, i - 1, |s2| + 1)
      invariant forall a :: i <= a <= |s1| ==> dp[a, 0] == a
    {
      FillRow(s1, s2, dp, i);
      i := i + 1;
    }
    ans := dp[|s1|, |s2|];
    assert ans == Cell(s1, s2, |s1|, |s2|);
    assert s1[..|s1|] == s1 && s2[..|s2|] == s2;
    ghost var script := Attained(s1, s2);
    forall other | Turns(other, s1, s2) ensures ans <= |other| { LowerBound(other, s1, s2); }
  }
}
