/** `fixcmd` (sh.c): the commands nearest to a mistyped one. */
module Suggest {
  import opened Common
  import opened EditDistance

  /** Each distance d[k] belongs to the candidate f[k], and no candidate stands twice. */
  ghost predicate Ranks(d: seq<int>, f: seq<int>, key: seq<int>) {
    && |d| == |f| == |key|
    && (forall k :: 0 <= k < |f| ==> 0 <= f[k] < |key| && d[k] == key[f[k]])
    && (forall a, b :: 0 <= a < b < |f| ==> f[a] != f[b])
  }

  /** Equal distances stand in the candidates' own order. */
  ghost predicate Stable(d: seq<int>, f: seq<int>)
    requires |d| == |f|
  {
    forall a, b :: 0 <= a < b < |d| && d[a] == d[b] ==> f[a] < f[b]
  }

  /** From m on the distances are in place. */
  ghost predicate Settled(d: seq<int>, m: int) {
    forall a, b :: 0 <= a < b < |d| && m <= b ==> d[a] <= d[b]
  }

  /** The largest of the first j + 1 distances stands last among them. */
  ghost predicate Bubble(d: seq<int>, j: int) {
    0 <= j < |d| ==> forall a :: 0 <= a <= j ==> d[a] <= d[j]
  }

  function Swapped(s: seq<int>, j: int): seq<int>
    requires 0 <= j < |s| - 1
  {
    s[j := s[j + 1]][j + 1 := s[j]]
  }

  lemma SwapKeeps(d: seq<int>, f: seq<int>, key: seq<int>, m: int, j: int)
    requires Ranks(d, f, key) && Stable(d, f) && Settled(d, m) && Bubble(d, j)
    requires 0 <= j < |d| - 1 && j + 1 < m && d[j] > d[j + 1]
    ensures Ranks(Swapped(d, j), Swapped(f, j), key) && Stable(Swapped(d, j), Swapped(f, j))
    ensures Settled(Swapped(d, j), m) && Bubble(Swapped(d, j), j + 1)
  {
  }

  lemma NoSwapKeeps(d: seq<int>, j: int)
    requires Bubble(d, j) && 0 <= j < |d| - 1 && d[j] <= d[j + 1]
    ensures Bubble(d, j + 1)
  {
  }

  lemma PassSettles(d: seq<int>, m: int)
    requires Settled(d, m) && 0 < m <= |d| && Bubble(d, m - 1)
    ensures Settled(d, m - 1)
  {
  }

  /** The two loops of `fixcmd` that order the candidates: by distance, and among equal
      distances as they were. */
  method Sort(dis: array<int>, flag: array<int>, ghost key: seq<int>)
    requires dis != flag && dis.Length == flag.Length
    requires Ranks(dis[..], flag[..], key) && Stable(dis[..], flag[..])
    modifies dis, flag
    ensures Ranks(dis[..], flag[..], key) && Stable(dis[..], flag[..]) && Settled(dis[..], 0)
  {
    var n := dis.Length;
    var i := 0;
    while i < n - 1
      invariant 0 <= i && (n > 0 ==> i < n)
      invariant Ranks(dis[..], flag[..], key) && Stable(dis[..], flag[..]) && Settled(dis[..], n - i)
    {
      Pass(dis, flag, key, n - i);
      i := i + 1;
    }
  }

  /** One pass over the first m candidates. */
  method Pass(dis: array<int>, flag: array<int>, ghost key: seq<int>, m: int)
    requires dis != flag && dis.Length == flag.Length && 0 < m <= dis.Length
    requires Ranks(dis[..], flag[..], key) && Stable(dis[..], flag[..]) && Settled(dis[..], m)
    modifies dis, flag
    ensures Ranks(dis[..], flag[..], key) && Stable(dis[..], flag[..]) && Settled(dis[..], m - 1)
  {
    var j := 0;
    while j < m - 1
      invariant 0 <= j < m
      invariant Ranks(dis[..], flag[..], key) && Stable(dis[..], flag[..])
      invariant Settled(dis[..], m) && Bubble(dis[..], j)
    {
      if dis[j] > dis[j + 1] {
        SwapKeeps(dis[..], flag[..], key, m, j);
        SwapBoth(dis, flag, j);
      } else {
        NoSwapKeeps(dis[..], j);
      }
      j := j + 1;
    }
    PassSettles(dis[..], m);
  }

  method SwapBoth(dis: array<int>, flag: array<int>, j: int)
    requires dis != flag && dis.Length == flag.Length && 0 <= j < dis.Length - 1
    modifies dis, flag
    ensures dis[..] == Swapped(old(dis[..]), j) && flag[..] == Swapped(old(flag[..]), j)
  {
    var k := dis[j];
    dis[j] := dis[j + 1];
    dis[j + 1] := k;
    k := flag[j];
    flag[j] := flag[j + 1];
    flag[j + 1] := k;
  }

  /** The test a candidate must pass to be shown. */
  predicate Near(word: string, candidate: string) {
    D(word, candidate) < |word| && D(word, candidate) < |candidate| + 1
  }

  /** The candidates by number, each once, in order of their distance from the word, ties in
      the order of the list. */
  ghost predicate Ordered(word: string, candidates: seq<string>, order: seq<int>) {
    && |order| == |candidates|
    && (forall k :: 0 <= k < |order| ==> 0 <= order[k] < |candidates|)
    && (forall a, b :: 0 <= a < b < |order| ==> Before(word, candidates, order[a], order[b]))
  }

  ghost predicate Before(word: string, candidates: seq<string>, x: int, y: int) {
    && 0 <= x < |candidates| && 0 <= y < |candidates|
    && (D(word, candidates[x]) < D(word, candidates[y]) || (D(word, candidates[x]) == D(word, candidates[y]) && x < y))
  }

  /** The longest run of near candidates from the start of the order. */
  ghost predicate Shows(word: string, candidates: seq<string>, order: seq<int>, shown: seq<string>)
    requires Ordered(word, candidates, order)
  {
    && |shown| <= |order|
    && (forall k :: 0 <= k < |shown| ==> shown[k] == candidates[order[k]] && Near(word, shown[k]))
    && (|shown| < |order| ==> !Near(word, candidates[order[|shown|]]))
  }

  /** Each candidate that is near comes before each that is not. */
  ghost predicate NearComeFirst(word: string, candidates: seq<string>) {
    forall x, y | 0 <= x < |candidates| && 0 <= y < |candidates| && Near(word, candidates[y]) ::
      Near(word, candidates[x]) || Before(word, candidates, y, x)
  }

  /** Each near candidate is among those shown. */
  ghost predicate NearAreShown(word: string, candidates: seq<string>, order: seq<int>, n: nat)
    requires n <= |order|
  {
    forall y :: 0 <= y < |candidates| && Near(word, candidates[y]) ==> y in order[..n]
  }

  /** The list stops at the first candidate that is not near, so it holds all near candidates
      exactly when each of them comes, by distance and then by place in the list, before each
      that is not near. */
  lemma ShowsAllNear(word: string, candidates: seq<string>, order: seq<int>, shown: seq<string>)
    requires Ordered(word, candidates, order) && Shows(word, candidates, order, shown)
    ensures NearAreShown(word, candidates, order, |shown|) <==> NearComeFirst(word, candidates)
  {
    if NearComeFirst(word, candidates) {
      forall y | 0 <= y < |candidates| && Near(word, candidates[y]) ensures y in order[..|shown|] {
        FirstAreShown(word, candidates, order, shown, y);
      }
    }
    if NearAreShown(word, candidates, order, |shown|) {
      forall x, y | 0 <= x < |candidates| && 0 <= y < |candidates| && Near(word, candidates[y]) &&
        !Near(word, candidates[x])
        ensures Before(word, candidates, y, x)
      {
        ShownComeFirst(word, candidates, order, shown, x, y);
      }
    }
  }

  /** Where candidate y stands in the order. */
  lemma PlaceOf(word: string, candidates: seq<string>, order: seq<int>, y: int) returns (k: nat)
    requires Ordered(word, candidates, order) && 0 <= y < |candidates|
    ensures k < |order| && order[k] == y
  {
    forall a, b | 0 <= a < b < |order|
      ensures order[a] != order[b]
    {
      assert Before(word, candidates, order[a], order[b]);
    }
    OrderCovers(order, |order|, y);
    k :| 0 <= k < |order| && order[k] == y;
  }

  lemma FirstAreShown(word: string, candidates: seq<string>, order: seq<int>, shown: seq<string>, y: int)
    requires Ordered(word, candidates, order) && Shows(word, candidates, order, shown)
    requires NearComeFirst(word, candidates)
    requires 0 <= y < |candidates| && Near(word, candidates[y])
    ensures y in order[..|shown|]
  {
    var k := PlaceOf(word, candidates, order, y);
    var n := |shown|;
    if n < |order| {
      assert Before(word, candidates, y, order[n]);
      assert forall a :: n < a < |order| ==> Before(word, candidates, order[n], order[a]);
    }
    assert k < n;
    assert order[..n][k] == y;
  }

  lemma ShownComeFirst(word: string, candidates: seq<string>, order: seq<int>, shown: seq<string>, x: int, y: int)
    requires Ordered(word, candidates, order) && Shows(word, candidates, order, shown)
    requires 0 <= x < |candidates| && 0 <= y < |candidates| && !Near(word, candidates[x]) && y in order[..|shown|]
    ensures Before(word, candidates, y, x)
  {
    var n := |shown|;
    var j :| 0 <= j < n && order[..n][j] == y;
    var k := PlaceOf(word, candidates, order, x);
    assert forall a :: 0 <= a < n ==> Near(word, candidates[order[a]]);
    assert n <= k;
  }

  /** A near command can be missed: one too short for its distance, at the same distance and
      earlier in the list, stops it. */
  lemma NearCommandMissed(order: seq<int>, shown: seq<string>)
    requires Ordered("abc", ["a", "axy"], order) && Shows("abc", ["a", "axy"], order, shown)
    ensures Near("abc", "axy") && shown == []
  {
    DistancesHere();
    Stopped("abc", "a", "axy", order, shown);
  }

  lemma Stopped(word: string, c: string, e: string, order: seq<int>, shown: seq<string>)
    requires Ordered(word, [c, e], order) && Shows(word, [c, e], order, shown)
    requires D(word, c) == D(word, e) && !Near(word, c)
    ensures shown == []
  {
    assert Before(word, [c, e], order[0], order[1]);
    assert order[0] == 0;
  }

  lemma DistancesHere()
    ensures D("abc", "a") == D("abc", "axy") == 2
  {
    Inits();
    FromEmpty();
    assert D("a", "a") == 0 && D("ab", "a") == 1 && D("abc", "a") == 2;
    assert D("a", "ax") == 1 && D("a", "axy") == 2;
    assert D("ab", "ax") == 1 && D("ab", "axy") == 2 && D("abc", "ax") == 2;
  }

  lemma Inits()
    ensures Init("abc") == "ab" && Init("ab") == "a" && Init("a") == ""
    ensures Init("axy") == "ax" && Init("ax") == "a"
  {
  }

  lemma FromEmpty()
    ensures D("a", "") == 1 && D("ab", "") == 2 && D("", "a") == 1 && D("", "ax") == 2 && D("", "axy") == 3
  {
  }

  ghost function Distances(word: string, candidates: seq<string>): (r: seq<int>)
    ensures |r| == |candidates|
  {
    seq(|candidates|, i requires 0 <= i < |candidates| => D(word, candidates[i]))
  }

  lemma FilledIsRanked(d: seq<int>, f: seq<int>, key: seq<int>)
    requires d == key && |f| == |key| && forall k :: 0 <= k < |f| ==> f[k] == k
    ensures Ranks(d, f, key) && Stable(d, f)
  {
  }

  /** The two filling loops. */
  method Measure(word: string, candidates: seq<string>) returns (dis: array<int>, flag: array<int>)
    ensures fresh(dis) && fresh(flag) && dis != flag && dis.Length == flag.Length
    ensures Ranks(dis[..], flag[..], Distances(word, candidates)) && Stable(dis[..], flag[..])
  {
    var n := |candidates|;
    flag, dis := new int[n], new int[n];
    var i := 0;
    while i < n
      invariant 0 <= i <= n && forall k :: 0 <= k < i ==> flag[k] == k
    {
      flag[i] := i;
      i := i + 1;
    }
    i := 0;
    while i < n
      invariant 0 <= i <= n && dis[..i] == Distances(word, candidates)[..i]
      modifies dis
    {
      dis[i] := StringDistance(word, candidates[i]);
      i := i + 1;
    }
    FilledIsRanked(dis[..], flag[..], Distances(word, candidates));
  }

  lemma SortedIsOrdered(word: string, candidates: seq<string>, d: seq<int>, f: seq<int>)
    requires Ranks(d, f, Distances(word, candidates)) && Stable(d, f) && Settled(d, 0)
    ensures Ordered(word, candidates, f)
    ensures forall k :: 0 <= k < |f| ==> d[k] == D(word, candidates[f[k]])
  {
    var key := Distances(word, candidates);
    forall k | 0 <= k < |f| ensures d[k] == D(word, candidates[f[k]]) { assert d[k] == key[f[k]]; }
    forall a, b | 0 <= a < b < |f| ensures Before(word, candidates, f[a], f[b]) {
      assert d[a] <= d[b];
    }
  }

  /** `fixcmd`: what is printed, and the order it was taken from. */
  method FixCmd(word: string, candidates: seq<string>) returns (shown: seq<string>, order: seq<int>)
    ensures Ordered(word, candidates, order) && Shows(word, candidates, order, shown)
    ensures NearAreShown(word, candidates, order, |shown|) <==> NearComeFirst(word, candidates)
  {
    var dis, flag := Measure(word, candidates);
    Sort(dis, flag, Distances(word, candidates));
    SortedIsOrdered(word, candidates, dis[..], flag[..]);
    order := flag[..];
    shown := [];
    var i := 0;
    while i < |candidates|
      invariant 0 <= i <= |candidates| && |shown| == i
      invariant forall k :: 0 <= k < i ==> shown[k] == candidates[order[k]] && Near(word, shown[k])
    {
      if dis[i] >= |word| || dis[i] >= |candidates[flag[i]]| + 1 {
        break;
      }
      shown := shown + [candidates[flag[i]]];
      i := i + 1;
    }
    ShowsAllNear(word, candidates, order, shown);
  }
}
