/** An optional value, and facts about finite sets and sequences that several modules use. */
module Common {
  datatype Option<+T> = None | Some(value: T)

  ghost predicate Distinct(s: seq<int>) {
    forall i, j :: 0 <= i < j < |s| ==> s[i] != s[j]
  }

  /** The numbers below n. */
  ghost function Below(n: nat): (s: set<int>)
    ensures |s| == n && forall k :: k in s <==> 0 <= k < n
  {
    if n == 0 then {} else Below(n - 1) + {n - 1}
  }

  lemma SubsetSize<T>(a: set<T>, b: set<T>)
    requires a <= b
    ensures |a| <= |b|
  {
    assert b == a + (b - a);
  }

  /** The first n members of a list without repetition. */
  lemma {:induction false} DistinctSize(s: seq<int>, n: nat)
    requires n <= |s| && Distinct(s)
    ensures |set k | 0 <= k < n :: s[k]| == n
  {
    if n > 0 {
      DistinctSize(s, n - 1);
      assert (set k | 0 <= k < n :: s[k]) == (set k | 0 <= k < n - 1 :: s[k]) + {s[n - 1]};
    }
  }

  /** A list of n distinct numbers below n mentions each of them. */
  lemma OrderCovers(s: seq<int>, n: nat, b: int)
    requires |s| == n && Distinct(s) && 0 <= b < n
    requires forall k :: 0 <= k < n ==> 0 <= s[k] < n
    ensures b in s
  {
    if b !in s {
      DistinctSize(s, n);
      SubsetSize(set k | 0 <= k < n :: s[k], Below(n) - {b});
    }
  }
}

/** The states of a process (proc.h). */
module ProcStates {
  datatype ProcState = Unused | Embryo | Sleeping | Runnable | Running | Zombie
}
