/** Directories and link counts (fs.c, sysfile.c) as values: the inodes with what a directory
    holds, slot by slot. */
module DirSpec {
  const DIRSIZ := 14
  const ROOT := 1

  /** A C string, and one that fits in a directory entry. */
  type CString = s: string | '\0' !in s
  type Stored = s: string | '\0' !in s && |s| <= DIRSIZ

  datatype Dirent = Dirent(inum: int, name: Stored)

  const EMPTY := Dirent(0, "")

  datatype Kind = T_DIR | T_FILE | T_DEV

  /** An inode; only a directory has entries. */
  datatype Node = Unused | Node(kind: Kind, nlink: int, entries: seq<Dirent>)

  /** What is kept of a name: `strncpy` and `strncmp` with DIRSIZ. */
  function Canon(name: CString): Stored {
    if |name| <= DIRSIZ then name else name[..DIRSIZ]
  }

  // ----- one directory: a map from names to inode numbers

  /** The slot in use under the name, the number of slots if there is none. */
  function Lookup(entries: seq<Dirent>, name: CString, from: nat): (k: nat)
    requires from <= |entries|
    ensures from <= k <= |entries|
    ensures k < |entries| ==> entries[k].inum != 0 && entries[k].name == Canon(name)
    ensures forall j :: from <= j < k ==> entries[j].inum == 0 || entries[j].name != Canon(name)
    decreases |entries| - from
  {
    if from == |entries| || (entries[from].inum != 0 && entries[from].name == Canon(name)) then from
    else Lookup(entries, name, from + 1)
  }

  /** The first slot not in use, the number of slots if all are. */
  function FreeSlot(entries: seq<Dirent>, from: nat): (k: nat)
    requires from <= |entries|
    ensures from <= k <= |entries| && (k < |entries| ==> entries[k].inum == 0)
    ensures forall j :: from <= j < k ==> entries[j].inum != 0
    decreases |entries| - from
  {
    if from == |entries| || entries[from].inum == 0 then from else FreeSlot(entries, from + 1)
  }

  /** The slots after an entry is written to slot k, or appended. */
  function Put(entries: seq<Dirent>, k: nat, e: Dirent): (r: seq<Dirent>)
    requires k <= |entries|
    ensures |r| == (if k == |entries| then |entries| + 1 else |entries|) && r[k] == e
    ensures forall j :: 0 <= j < |entries| && j != k ==> r[j] == entries[j]
  {
    if k == |entries| then entries + [e] else entries[k := e]
  }

  /** No name is in use twice. */
  ghost predicate Names(entries: seq<Dirent>) {
    forall a, b :: 0 <= a < b < |entries| && entries[a].inum != 0 && entries[b].inum != 0 ==>
      entries[a].name != entries[b].name
  }

  /** The directory as a map. */
  ghost predicate Maps(entries: seq<Dirent>, m: map<Stored, int>) {
    && (forall k :: 0 <= k < |entries| && entries[k].inum != 0 ==>
         entries[k].name in m && m[entries[k].name] == entries[k].inum)
    && (forall s :: s in m ==> Has(entries, s))
  }

  ghost predicate Has(entries: seq<Dirent>, s: Stored) {
    exists k :: 0 <= k < |entries| && entries[k].inum != 0 && entries[k].name == s
  }

  /** `dirlookup` is the map's lookup. */
  lemma LookupIsMap(entries: seq<Dirent>, m: map<Stored, int>, name: CString)
    requires Maps(entries, m)
    ensures var k := Lookup(entries, name, 0);
      if Canon(name) in m then k < |entries| && entries[k].inum == m[Canon(name)] else k == |entries|
  {
    if Canon(name) in m { assert Has(entries, Canon(name)); }
  }

  /** `dirlink` of a new name is the map's update. */
  lemma LinkIsMap(entries: seq<Dirent>, m: map<Stored, int>, name: CString, inum: int)
    requires Names(entries) && Maps(entries, m) && Canon(name) !in m && inum != 0
    ensures var r := Put(entries, FreeSlot(entries, 0), Dirent(inum, Canon(name)));
      Names(r) && Maps(r, m[Canon(name) := inum])
  {
    var k := FreeSlot(entries, 0);
    var r := Put(entries, k, Dirent(inum, Canon(name)));
    forall s | s in m[Canon(name) := inum] ensures Has(r, s) {
      if s == Canon(name) {
        assert r[k].name == s;
      } else {
        assert Has(entries, s);
        var j :| 0 <= j < |entries| && entries[j].inum != 0 && entries[j].name == s;
        assert r[j] == entries[j];
      }
    }
  }

  /** Clearing the slot of a name takes the name out of the map. */
  lemma UnlinkIsMap(entries: seq<Dirent>, m: map<Stored, int>, k: nat)
    requires Names(entries) && Maps(entries, m) && k < |entries| && entries[k].inum != 0
    ensures Names(entries[k := EMPTY]) && Maps(entries[k := EMPTY], m - {entries[k].name})
  {
    var r := entries[k := EMPTY];
    forall s | s in m && s != entries[k].name ensures Has(r, s) {
      assert Has(entries, s);
      var j :| 0 <= j < |entries| && entries[j].inum != 0 && entries[j].name == s;
      assert r[j] == entries[j];
    }
  }

  // ----- all of them: who names whom

  predicate IsDir(n: Node) { n.Node? && n.kind == T_DIR }

  /** A directory that still counts: it has a link. */
  predicate Linked(n: Node) { IsDir(n) && n.nlink > 0 }

  function Inums(entries: seq<Dirent>): (r: seq<int>)
    ensures |r| == |entries|
  {
    seq(|entries|, k requires 0 <= k < |entries| => entries[k].inum)
  }

  /** How often a linked directory names i, except through its first slot, ".". */
  function Out(n: Node, i: int): nat {
    if Linked(n) && |n.entries| >= 1 then multiset(Inums(n.entries[1..]))[i] else 0
  }

  /** How often the directories among the first k inodes name i. */
  function Links(nodes: seq<Node>, k: nat, i: int): nat
    requires k <= |nodes|
  {
    if k == 0 then 0 else Links(nodes, k - 1, i) + Out(nodes[k - 1], i)
  }

  function AllLinks(nodes: seq<Node>, i: int): nat { Links(nodes, |nodes|, i) }

  lemma {:induction false} LinksUpdate(nodes: seq<Node>, d: nat, n: Node, i: int, k: nat)
    requires d < |nodes| && k <= |nodes|
    ensures Links(nodes[d := n], k, i) == Links(nodes, k, i) + (if d < k then Out(n, i) - Out(nodes[d], i) else 0)
  {
    if k > 0 { LinksUpdate(nodes, d, n, i, k - 1); }
  }

  /** Changing one inode changes the count of i by what that inode names. */
  lemma LinkCount(nodes: seq<Node>, d: nat, n: Node, i: int)
    requires d < |nodes|
    ensures AllLinks(nodes[d := n], i) == AllLinks(nodes, i) - Out(nodes[d], i) + Out(n, i)
  {
    LinksUpdate(nodes, d, n, i, |nodes|);
  }

  /** If no directory but d names i, the count is that of d. */
  lemma {:induction false} OnlyHere(nodes: seq<Node>, d: nat, i: int, k: nat)
    requires d < |nodes| && k <= |nodes|
    requires forall x :: 0 <= x < |nodes| && x != d ==> Out(nodes[x], i) == 0
    ensures Links(nodes, k, i) == if d < k then Out(nodes[d], i) else 0
  {
    if k > 0 { OnlyHere(nodes, d, i, k - 1); }
  }

  /** Two directories that name i make its count at least their sum. */
  lemma {:induction false} AtLeast(nodes: seq<Node>, a: nat, b: nat, i: int, k: nat)
    requires a < |nodes| && b < |nodes| && a != b && k <= |nodes|
    ensures Links(nodes, k, i) >= (if a < k then Out(nodes[a], i) else 0) + (if b < k then Out(nodes[b], i) else 0)
  {
    if k > 0 { AtLeast(nodes, a, b, i, k - 1); }
  }

  /** The effect of writing one slot other than the first on what a directory names. */
  lemma PutOut(n: Node, k: nat, e: Dirent, nlink: int, i: int)
    requires Linked(n) && 1 <= k <= |n.entries| && nlink > 0
    ensures Out(Node(T_DIR, nlink, Put(n.entries, k, e)), i) ==
      Out(n, i) + (if e.inum == i then 1 else 0) - (if k < |n.entries| && n.entries[k].inum == i then 1 else 0)
  {
    var s, t := Inums(n.entries[1..]), Inums(Put(n.entries, k, e)[1..]);
    if k == |n.entries| {
      assert t == s + [e.inum];
    } else {
      assert t == s[k - 1 := e.inum];
      assert s[k - 1] == n.entries[k].inum;
    }
  }

  /** A directory names i if and only if a slot after the first does. */
  lemma OutHas(n: Node, i: int)
    requires Linked(n)
    ensures Out(n, i) > 0 <==> exists k :: 1 <= k < |n.entries| && n.entries[k].inum == i
  {
    if |n.entries| >= 1 {
      var s := Inums(n.entries[1..]);
      if i in s {
        var j :| 0 <= j < |s| && s[j] == i;
        assert n.entries[j + 1].inum == i;
      }
      if k :| 1 <= k < |n.entries| && n.entries[k].inum == i {
        assert s[k - 1] == i;
      }
      assert Out(n, i) > 0 <==> i in s;
    }
  }

  /** ... and names it once if only one slot does. */
  lemma OutOnce(n: Node, i: int, k: nat)
    requires Linked(n) && 1 <= k < |n.entries| && n.entries[k].inum == i
    requires forall j :: 1 <= j < |n.entries| && j != k ==> n.entries[j].inum != i
    ensures Out(n, i) == 1
  {
    var s := Inums(n.entries[1..]);
    Once(s, i, k - 1);
  }

  lemma Once(s: seq<int>, x: int, k: nat)
    requires k < |s| && s[k] == x && forall j :: 0 <= j < |s| && j != k ==> s[j] != x
    ensures multiset(s)[x] == 1
  {
    assert s == s[..k] + [x] + s[k + 1..];
    assert x !in s[..k] && x !in s[k + 1..];
  }
}
