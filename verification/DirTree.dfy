/** What create, link and unlink keep in linked directories: the directories are maps, each has one
    place below the root, and every link count is the number of names. */
module DirTree {
  import opened DirSpec

  /** Where a directory is named: slot k of directory d. */
  datatype Home = Home(d: int, k: int)

  ghost predicate DirOk(nodes: seq<Node>, d: int)
    requires 0 <= d < |nodes| && IsDir(nodes[d])
  {
    var e := nodes[d].entries;
    && |e| >= 2 && e[0] == Dirent(d, ".") && e[1].name == ".." && 0 < e[1].inum < |nodes| && Names(e)
    && (e[1].inum == d ==> d == ROOT)
    && (nodes[d].nlink > 0 ==> forall k :: 0 <= k < |e| && e[k].inum != 0 ==>
         0 < e[k].inum < |nodes| && nodes[e[k].inum].Node?)
    && (nodes[d].nlink <= 0 ==> forall k :: 2 <= k < |e| ==> e[k].inum == 0)
  }

  /** A directory in slot k of d: this is its only place, and its ".." is d. */
  ghost predicate ChildOk(nodes: seq<Node>, home: map<int, Home>, d: int, k: int)
    requires 0 <= d < |nodes| && IsDir(nodes[d]) && 0 <= k < |nodes[d].entries|
  {
    var c := nodes[d].entries[k].inum;
    0 < c < |nodes| && IsDir(nodes[c]) ==>
      c != ROOT && c in home && home[c] == Home(d, k) && Linked(nodes[c]) && |nodes[c].entries| >= 2 &&
        nodes[c].entries[1].inum == d
  }

  /** A linked directory other than the root is named in a linked directory. */
  ghost predicate HomeOk(nodes: seq<Node>, home: map<int, Home>, c: int)
    requires 0 <= c < |nodes|
  {
    c in home && 0 <= home[c].d < |nodes| && Linked(nodes[home[c].d]) && 2 <= home[c].k < |nodes[home[c].d].entries|
    && nodes[home[c].d].entries[home[c].k].inum == c
  }

  /** The link count is the number of names other than ".". */
  ghost predicate CountOk(nodes: seq<Node>, i: int)
    requires 0 <= i < |nodes|
  {
    AllLinks(nodes, i) == if nodes[i].Unused? then 0 else nodes[i].nlink
  }

  ghost predicate RootOk(nodes: seq<Node>) {
    |nodes| > ROOT && nodes[0].Unused? && Linked(nodes[ROOT]) && |nodes[ROOT].entries| >= 2 &&
      nodes[ROOT].entries[1].inum == ROOT
  }

  ghost predicate Dirs(nodes: seq<Node>) { forall d :: 0 <= d < |nodes| && IsDir(nodes[d]) ==> DirOk(nodes, d) }

  ghost predicate Children(nodes: seq<Node>, home: map<int, Home>) {
    forall d, k :: 0 <= d < |nodes| && Linked(nodes[d]) && 2 <= k < |nodes[d].entries| ==> ChildOk(nodes, home, d, k)
  }

  ghost predicate Homes(nodes: seq<Node>, home: map<int, Home>) {
    forall c :: 0 <= c < |nodes| && Linked(nodes[c]) && c != ROOT ==> HomeOk(nodes, home, c)
  }

  ghost predicate Counts(nodes: seq<Node>) { forall i :: 0 < i < |nodes| ==> CountOk(nodes, i) }

  ghost predicate Inv(nodes: seq<Node>, home: map<int, Home>) {
    RootOk(nodes) && Dirs(nodes) && Children(nodes, home) && Homes(nodes, home) && Counts(nodes)
  }

  // ----- create

  /** A new inode: a directory starts with "." and "..". */
  function Newborn(i: int, dp: int, kind: Kind): Node {
    Node(kind, 1, if kind == T_DIR then [Dirent(i, "."), Dirent(dp, "..")] else [])
  }

  /** The parent with the new name; a directory in it adds a link for its "..". */
  function Parent(n: Node, i: int, name: CString, kind: Kind): Node
    requires n.Node?
  {
    Node(n.kind, n.nlink + (if kind == T_DIR then 1 else 0),
      Put(n.entries, FreeSlot(n.entries, 0), Dirent(i, Canon(name))))
  }

  function Created(nodes: seq<Node>, dp: int, i: int, name: CString, kind: Kind): seq<Node>
    requires 0 <= dp < |nodes| && 0 <= i < |nodes| && nodes[dp].Node?
  {
    nodes[i := Newborn(i, dp, kind)][dp := Parent(nodes[dp], i, name, kind)]
  }

  /** `create` finds no such name and takes the unused inode i. */
  predicate CanCreate(nodes: seq<Node>, dp: int, i: int, name: CString) {
    && 0 < dp < |nodes| && IsDir(nodes[dp]) && 0 < i < |nodes| && nodes[i].Unused?
    && Lookup(nodes[dp].entries, name, 0) == |nodes[dp].entries|
  }

  /** The first two slots stay in use, so a new name goes to a later one. */
  lemma SlotAfterDots(nodes: seq<Node>, d: int)
    requires 0 <= d < |nodes| && IsDir(nodes[d]) && DirOk(nodes, d) && d != 0
    ensures FreeSlot(nodes[d].entries, 0) >= 2
  {
  }

  lemma PutNames(entries: seq<Dirent>, name: CString, inum: int)
    requires Names(entries) && Lookup(entries, name, 0) == |entries|
    ensures Names(Put(entries, FreeSlot(entries, 0), Dirent(inum, Canon(name))))
  {
  }

  lemma CreateDirs(nodes: seq<Node>, home: map<int, Home>, dp: int, i: int, name: CString, kind: Kind)
    requires Inv(nodes, home) && CanCreate(nodes, dp, i, name) && Linked(nodes[dp])
    ensures Dirs(Created(nodes, dp, i, name, kind))
  {
    var r := Created(nodes, dp, i, name, kind);
    assert DirOk(nodes, dp);
    SlotAfterDots(nodes, dp);
    PutNames(nodes[dp].entries, name, i);
    forall d | 0 <= d < |r| && IsDir(r[d]) ensures DirOk(r, d) {
      if d != i { assert DirOk(nodes, d); }
    }
  }

  lemma CreateChildren(nodes: seq<Node>, home: map<int, Home>, dp: int, i: int, name: CString, kind: Kind)
    requires Inv(nodes, home) && CanCreate(nodes, dp, i, name) && Linked(nodes[dp])
    ensures Children(Created(nodes, dp, i, name, kind), home[i := Home(dp, FreeSlot(nodes[dp].entries, 0))])
  {
    var k := FreeSlot(nodes[dp].entries, 0);
    var r, home' := Created(nodes, dp, i, name, kind), home[i := Home(dp, k)];
    assert DirOk(nodes, dp);
    SlotAfterDots(nodes, dp);
    forall d, j | 0 <= d < |r| && Linked(r[d]) && 2 <= j < |r[d].entries| ensures ChildOk(r, home', d, j) {
      if !(d == dp && j == k) { CreateChild(nodes, home, dp, i, name, kind, d, j); }
    }
  }

  /** A slot that was not written, naming an inode that stays what it was. */
  lemma ChildKept(nodes: seq<Node>, r: seq<Node>, home: map<int, Home>, home': map<int, Home>, d: int, j: int)
    requires 0 <= d < |nodes| == |r| && IsDir(nodes[d]) && IsDir(r[d]) && ChildOkHere(nodes, home, d, j)
    requires 0 <= j < |r[d].entries| && r[d].entries[j] == nodes[d].entries[j]
    requires var c := nodes[d].entries[j].inum; 0 < c < |nodes| && IsDir(r[c]) ==>
      IsDir(nodes[c]) && (Linked(nodes[c]) ==> Linked(r[c])) && c in home && c in home' && home'[c] == home[c] &&
      |r[c].entries| >= |nodes[c].entries| && (|nodes[c].entries| >= 2 ==> r[c].entries[1] == nodes[c].entries[1])
    ensures ChildOk(r, home', d, j)
  {
  }

  ghost predicate ChildOkHere(nodes: seq<Node>, home: map<int, Home>, d: int, j: int) {
    0 <= d < |nodes| && IsDir(nodes[d]) && 0 <= j < |nodes[d].entries| && ChildOk(nodes, home, d, j)
  }

  lemma CreateChild(nodes: seq<Node>, home: map<int, Home>, dp: int, i: int, name: CString, kind: Kind, d: int, j: int)
    requires Inv(nodes, home) && CanCreate(nodes, dp, i, name) && Linked(nodes[dp])
    requires var k := FreeSlot(nodes[dp].entries, 0); k >= 2 && !(d == dp && j == k)
    requires var r := Created(nodes, dp, i, name, kind); 0 <= d < |r| && Linked(r[d]) && 2 <= j < |r[d].entries|
    ensures ChildOk(Created(nodes, dp, i, name, kind), home[i := Home(dp, FreeSlot(nodes[dp].entries, 0))], d, j)
  {
    var k := FreeSlot(nodes[dp].entries, 0);
    var r, home' := Created(nodes, dp, i, name, kind), home[i := Home(dp, k)];
    assert DirOk(nodes, d) && ChildOkHere(nodes, home, d, j);
    ChildKept(nodes, r, home, home', d, j);
  }

  lemma CreateHomes(nodes: seq<Node>, home: map<int, Home>, dp: int, i: int, name: CString, kind: Kind)
    requires Inv(nodes, home) && CanCreate(nodes, dp, i, name) && Linked(nodes[dp])
    ensures Homes(Created(nodes, dp, i, name, kind), home[i := Home(dp, FreeSlot(nodes[dp].entries, 0))])
  {
    var k := FreeSlot(nodes[dp].entries, 0);
    var r, home' := Created(nodes, dp, i, name, kind), home[i := Home(dp, k)];
    assert DirOk(nodes, dp);
    SlotAfterDots(nodes, dp);
    forall c | 0 <= c < |r| && Linked(r[c]) && c != ROOT ensures HomeOk(r, home', c) {
      if c != i { assert HomeOk(nodes, home, c); }
    }
  }

  lemma CreateCounts(nodes: seq<Node>, home: map<int, Home>, dp: int, i: int, name: CString, kind: Kind)
    requires Inv(nodes, home) && CanCreate(nodes, dp, i, name) && Linked(nodes[dp])
    ensures Counts(Created(nodes, dp, i, name, kind))
  {
    var r := Created(nodes, dp, i, name, kind);
    forall x | 0 < x < |r| ensures CountOk(r, x) {
      assert CountOk(nodes, x);
      CreateCount(nodes, home, dp, i, name, kind, x);
    }
  }

  /** One inode's count. */
  lemma CreateCount(nodes: seq<Node>, home: map<int, Home>, dp: int, i: int, name: CString, kind: Kind, x: int)
    requires Inv(nodes, home) && CanCreate(nodes, dp, i, name) && Linked(nodes[dp]) && 0 < x < |nodes|
    ensures AllLinks(Created(nodes, dp, i, name, kind), x)
         == AllLinks(nodes, x) + (if x == i then 1 else 0) + (if x == dp && kind == T_DIR then 1 else 0)
  {
    assert DirOk(nodes, dp);
    SlotAfterDots(nodes, dp);
    var n := nodes[dp];
    var mid := nodes[i := Newborn(i, dp, kind)];
    LinkCount(nodes, i, Newborn(i, dp, kind), x);
    LinkCount(mid, dp, Parent(n, i, name, kind), x);
    PutOut(n, FreeSlot(n.entries, 0), Dirent(i, Canon(name)), Parent(n, i, name, kind).nlink, x);
    NewbornOut(i, dp, kind, x);
  }

  lemma NewbornOut(i: int, dp: int, kind: Kind, x: int)
    ensures Out(Newborn(i, dp, kind), x) == if kind == T_DIR && x == dp then 1 else 0
  {
    if kind == T_DIR { assert Inums(Newborn(i, dp, kind).entries[1..]) == [dp]; }
  }

  lemma CreateInv(nodes: seq<Node>, home: map<int, Home>, dp: int, i: int, name: CString, kind: Kind)
    requires Inv(nodes, home) && CanCreate(nodes, dp, i, name) && Linked(nodes[dp])
    ensures Inv(Created(nodes, dp, i, name, kind), home[i := Home(dp, FreeSlot(nodes[dp].entries, 0))])
  {
    assert DirOk(nodes, dp);
    SlotAfterDots(nodes, dp);
    CreateDirs(nodes, home, dp, i, name, kind);
    CreateChildren(nodes, home, dp, i, name, kind);
    CreateHomes(nodes, home, dp, i, name, kind);
    CreateCounts(nodes, home, dp, i, name, kind);
  }

  /** `create` keeps the counts exactly when the parent is still linked. */
  lemma CreateNeedsLinkedParent(nodes: seq<Node>, home: map<int, Home>, dp: int, i: int, name: CString, kind: Kind)
    requires Inv(nodes, home) && CanCreate(nodes, dp, i, name)
    ensures Counts(Created(nodes, dp, i, name, kind)) <==> Linked(nodes[dp])
  {
    if Linked(nodes[dp]) {
      CreateCounts(nodes, home, dp, i, name, kind);
    } else {
      CreateInUnlinked(nodes, home, dp, i, name, kind);
    }
  }

  lemma CreateInUnlinked(nodes: seq<Node>, home: map<int, Home>, dp: int, i: int, name: CString, kind: Kind)
    requires Inv(nodes, home) && CanCreate(nodes, dp, i, name) && !Linked(nodes[dp])
    ensures !Counts(Created(nodes, dp, i, name, kind))
  {
    assert DirOk(nodes, dp) && CountOk(nodes, dp) && CountOk(nodes, i);
    var r, n := Created(nodes, dp, i, name, kind), nodes[dp];
    var mid, n' := nodes[i := Newborn(i, dp, kind)], Parent(n, i, name, kind);
    var p := if kind == T_DIR then n.entries[1].inum else i;
    SlotAfterDots(nodes, dp);
    LinkCount(nodes, i, Newborn(i, dp, kind), p);
    LinkCount(mid, dp, n', p);
    NewbornOut(i, dp, kind, p);
    if kind == T_DIR {
      OutHas(n', p);
      assert n'.entries[1].inum == p;
      if p == i { TwoSlots(n', i, 1, FreeSlot(n.entries, 0)); } else { assert CountOk(nodes, p); }
    }
    assert !CountOk(r, p);
  }

  lemma TwoSlots(n: Node, i: int, a: nat, b: nat)
    requires Linked(n) && 1 <= a < b < |n.entries| && n.entries[a].inum == i && n.entries[b].inum == i
    ensures Out(n, i) >= 2
  {
    var s := Inums(n.entries[1..]);
    assert s == s[..a - 1] + [i] + s[a..b - 1] + [i] + s[b..];
  }

  // ----- link

  function LinkedTo(nodes: seq<Node>, ip: int, dp: int, name: CString): seq<Node>
    requires 0 <= dp < |nodes| && 0 <= ip < |nodes| && nodes[dp].Node? && nodes[ip].Node?
  {
    nodes[ip := nodes[ip].(nlink := nodes[ip].nlink + 1)]
         [dp := Node(nodes[dp].kind, nodes[dp].nlink,
                     Put(nodes[dp].entries, FreeSlot(nodes[dp].entries, 0), Dirent(ip, Canon(name))))]
  }

  /** `sys_link` of an inode that is not a directory, under a new name. */
  predicate CanLink(nodes: seq<Node>, ip: int, dp: int, name: CString) {
    && 0 < dp < |nodes| && IsDir(nodes[dp]) && 0 < ip < |nodes| && nodes[ip].Node? && !IsDir(nodes[ip])
    && Lookup(nodes[dp].entries, name, 0) == |nodes[dp].entries|
  }

  /** `sys_link` keeps the counts exactly when the directory is still linked. */
  lemma LinkNeedsLinkedParent(nodes: seq<Node>, home: map<int, Home>, ip: int, dp: int, name: CString)
    requires Inv(nodes, home) && CanLink(nodes, ip, dp, name)
    ensures Counts(LinkedTo(nodes, ip, dp, name)) <==> Linked(nodes[dp])
  {
    var r := LinkedTo(nodes, ip, dp, name);
    if Linked(nodes[dp]) {
      forall x | 0 < x < |r| ensures CountOk(r, x) {
        assert CountOk(nodes, x);
        LinkCounts(nodes, home, ip, dp, name, x);
      }
    } else {
      assert CountOk(nodes, ip);
      LinkCounts(nodes, home, ip, dp, name, ip);
      assert !CountOk(r, ip);
    }
  }

  lemma LinkCounts(nodes: seq<Node>, home: map<int, Home>, ip: int, dp: int, name: CString, x: int)
    requires Inv(nodes, home) && CanLink(nodes, ip, dp, name) && 0 < x < |nodes|
    ensures AllLinks(LinkedTo(nodes, ip, dp, name), x) == AllLinks(nodes, x) +
      (if x == ip && Linked(nodes[dp]) then 1 else 0)
  {
    assert DirOk(nodes, dp);
    SlotAfterDots(nodes, dp);
    var mid, n := nodes[ip := nodes[ip].(nlink := nodes[ip].nlink + 1)], nodes[dp];
    var e := Dirent(ip, Canon(name));
    LinkCount(nodes, ip, mid[ip], x);
    LinkCount(mid, dp, Node(n.kind, n.nlink, Put(n.entries, FreeSlot(n.entries, 0), e)), x);
    if Linked(n) { PutOut(n, FreeSlot(n.entries, 0), e, n.nlink, x); }
  }

  lemma LinkDirs(nodes: seq<Node>, home: map<int, Home>, ip: int, dp: int, name: CString)
    requires Inv(nodes, home) && CanLink(nodes, ip, dp, name) && Linked(nodes[dp])
    ensures Dirs(LinkedTo(nodes, ip, dp, name))
  {
    var r := LinkedTo(nodes, ip, dp, name);
    assert DirOk(nodes, dp);
    SlotAfterDots(nodes, dp);
    PutNames(nodes[dp].entries, name, ip);
    forall d | 0 <= d < |r| && IsDir(r[d]) ensures DirOk(r, d) { assert DirOk(nodes, d); }
  }

  lemma LinkChild(nodes: seq<Node>, home: map<int, Home>, ip: int, dp: int, name: CString, d: int, j: int)
    requires Inv(nodes, home) && CanLink(nodes, ip, dp, name) && Linked(nodes[dp])
    requires var r := LinkedTo(nodes, ip, dp, name); 0 <= d < |r| && Linked(r[d]) && 2 <= j < |r[d].entries|
    ensures ChildOk(LinkedTo(nodes, ip, dp, name), home, d, j)
  {
    var r, k := LinkedTo(nodes, ip, dp, name), FreeSlot(nodes[dp].entries, 0);
    assert DirOk(nodes, dp);
    SlotAfterDots(nodes, dp);
    if !(d == dp && j == k) {
      assert ChildOkHere(nodes, home, d, j);
      ChildKept(nodes, r, home, home, d, j);
    }
  }

  lemma LinkHomes(nodes: seq<Node>, home: map<int, Home>, ip: int, dp: int, name: CString)
    requires Inv(nodes, home) && CanLink(nodes, ip, dp, name) && Linked(nodes[dp])
    ensures Homes(LinkedTo(nodes, ip, dp, name), home)
  {
    var r := LinkedTo(nodes, ip, dp, name);
    forall c | 0 <= c < |r| && Linked(r[c]) && c != ROOT ensures HomeOk(r, home, c) {
      assert HomeOk(nodes, home, c);
      LinkHome(nodes, home, ip, dp, name, c);
    }
  }

  lemma LinkHome(nodes: seq<Node>, home: map<int, Home>, ip: int, dp: int, name: CString, c: int)
    requires 0 <= dp < |nodes| && Linked(nodes[dp]) && 0 <= ip < |nodes| && nodes[ip].Node? && !IsDir(nodes[ip])
    requires 0 <= c < |nodes| && c != 0 && HomeOk(nodes, home, c)
    ensures HomeOk(LinkedTo(nodes, ip, dp, name), home, c)
  {
  }

  lemma LinkInv(nodes: seq<Node>, home: map<int, Home>, ip: int, dp: int, name: CString)
    requires Inv(nodes, home) && CanLink(nodes, ip, dp, name) && Linked(nodes[dp])
    ensures Inv(LinkedTo(nodes, ip, dp, name), home)
  {
    assert DirOk(nodes, dp);
    SlotAfterDots(nodes, dp);
    LinkDirs(nodes, home, ip, dp, name);
    var r := LinkedTo(nodes, ip, dp, name);
    forall d, j | 0 <= d < |r| && Linked(r[d]) && 2 <= j < |r[d].entries| ensures ChildOk(r, home, d, j) {
      LinkChild(nodes, home, ip, dp, name, d, j);
    }
    LinkHomes(nodes, home, ip, dp, name);
    LinkNeedsLinkedParent(nodes, home, ip, dp, name);
  }

  // ----- unlink

  /** `isdirempty` */
  predicate NoNames(entries: seq<Dirent>) { forall k :: 2 <= k < |entries| ==> entries[k].inum == 0 }

  /** `sys_unlink` finds a name in slot k; a directory in it must be empty. */
  predicate CanUnlink(nodes: seq<Node>, dp: int, k: int) {
    && 0 < dp < |nodes| && Linked(nodes[dp]) && 2 <= k < |nodes[dp].entries|
    && 0 < nodes[dp].entries[k].inum < |nodes| && nodes[nodes[dp].entries[k].inum].Node?
    && (IsDir(nodes[nodes[dp].entries[k].inum]) ==> NoNames(nodes[nodes[dp].entries[k].inum].entries))
  }

  function Unlinked(nodes: seq<Node>, dp: int, k: int): seq<Node>
    requires 0 <= dp < |nodes| && nodes[dp].Node? && 0 <= k < |nodes[dp].entries|
    requires 0 <= nodes[dp].entries[k].inum < |nodes| && nodes[nodes[dp].entries[k].inum].Node?
  {
    var n, ip := nodes[dp], nodes[dp].entries[k].inum;
    var less := if IsDir(nodes[ip]) then 1 else 0;
    nodes[dp := Node(n.kind, n.nlink - less, Put(n.entries, k, EMPTY))]
         [ip := Node(nodes[ip].kind, nodes[ip].nlink - 1, nodes[ip].entries)]
  }

  /** An empty directory is named nowhere but in its parent. */
  lemma NamedOnce(nodes: seq<Node>, home: map<int, Home>, dp: int, k: int)
    requires Inv(nodes, home) && CanUnlink(nodes, dp, k) && IsDir(nodes[nodes[dp].entries[k].inum])
    ensures AllLinks(nodes, nodes[dp].entries[k].inum) == 1
  {
    var c := nodes[dp].entries[k].inum;
    assert ChildOk(nodes, home, dp, k);
    forall x | 0 <= x < |nodes| && x != dp ensures Out(nodes[x], c) == 0 {
      if Linked(nodes[x]) {
        OutHas(nodes[x], c);
        forall j | 1 <= j < |nodes[x].entries|
          ensures nodes[x].entries[j].inum != c
        {
          NotElsewhere(nodes, home, dp, k, x, j);
        }
      }
    }
    forall j | 1 <= j < |nodes[dp].entries| && j != k
      ensures nodes[dp].entries[j].inum != c
    {
      NotElsewhere(nodes, home, dp, k, dp, j);
    }
    OutOnce(nodes[dp], c, k);
    OnlyHere(nodes, dp, c, |nodes|);
  }

  lemma NotElsewhere(nodes: seq<Node>, home: map<int, Home>, dp: int, k: int, x: int, j: int)
    requires Inv(nodes, home) && CanUnlink(nodes, dp, k) && IsDir(nodes[nodes[dp].entries[k].inum])
    requires 0 <= x < |nodes| && Linked(nodes[x]) && 1 <= j < |nodes[x].entries| && !(x == dp && j == k)
    ensures nodes[x].entries[j].inum != nodes[dp].entries[k].inum
  {
    var c := nodes[dp].entries[k].inum;
    assert ChildOk(nodes, home, dp, k);
    if j >= 2 {
      assert ChildOk(nodes, home, x, j);
    } else if x != ROOT {
      assert HomeOk(nodes, home, x);
      assert ChildOk(nodes, home, home[x].d, home[x].k);
    }
  }

  /** The parent of a directory has another name beside that directory's "..". */
  lemma ParentStaysLinked(nodes: seq<Node>, home: map<int, Home>, dp: int, k: int)
    requires Inv(nodes, home) && CanUnlink(nodes, dp, k) && IsDir(nodes[nodes[dp].entries[k].inum])
    ensures nodes[dp].nlink >= 2
  {
    var c := nodes[dp].entries[k].inum;
    assert ChildOk(nodes, home, dp, k) && CountOk(nodes, dp);
    OutHas(nodes[c], dp);
    assert nodes[c].entries[1].inum == dp;
    var d := if dp == ROOT then ROOT else home[dp].d;
    if dp != ROOT { assert HomeOk(nodes, home, dp); }
    var j := if dp == ROOT then 1 else home[dp].k;
    assert nodes[d].entries[j].inum == dp;
    OutHas(nodes[d], dp);
    AtLeast(nodes, c, d, dp, |nodes|);
  }

  /** What is known of the inode and its parent before the name goes. */
  lemma UnlinkFacts(nodes: seq<Node>, home: map<int, Home>, dp: int, k: int)
    requires Inv(nodes, home) && CanUnlink(nodes, dp, k)
    ensures var ip := nodes[dp].entries[k].inum;
      && ip != dp && (IsDir(nodes[ip]) ==>
           nodes[dp].nlink >= 2 && nodes[ip].nlink == 1 && ip in home && home[ip] == Home(dp, k))
      && forall x :: x > 0 && IsDir(nodes[ip]) ==> Out(nodes[ip], x) == if x == dp then 1 else 0
  {
    var ip := nodes[dp].entries[k].inum;
    assert ChildOk(nodes, home, dp, k) && DirOk(nodes, dp) && CountOk(nodes, ip);
    if IsDir(nodes[ip]) {
      ParentStaysLinked(nodes, home, dp, k);
      NamedOnce(nodes, home, dp, k);
      forall x | x > 0 ensures Out(nodes[ip], x) == if x == dp then 1 else 0 { EmptyOut(nodes[ip], dp, x); }
    }
  }

  lemma UnlinkCount(nodes: seq<Node>, home: map<int, Home>, dp: int, k: int, x: int)
    requires Inv(nodes, home) && CanUnlink(nodes, dp, k) && 0 < x < |nodes|
    ensures var ip := nodes[dp].entries[k].inum;
      AllLinks(Unlinked(nodes, dp, k), x)
        == AllLinks(nodes, x) - (if x == ip then 1 else 0) - (if x == dp && IsDir(nodes[ip]) then 1 else 0)
  {
    var n, ip := nodes[dp], nodes[dp].entries[k].inum;
    UnlinkFacts(nodes, home, dp, k);
    CountAfter(nodes, dp, k, ip, if IsDir(nodes[ip]) then 1 else 0, x);
  }

  lemma CountAfter(nodes: seq<Node>, dp: int, k: int, ip: int, less: int, x: int)
    requires 0 < x < |nodes| && 0 <= dp < |nodes| && 0 <= ip < |nodes| && ip != dp && Linked(nodes[dp])
    requires 1 <= k < |nodes[dp].entries|
    requires nodes[dp].entries[k].inum == ip && nodes[ip].Node? && nodes[dp].nlink > less
    requires less == if IsDir(nodes[ip]) then 1 else 0
    requires IsDir(nodes[ip]) ==> nodes[ip].nlink == 1 && Out(nodes[ip], x) == if x == dp then 1 else 0
    ensures AllLinks(Unlinked(nodes, dp, k), x) ==
      AllLinks(nodes, x) - (if x == ip then 1 else 0) - (if x == dp then less else 0)
  {
    var n := nodes[dp];
    var mid := nodes[dp := Node(n.kind, n.nlink - less, Put(n.entries, k, EMPTY))];
    PutOut(n, k, EMPTY, n.nlink - less, x);
    LinkCount(nodes, dp, mid[dp], x);
    LinkCount(mid, ip, Node(nodes[ip].kind, nodes[ip].nlink - 1, nodes[ip].entries), x);
  }

  /** An empty directory names only its parent. */
  lemma EmptyOut(n: Node, dp: int, x: int)
    requires Linked(n) && |n.entries| >= 2 && n.entries[1].inum == dp && NoNames(n.entries) && x > 0 && dp > 0
    ensures Out(n, x) == if x == dp then 1 else 0
  {
    if x == dp { OutOnce(n, dp, 1); } else { OutHas(n, x); }
  }

  lemma UnlinkCounts(nodes: seq<Node>, home: map<int, Home>, dp: int, k: int)
    requires Inv(nodes, home) && CanUnlink(nodes, dp, k)
    ensures Counts(Unlinked(nodes, dp, k)) && nodes[nodes[dp].entries[k].inum].nlink >= 1
  {
    var r, ip := Unlinked(nodes, dp, k), nodes[dp].entries[k].inum;
    assert ChildOk(nodes, home, dp, k) && DirOk(nodes, dp);
    forall x | 0 < x < |r| ensures CountOk(r, x) {
      assert CountOk(nodes, x);
      UnlinkCount(nodes, home, dp, k, x);
    }
    assert CountOk(nodes, ip);
    UnlinkCount(nodes, home, dp, k, ip);
  }

  lemma UnlinkDirs(nodes: seq<Node>, home: map<int, Home>, dp: int, k: int)
    requires Inv(nodes, home) && CanUnlink(nodes, dp, k)
    ensures Dirs(Unlinked(nodes, dp, k))
  {
    var r := Unlinked(nodes, dp, k);
    UnlinkFacts(nodes, home, dp, k);
    forall d | 0 <= d < |r| && IsDir(r[d]) ensures DirOk(r, d) {
      assert DirOk(nodes, d);
      UnlinkDir(nodes, dp, k, d);
    }
  }

  lemma UnlinkDir(nodes: seq<Node>, dp: int, k: int, d: int)
    requires CanUnlink(nodes, dp, k) && nodes[dp].entries[k].inum != dp
    requires IsDir(nodes[nodes[dp].entries[k].inum]) ==>
      nodes[dp].nlink >= 2 && nodes[nodes[dp].entries[k].inum].nlink == 1
    requires 0 <= d < |nodes| && IsDir(nodes[d]) && DirOk(nodes, d)
    ensures DirOk(Unlinked(nodes, dp, k), d)
  {
  }

  lemma UnlinkChild(nodes: seq<Node>, home: map<int, Home>, dp: int, k: int, d: int, j: int)
    requires Inv(nodes, home) && CanUnlink(nodes, dp, k)
    requires var r := Unlinked(nodes, dp, k); 0 <= d < |r| && Linked(r[d]) && 2 <= j < |r[d].entries|
    ensures ChildOk(Unlinked(nodes, dp, k), home, d, j)
  {
    var r, ip := Unlinked(nodes, dp, k), nodes[dp].entries[k].inum;
    UnlinkFacts(nodes, home, dp, k);
    if !(d == dp && j == k) {
      assert ChildOkHere(nodes, home, d, j);
      if IsDir(nodes[ip]) { NotElsewhere(nodes, home, dp, k, d, j); }
      ChildKept(nodes, r, home, home, d, j);
    }
  }

  lemma HomeKept(nodes: seq<Node>, r: seq<Node>, home: map<int, Home>, c: int)
    requires 0 <= c < |nodes| == |r| && HomeOk(nodes, home, c)
    requires Linked(r[home[c].d]) && |r[home[c].d].entries| == |nodes[home[c].d].entries|
    requires r[home[c].d].entries[home[c].k] == nodes[home[c].d].entries[home[c].k]
    ensures HomeOk(r, home, c)
  {
  }

  lemma UnlinkHome(nodes: seq<Node>, home: map<int, Home>, dp: int, k: int, c: int)
    requires Inv(nodes, home) && CanUnlink(nodes, dp, k) && 0 < c < |nodes| && Linked(Unlinked(nodes, dp, k)[c])
    requires c != ROOT
    ensures HomeOk(Unlinked(nodes, dp, k), home, c)
  {
    UnlinkFacts(nodes, home, dp, k);
    assert HomeOk(nodes, home, c);
    HomeStays(nodes, home, dp, k, c);
  }

  lemma HomeStays(nodes: seq<Node>, home: map<int, Home>, dp: int, k: int, c: int)
    requires 0 < dp < |nodes| && Linked(nodes[dp]) && 2 <= k < |nodes[dp].entries|
    requires 0 < nodes[dp].entries[k].inum < |nodes| && nodes[nodes[dp].entries[k].inum].Node?
    requires nodes[dp].entries[k].inum != dp
    requires IsDir(nodes[nodes[dp].entries[k].inum]) ==>
      NoNames(nodes[nodes[dp].entries[k].inum].entries) && nodes[dp].nlink >= 2 &&
        nodes[nodes[dp].entries[k].inum].nlink == 1
    requires 0 < c < |nodes| && Linked(Unlinked(nodes, dp, k)[c]) && HomeOk(nodes, home, c)
    ensures HomeOk(Unlinked(nodes, dp, k), home, c)
  {
    HomeKept(nodes, Unlinked(nodes, dp, k), home, c);
  }

  /** `sys_unlink` keeps everything, and its panic about the link count is not reached. */
  lemma UnlinkInv(nodes: seq<Node>, home: map<int, Home>, dp: int, k: int)
    requires Inv(nodes, home) && CanUnlink(nodes, dp, k)
    ensures Inv(Unlinked(nodes, dp, k), home) && nodes[nodes[dp].entries[k].inum].nlink >= 1
  {
    var r, ip := Unlinked(nodes, dp, k), nodes[dp].entries[k].inum;
    assert ChildOk(nodes, home, dp, k) && DirOk(nodes, dp);
    UnlinkCounts(nodes, home, dp, k);
    UnlinkDirs(nodes, home, dp, k);
    forall d, j | 0 <= d < |r| && Linked(r[d]) && 2 <= j < |r[d].entries| ensures ChildOk(r, home, d, j) {
      UnlinkChild(nodes, home, dp, k, d, j);
    }
    forall c | 0 <= c < |r| && Linked(r[c]) && c != ROOT
      ensures HomeOk(r, home, c)
    {
      UnlinkHome(nodes, home, dp, k, c);
    }
    UnlinkFacts(nodes, home, dp, k);
  }

  // ----- the last reference to an inode without links

  lemma FreeInv(nodes: seq<Node>, home: map<int, Home>, i: int)
    requires Inv(nodes, home) && 0 < i < |nodes| && nodes[i].Node? && nodes[i].nlink == 0
    ensures Inv(nodes[i := Unused], home)
  {
    var r := nodes[i := Unused];
    forall x | 0 < x < |r| ensures CountOk(r, x) {
      assert CountOk(nodes, x);
      LinkCount(nodes, i, Unused, x);
    }
    assert CountOk(nodes, i);
    forall d | 0 <= d < |r| && IsDir(r[d]) ensures DirOk(r, d) {
      assert DirOk(nodes, d);
      if r[d].nlink > 0 { NotNamed(nodes, home, d, i); }
    }
    forall d, j | 0 <= d < |r| && Linked(r[d]) && 2 <= j < |r[d].entries| ensures ChildOk(r, home, d, j) {
      assert ChildOk(nodes, home, d, j);
    }
    forall c | 0 <= c < |r| && Linked(r[c]) && c != ROOT ensures HomeOk(r, home, c) { assert HomeOk(nodes, home, c); }
  }

  /** An inode without links is in no linked directory, except as its own ".". */
  lemma NotNamed(nodes: seq<Node>, home: map<int, Home>, d: int, i: int)
    requires Inv(nodes, home) && 0 < i < |nodes| && AllLinks(nodes, i) == 0 && 0 <= d < |nodes| && Linked(nodes[d])
    requires d != i
    ensures forall k :: 0 <= k < |nodes[d].entries| ==> nodes[d].entries[k].inum != i
  {
    AtLeast(nodes, d, if d == 0 then 1 else 0, i, |nodes|);
    OutHas(nodes[d], i);
    assert DirOk(nodes, d);
  }

  // ----- no directory is its own ancestor

  function DepthOf(depth: map<int, nat>, d: int): nat { if d != ROOT && d in depth then depth[d] else 0 }

  /** Every linked directory is deeper than the one that names it. */
  ghost predicate Ranked(nodes: seq<Node>, home: map<int, Home>, depth: map<int, nat>) {
    forall c :: 0 <= c < |nodes| && Linked(nodes[c]) && c != ROOT ==>
      c in home && DepthOf(depth, home[c].d) < DepthOf(depth, c)
  }

  ghost predicate Sound(nodes: seq<Node>, home: map<int, Home>, depth: map<int, nat>) {
    Inv(nodes, home) && Ranked(nodes, home, depth)
  }

  /** No linked directory is named in inode i, which is unused. */
  lemma NotHome(nodes: seq<Node>, home: map<int, Home>, i: int, c: int)
    requires Homes(nodes, home) && 0 <= i < |nodes| && nodes[i].Unused?
    requires 0 <= c < |nodes| && Linked(nodes[c]) && c != ROOT
    ensures c in home && home[c].d != i
  {
    assert HomeOk(nodes, home, c);
  }

  /** A new leaf i in dp. */
  lemma LeafRanked(nodes: seq<Node>, nodes': seq<Node>, home: map<int, Home>, depth: map<int, nat>, dp: int, i: int,
        k: int)
    requires Homes(nodes, home) && Ranked(nodes, home, depth) && |nodes'| == |nodes| && 0 <= i < |nodes| && i != ROOT
    requires nodes[i].Unused? && dp != i
    requires forall c :: 0 <= c < |nodes| && c != i && Linked(nodes'[c]) ==> Linked(nodes[c])
    ensures Ranked(nodes', home[i := Home(dp, k)], depth[i := DepthOf(depth, dp) + 1])
  {
    var home', depth' := home[i := Home(dp, k)], depth[i := DepthOf(depth, dp) + 1];
    forall c | 0 <= c < |nodes'| && Linked(nodes'[c]) && c != ROOT
      ensures c in home' && DepthOf(depth', home'[c].d) < DepthOf(depth', c)
    {
      if c != i { NotHome(nodes, home, i, c); }
    }
  }

  /** `create` adds a leaf. */
  lemma CreateSound(nodes: seq<Node>, home: map<int, Home>, depth: map<int, nat>, dp: int, i: int, name: CString,
        kind: Kind)
    requires Sound(nodes, home, depth) && CanCreate(nodes, dp, i, name) && Linked(nodes[dp])
    ensures Sound(Created(nodes, dp, i, name, kind), home[i := Home(dp, FreeSlot(nodes[dp].entries, 0))],
                  depth[i := DepthOf(depth, dp) + 1])
  {
    CreateInv(nodes, home, dp, i, name, kind);
    LeafRanked(nodes, Created(nodes, dp, i, name, kind), home, depth, dp, i, FreeSlot(nodes[dp].entries, 0));
  }

  lemma LinkSound(nodes: seq<Node>, home: map<int, Home>, depth: map<int, nat>, ip: int, dp: int, name: CString)
    requires Sound(nodes, home, depth) && CanLink(nodes, ip, dp, name) && Linked(nodes[dp])
    ensures Sound(LinkedTo(nodes, ip, dp, name), home, depth)
  {
    LinkInv(nodes, home, ip, dp, name);
    StillRanked(nodes, LinkedTo(nodes, ip, dp, name), home, depth);
  }

  lemma UnlinkSound(nodes: seq<Node>, home: map<int, Home>, depth: map<int, nat>, dp: int, k: int)
    requires Sound(nodes, home, depth) && CanUnlink(nodes, dp, k)
    ensures Sound(Unlinked(nodes, dp, k), home, depth) && nodes[nodes[dp].entries[k].inum].nlink >= 1
    ensures nodes[dp].entries[k].inum != dp
  {
    UnlinkInv(nodes, home, dp, k);
    UnlinkFacts(nodes, home, dp, k);
    StillRanked(nodes, Unlinked(nodes, dp, k), home, depth);
  }

  lemma FreeSound(nodes: seq<Node>, home: map<int, Home>, depth: map<int, nat>, i: int)
    requires Sound(nodes, home, depth) && 0 < i < |nodes| && nodes[i].Node? && nodes[i].nlink == 0
    ensures Sound(nodes[i := Unused], home, depth)
  {
    FreeInv(nodes, home, i);
    StillRanked(nodes, nodes[i := Unused], home, depth);
  }

  /** A change after which no directory is linked that was not keeps the depths. */
  lemma StillRanked(nodes: seq<Node>, nodes': seq<Node>, home: map<int, Home>, depth: map<int, nat>)
    requires Ranked(nodes, home, depth) && |nodes'| == |nodes|
    requires forall c :: 0 <= c < |nodes| && Linked(nodes'[c]) ==> Linked(nodes[c])
    ensures Ranked(nodes', home, depth)
  {
  }

  /** A way up by "..", from directory to directory that names the one before. */
  ghost predicate Climbs(nodes: seq<Node>, path: seq<int>) {
    && |path| > 0 && (forall j :: 0 <= j < |path| ==> 0 <= path[j] < |nodes| && Linked(nodes[path[j]]))
    && forall j :: 0 <= j < |path| - 1 ==> IsBelow(nodes, path[j], path[j + 1])
  }

  /** The ".." of directory c is d, and d names c. */
  ghost predicate IsBelow(nodes: seq<Node>, c: int, d: int) {
    && 0 <= c < |nodes| && IsDir(nodes[c]) && |nodes[c].entries| >= 2 && nodes[c].entries[1] == Dirent(d, "..")
    && 0 <= d < |nodes| && IsDir(nodes[d]) && exists k :: 2 <= k < |nodes[d].entries| && nodes[d].entries[k].inum == c
  }

  /** From every linked directory ".." leads up to the root. */
  lemma {:induction false} ClimbsToRoot(nodes: seq<Node>, home: map<int, Home>, depth: map<int, nat>, c: int)
    returns (path: seq<int>)
    requires Inv(nodes, home) && Ranked(nodes, home, depth) && 0 <= c < |nodes| && Linked(nodes[c])
    ensures Climbs(nodes, path) && path[0] == c && path[|path| - 1] == ROOT
    decreases DepthOf(depth, c)
  {
    if c == ROOT {
      path := [c];
    } else {
      BelowHome(nodes, home, c);
      var rest := ClimbsToRoot(nodes, home, depth, home[c].d);
      path := [c] + rest;
      ClimbsMore(nodes, c, rest);
    }
  }

  lemma BelowHome(nodes: seq<Node>, home: map<int, Home>, c: int)
    requires Inv(nodes, home) && 0 <= c < |nodes| && Linked(nodes[c]) && c != ROOT
    ensures c in home && 0 <= home[c].d < |nodes| && Linked(nodes[home[c].d]) && IsBelow(nodes, c, home[c].d)
  {
    assert HomeOk(nodes, home, c);
    var d, k := home[c].d, home[c].k;
    assert ChildOk(nodes, home, d, k) && DirOk(nodes, c);
    assert 2 <= k < |nodes[d].entries| && nodes[d].entries[k].inum == c;
  }

  lemma ClimbsMore(nodes: seq<Node>, c: int, rest: seq<int>)
    requires Climbs(nodes, rest) && 0 <= c < |nodes| && Linked(nodes[c]) && IsBelow(nodes, c, rest[0])
    ensures Climbs(nodes, [c] + rest)
  {
    var path := [c] + rest;
    forall j | 0 <= j < |path| - 1 ensures IsBelow(nodes, path[j], path[j + 1]) {
      if j > 0 { assert path[j] == rest[j - 1] && path[j + 1] == rest[j]; }
    }
  }

  /** A directory has one place: two names of it are the same slot. */
  lemma OnePlace(nodes: seq<Node>, home: map<int, Home>, d: int, k: int, d': int, k': int)
    requires Inv(nodes, home) && 0 <= d < |nodes| && Linked(nodes[d]) && 2 <= k < |nodes[d].entries|
    requires 0 <= d' < |nodes| && Linked(nodes[d']) && 2 <= k' < |nodes[d'].entries|
    requires var c := nodes[d].entries[k].inum;
      0 < c < |nodes| && IsDir(nodes[c]) && nodes[d'].entries[k'].inum == c
    ensures d == d' && k == k'
  {
    assert ChildOk(nodes, home, d, k) && ChildOk(nodes, home, d', k');
  }
}
