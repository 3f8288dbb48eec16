/** The directory layer as the kernel runs it (fs.c, sysfile.c), after the path has been
    followed to a directory and a last name. */
module Dirs {
  import opened DirSpec
  import opened DirTree
  import opened DirEffects

  /** The character at an index of a C string, which ends in a NUL. */
  function CharAt(s: string, i: nat): char { if i < |s| then s[i] else '\0' }

  /** `namecmp`, that is `strncmp` with DIRSIZ, of two C strings: zero for names that are
      stored alike. */
  method NameCmp(p: CString, q: CString) returns (r: int)
    ensures r == 0 <==> Canon(p) == Canon(q)
  {
    var i := 0;
    while i < DIRSIZ && CharAt(p, i) != '\0' && CharAt(p, i) == CharAt(q, i)
      invariant 0 <= i <= DIRSIZ && i <= |p| && i <= |q| && p[..i] == q[..i]
    {
      assert p[..i + 1] == p[..i] + [p[i]] && q[..i + 1] == q[..i] + [q[i]];
      i := i + 1;
    }
    if i == DIRSIZ {
      return 0;
    }
    r := CharAt(p, i) as int - CharAt(q, i) as int;
    if r == 0 {
      assert i == |p| == |q|;
      assert p[..i] == p && q[..i] == q;
    } else {
      Differ(p, q, i);
    }
  }

  lemma Differ(p: CString, q: CString, i: nat)
    requires i < DIRSIZ && i <= |p| && i <= |q| && CharAt(p, i) != CharAt(q, i)
    ensures Canon(p) != Canon(q)
  {
    if i < |p| && i < |q| {
      assert Canon(p)[i] != Canon(q)[i];
    }
  }

  class Tree {
    var nodes: seq<Node>
    ghost var home: map<int, Home>
    ghost var depth: map<int, nat>

    ghost predicate Valid()
      reads this
    {
      Sound(nodes, home, depth)
    }

    /** The root directory that mkfs makes, with the other inodes unused. */
    constructor (count: nat)
      requires count > ROOT
      ensures Valid() && |nodes| == count
    {
      nodes := seq(count, i requires 0 <= i =>
        if i == ROOT then Node(T_DIR, 1, [Dirent(ROOT, "."), Dirent(ROOT, "..")]) else Unused);
      home, depth := map[], map[];
      new;
      RootAlone(nodes);
    }

    /** `dirlookup`: the slot, or the number of slots for "not there". */
    method Dirlookup(dp: int, name: CString) returns (k: nat)
      requires 0 <= dp < |nodes| && IsDir(nodes[dp])
      ensures k == Lookup(nodes[dp].entries, name, 0)
    {
      var e := nodes[dp].entries;
      k := 0;
      while k < |e|
        invariant k <= |e| && Lookup(e, name, 0) == Lookup(e, name, k)
      {
        if e[k].inum != 0 {
          var c := NameCmp(name, e[k].name);
          if c == 0 {
            return;
          }
        }
        k := k + 1;
      }
    }

    /** `dirlink` */
    method Dirlink(dp: int, name: CString, inum: int) returns (r: int)
      requires 0 <= dp < |nodes| && IsDir(nodes[dp])
      modifies this`nodes
      ensures |nodes| == |old(nodes)|
      ensures Lookup(old(nodes)[dp].entries, name, 0) < |old(nodes)[dp].entries| ==> r == -1 && nodes == old(nodes)
      ensures Lookup(old(nodes)[dp].entries, name, 0) == |old(nodes)[dp].entries| ==>
        r == 0 && nodes == old(nodes)[dp := old(nodes)[dp].(entries :=
          Put(old(nodes)[dp].entries, FreeSlot(old(nodes)[dp].entries, 0), Dirent(inum, Canon(name))))]
    {
      var found := Dirlookup(dp, name);
      var e := nodes[dp].entries;
      if found < |e| {
        return -1;
      }
      var k := 0;
      while k < |e| && e[k].inum != 0
        invariant k <= |e| && FreeSlot(e, 0) == FreeSlot(e, k)
      {
        k := k + 1;
      }
      nodes := nodes[dp := nodes[dp].(entries := Put(e, k, Dirent(inum, Canon(name))))];
      return 0;
    }

    /** `isdirempty` */
    method IsDirEmpty(dp: int) returns (r: bool)
      requires 0 <= dp < |nodes| && IsDir(nodes[dp])
      ensures r <==> NoNames(nodes[dp].entries)
    {
      var k := 2;
      while k < |nodes[dp].entries|
        invariant 2 <= k && forall j :: 2 <= j < k && j < |nodes[dp].entries| ==> nodes[dp].entries[j].inum == 0
      {
        if nodes[dp].entries[k].inum != 0 {
          return false;
        }
        k := k + 1;
      }
      return true;
    }

    /** `ialloc`: the first unused inode; the number of inodes stands for the panic. */
    method Ialloc(kind: Kind) returns (i: nat)
      requires |nodes| > 0
      modifies this`nodes
      ensures 0 < i <= |old(nodes)| && forall j :: 0 < j < i ==> old(nodes)[j].Node?
      ensures i == |old(nodes)| ==> nodes == old(nodes)
      ensures i < |old(nodes)| ==> old(nodes)[i].Unused? && nodes == old(nodes)[i := Node(kind, 0, [])]
    {
      i := 1;
      while i < |nodes|
        invariant 0 < i <= |nodes| && nodes == old(nodes) && forall j :: 0 < j < i ==> nodes[j].Node?
      {
        if nodes[i].Unused? {
          nodes := nodes[i := Node(kind, 0, [])];
          return;
        }
        i := i + 1;
      }
    }

    /** `create` in a linked directory. It returns the inode, or 0; a name in use gives its
        inode only if both are files. Running out of inodes is a panic. */
    method Create(dp: int, name: CString, kind: Kind) returns (ip: int)
      requires Valid() && 0 < dp < |nodes| && Linked(nodes[dp])
      requires Lookup(nodes[dp].entries, name, 0) == |nodes[dp].entries| ==>
        exists i :: 0 < i < |nodes| && nodes[i].Unused?
      modifies this
      ensures Valid()
      ensures Lookup(old(nodes)[dp].entries, name, 0) < |old(nodes)[dp].entries| ==>
        && nodes == old(nodes)
        && var i := Inum(nodes[dp].entries, name);
           && 0 < i < |nodes| && nodes[i].Node?
           && ip == if kind == T_FILE && nodes[i].kind == T_FILE then i else 0
      ensures Lookup(old(nodes)[dp].entries, name, 0) == |old(nodes)[dp].entries| ==>
        && 0 < ip < |old(nodes)| && old(nodes)[ip].Unused? && (forall j :: 0 < j < ip ==> old(nodes)[j].Node?)
        && nodes == Created(old(nodes), dp, ip, name, kind)
        && CreatedAs(old(nodes), nodes, dp, ip, name, kind)
    {
      assert DirOk(nodes, dp);
      var k := Dirlookup(dp, name);
      if k < |nodes[dp].entries| {
        ip := nodes[dp].entries[k].inum;
        if kind == T_FILE && nodes[ip].kind == T_FILE {
          return ip;
        }
        return 0;
      }
      ip := MakeNode(dp, name, kind);
      CreateDoes(old(nodes), dp, ip, name, kind);
    }

    /** The rest of `create`, for a name that is not there. */
    method MakeNode(dp: int, name: CString, kind: Kind) returns (i: int)
      requires Valid() && 0 < dp < |nodes| && Linked(nodes[dp])
      requires Lookup(nodes[dp].entries, name, 0) == |nodes[dp].entries|
      requires exists i :: 0 < i < |nodes| && nodes[i].Unused?
      modifies this
      ensures Valid() && 0 < i < |old(nodes)| && old(nodes)[i].Unused? && forall j :: 0 < j < i ==> old(nodes)[j].Node?
      ensures nodes == Created(old(nodes), dp, i, name, kind)
    {
      ghost var was, homes, depths := nodes, home, depth;
      i := NewNode(dp, name, kind);
      home := home[i := Home(dp, FreeSlot(was[dp].entries, 0))];
      depth := depth[i := DepthOf(depth, dp) + 1];
      CreateSound(was, homes, depths, dp, i, name, kind);
    }

    /** `ialloc` and what follows it. */
    method NewNode(dp: int, name: CString, kind: Kind) returns (i: int)
      requires 0 < dp < |nodes| && IsDir(nodes[dp]) && Lookup(nodes[dp].entries, name, 0) == |nodes[dp].entries|
      requires exists i :: 0 < i < |nodes| && nodes[i].Unused?
      modifies this`nodes
      ensures CanCreate(old(nodes), dp, i, name) && forall j :: 0 < j < i ==> old(nodes)[j].Node?
      ensures nodes == Created(old(nodes), dp, i, name, kind)
    {
      i := Ialloc(kind);
      SameCreated(old(nodes), Node(kind, 0, []), dp, i, name, kind);
      FillNode(dp, i, name, kind);
    }

    /** `create` after `ialloc`. */
    method FillNode(dp: int, i: int, name: CString, kind: Kind)
      requires 0 < dp < |nodes| && IsDir(nodes[dp]) && Lookup(nodes[dp].entries, name, 0) == |nodes[dp].entries|
      requires 0 < i < |nodes| && i != dp && nodes[i] == Node(kind, 0, [])
      modifies this`nodes
      ensures nodes == Created(old(nodes), dp, i, name, kind)
    {
      nodes := nodes[i := nodes[i].(nlink := 1)];
      if kind == T_DIR {
        nodes := nodes[dp := nodes[dp].(nlink := nodes[dp].nlink + 1)];
        Dots(i, dp);
      }
      var r := Dirlink(dp, name, i);
      assert nodes[i] == Newborn(i, dp, kind) && nodes[dp] == Parent(old(nodes)[dp], i, name, kind);
      assert nodes == Created(old(nodes), dp, i, name, kind);
    }

    /** The two entries of a new directory. */
    method Dots(i: int, dp: int)
      requires 0 <= i < |nodes| && IsDir(nodes[i]) && nodes[i].entries == [] && i != 0
      modifies this`nodes
      ensures nodes == old(nodes)[i := old(nodes)[i].(entries := [Dirent(i, "."), Dirent(dp, "..")])]
    {
      var r := Dirlink(i, ".", i);
      assert nodes[i].entries == [Dirent(i, ".")];
      r := Dirlink(i, "..", dp);
      assert nodes[i].entries == [Dirent(i, "."), Dirent(dp, "..")];
    }

    /** `sys_link` for an inode and a directory that were found; the directory is linked. */
    method Link(ip: int, dp: int, name: CString) returns (r: int)
      requires Valid() && 0 < ip < |nodes| && nodes[ip].Node? && 0 < dp < |nodes| && Linked(nodes[dp])
      modifies this`nodes
      ensures Valid()
      ensures r == 0 <==> !IsDir(old(nodes)[ip]) && Lookup(old(nodes)[dp].entries, name, 0) == |old(nodes)[dp].entries|
      ensures nodes == if r == 0 then LinkedTo(old(nodes), ip, dp, name) else old(nodes)
      ensures r == 0 ==> LinkedAs(old(nodes), nodes, ip, dp, name)
    {
      if nodes[ip].kind == T_DIR {
        return -1;
      }
      nodes := nodes[ip := nodes[ip].(nlink := nodes[ip].nlink + 1)];
      r := Dirlink(dp, name, ip);
      if r < 0 {
        nodes := nodes[ip := nodes[ip].(nlink := nodes[ip].nlink - 1)];
        assert nodes == old(nodes);
        return -1;
      }
      assert nodes == LinkedTo(old(nodes), ip, dp, name);
      LinkSound(old(nodes), home, depth, ip, dp, name);
      LinkDoes(old(nodes), ip, dp, name);
    }

    /** `sys_unlink` in a directory that was found, linked or not. */
    method Unlink(dp: int, name: CString) returns (r: int)
      requires Valid() && 0 < dp < |nodes| && IsDir(nodes[dp])
      modifies this`nodes
      ensures Valid()
      ensures r == 0 <==> CanRemove(old(nodes), dp, name)
      ensures nodes == if r == 0 then Unlinked(old(nodes), dp, Lookup(old(nodes)[dp].entries, name, 0)) else old(nodes)
      ensures r == 0 ==> Removed(old(nodes), nodes, dp, name)
    {
      if Canon(name) == "." || Canon(name) == ".." {
        return -1;
      }
      var k := Dirlookup(dp, name);
      if k == |nodes[dp].entries| {
        return -1;
      }
      NamedSlot(nodes, home, dp, name);
      var ip := nodes[dp].entries[k].inum;
      if nodes[ip].kind == T_DIR {
        var empty := IsDirEmpty(ip);
        if !empty {
          return -1;
        }
      }
      RemoveName(dp, name, k);
      return 0;
    }

    /** The rest of `sys_unlink`, for a name that can be removed. */
    method RemoveName(dp: int, name: CString, k: nat)
      requires Valid() && 0 < dp < |nodes| && IsDir(nodes[dp]) && CanRemove(nodes, dp, name)
      requires k == Lookup(nodes[dp].entries, name, 0)
      modifies this`nodes
      ensures Valid() && nodes == Unlinked(old(nodes), dp, k) && Removed(old(nodes), nodes, dp, name)
    {
      NamedSlot(nodes, home, dp, name);
      NotItself(nodes, home, dp, name);
      UnlinkSound(nodes, home, depth, dp, k);
      RemoveDoes(nodes, home, dp, name);
      Remove(dp, k);
    }

    method Remove(dp: int, k: nat)
      requires 0 <= dp < |nodes| && nodes[dp].Node? && k < |nodes[dp].entries|
      requires 0 <= nodes[dp].entries[k].inum < |nodes| && nodes[nodes[dp].entries[k].inum].Node?
      requires nodes[dp].entries[k].inum != dp
      modifies this`nodes
      ensures nodes == Unlinked(old(nodes), dp, k)
    {
      var ip := nodes[dp].entries[k].inum;
      nodes := nodes[dp := nodes[dp].(entries := Put(nodes[dp].entries, k, EMPTY))];
      if nodes[ip].kind == T_DIR {
        nodes := nodes[dp := nodes[dp].(nlink := nodes[dp].nlink - 1)];
      }
      nodes := nodes[ip := nodes[ip].(nlink := nodes[ip].nlink - 1)];
      assert nodes == Unlinked(old(nodes), dp, k);
    }

    /** `iput` of the last reference. */
    method Iput(i: int)
      requires Valid() && 0 < i < |nodes| && nodes[i].Node?
      modifies this`nodes
      ensures Valid() && nodes == if old(nodes)[i].nlink == 0 then old(nodes)[i := Unused] else old(nodes)
    {
      if nodes[i].nlink == 0 {
        FreeSound(nodes, home, depth, i);
        nodes := nodes[i := Unused];
      }
    }
  }

  lemma SameCreated(nodes: seq<Node>, n: Node, dp: int, i: int, name: CString, kind: Kind)
    requires 0 <= dp < |nodes| && 0 <= i < |nodes| && i != dp && nodes[dp].Node?
    ensures Created(nodes[i := n], dp, i, name, kind) == Created(nodes, dp, i, name, kind)
  {
  }

  lemma RootAlone(nodes: seq<Node>)
    requires OnlyRoot(nodes)
    ensures Sound(nodes, map[], map[])
  {
    forall i | 0 < i < |nodes| ensures CountOk(nodes, i) {
      assert Inums(nodes[ROOT].entries[1..]) == [ROOT];
      OnlyHere(nodes, ROOT, i, |nodes|);
    }
    assert DirOk(nodes, ROOT);
  }

  /** When a name can be removed: it is there, is not "." or "..", and is not that of a
      directory with names in it. */
  ghost predicate CanRemove(nodes: seq<Node>, dp: int, name: CString)
    requires 0 <= dp < |nodes| && IsDir(nodes[dp])
  {
    var k := Lookup(nodes[dp].entries, name, 0);
    && Canon(name) != "." && Canon(name) != ".." && k < |nodes[dp].entries|
    && var ip := nodes[dp].entries[k].inum;
    0 <= ip < |nodes| && nodes[ip].Node? && (IsDir(nodes[ip]) ==> NoNames(nodes[ip].entries))
  }

  /** A directory that is no longer linked has no name but "." and "..", so a name that can
      be removed is in a linked one, after the first two slots. */
  lemma NamedSlot(nodes: seq<Node>, home: map<int, Home>, dp: int, name: CString)
    requires Inv(nodes, home) && 0 < dp < |nodes| && IsDir(nodes[dp]) && Canon(name) != "." && Canon(name) != ".."
    requires Lookup(nodes[dp].entries, name, 0) < |nodes[dp].entries|
    ensures var k := Lookup(nodes[dp].entries, name, 0);
      Linked(nodes[dp]) && k >= 2 && 0 < nodes[dp].entries[k].inum < |nodes| && nodes[nodes[dp].entries[k].inum].Node?
  {
    assert DirOk(nodes, dp);
  }

  lemma RemoveDoes(nodes: seq<Node>, home: map<int, Home>, dp: int, name: CString)
    requires Inv(nodes, home) && 0 < dp < |nodes| && IsDir(nodes[dp]) && CanRemove(nodes, dp, name)
    ensures var k := Lookup(nodes[dp].entries, name, 0);
      Removed(nodes, Unlinked(nodes, dp, k), dp, name)
  {
    NamedSlot(nodes, home, dp, name);
    NotItself(nodes, home, dp, name);
    UnlinkDoes(nodes, dp, name);
  }

  /** No name but "." and ".." of a directory is its own. */
  lemma NotItself(nodes: seq<Node>, home: map<int, Home>, dp: int, name: CString)
    requires Inv(nodes, home) && 0 < dp < |nodes| && IsDir(nodes[dp]) && CanRemove(nodes, dp, name)
    ensures Names(nodes[dp].entries) && nodes[dp].entries[Lookup(nodes[dp].entries, name, 0)].inum != dp
  {
    assert DirOk(nodes, dp);
  }

  // ----- every run

  datatype Action =
    | DoCreate(dp: int, i: int, name: CString, kind: Kind)
    | DoLink(ip: int, dp: int, name: CString)
    | DoUnlink(dp: int, name: CString)
    | DoFree(i: int)

  datatype State = State(nodes: seq<Node>, home: map<int, Home>)

  /** When a call gets through. New names go into directories that are still linked; a name is
      removed from any directory. */
  ghost predicate Enabled(s: State, a: Action) {
    match a
    case DoCreate(dp, i, name, kind) => CanCreate(s.nodes, dp, i, name) && Linked(s.nodes[dp])
    case DoLink(ip, dp, name) => CanLink(s.nodes, ip, dp, name) && Linked(s.nodes[dp])
    case DoUnlink(dp, name) => 0 < dp < |s.nodes| && IsDir(s.nodes[dp]) && CanRemove(s.nodes, dp, name)
    case DoFree(i) => 0 < i < |s.nodes| && s.nodes[i].Node? && s.nodes[i].nlink == 0
  }

  ghost function Apply(s: State, a: Action): State
    requires Enabled(s, a)
  {
    match a
    case DoCreate(dp, i, name, kind) =>
      State(Created(s.nodes, dp, i, name, kind), s.home[i := Home(dp, FreeSlot(s.nodes[dp].entries, 0))])
    case DoLink(ip, dp, name) => s.(nodes := LinkedTo(s.nodes, ip, dp, name))
    case DoUnlink(dp, name) => s.(nodes := Unlinked(s.nodes, dp, Lookup(s.nodes[dp].entries, name, 0)))
    case DoFree(i) => s.(nodes := s.nodes[i := Unused])
  }

  /** The root directory of a new file system, and nothing else. */
  ghost predicate OnlyRoot(nodes: seq<Node>) {
    && |nodes| > ROOT && nodes[ROOT] == Node(T_DIR, 1, [Dirent(ROOT, "."), Dirent(ROOT, "..")])
    && forall i :: 0 <= i < |nodes| && i != ROOT ==> nodes[i].Unused?
  }

  ghost predicate IsRun(run: seq<State>, trace: seq<Action>) {
    && |run| == |trace| + 1 && OnlyRoot(run[0].nodes) && run[0].home == map[]
    && forall i :: 0 <= i < |trace| ==> Enabled(run[i], trace[i]) && run[i + 1] == Apply(run[i], trace[i])
  }

  /** How deep the directories are after a step. */
  ghost function Deeper(a: Action, depth: map<int, nat>): map<int, nat> {
    if a.DoCreate? then depth[a.i := DepthOf(depth, a.dp) + 1] else depth
  }

  lemma SoundStep(s: State, a: Action, depth: map<int, nat>)
    requires Sound(s.nodes, s.home, depth) && Enabled(s, a)
    ensures Sound(Apply(s, a).nodes, Apply(s, a).home, Deeper(a, depth))
  {
    match a
    case DoCreate(dp, i, name, kind) => CreateSound(s.nodes, s.home, depth, dp, i, name, kind);
    case DoLink(ip, dp, name) => LinkSound(s.nodes, s.home, depth, ip, dp, name);
    case DoUnlink(dp, name) =>
      NamedSlot(s.nodes, s.home, dp, name);
      UnlinkSound(s.nodes, s.home, depth, dp, Lookup(s.nodes[dp].entries, name, 0));
    case DoFree(i) => FreeSound(s.nodes, s.home, depth, i);
  }

  lemma {:induction false} RunSound(run: seq<State>, trace: seq<Action>, n: nat) returns (depth: map<int, nat>)
    requires IsRun(run, trace) && n < |run|
    ensures Sound(run[n].nodes, run[n].home, depth)
  {
    if n == 0 {
      RootAlone(run[0].nodes);
      depth := map[];
    } else {
      var before := RunSound(run, trace, n - 1);
      SoundStep(run[n - 1], trace[n - 1], before);
      depth := Deeper(trace[n - 1], before);
    }
  }

  lemma RunInv(run: seq<State>, trace: seq<Action>, n: nat)
    requires IsRun(run, trace) && n < |run|
    ensures Inv(run[n].nodes, run[n].home)
  {
    var depth := RunSound(run, trace, n);
  }

  /** Every call of every run has its effect and no other. */
  lemma CallsHaveTheirEffect(run: seq<State>, trace: seq<Action>, n: nat)
    requires IsRun(run, trace) && n < |trace|
    ensures match trace[n]
      case DoCreate(dp, i, name, kind) => CreatedAs(run[n].nodes, run[n + 1].nodes, dp, i, name, kind)
      case DoLink(ip, dp, name) => LinkedAs(run[n].nodes, run[n + 1].nodes, ip, dp, name)
      case DoUnlink(dp, name) => Removed(run[n].nodes, run[n + 1].nodes, dp, name)
      case DoFree(i) => run[n + 1].nodes == run[n].nodes[i := Unused]
  {
    RunInv(run, trace, n);
    match trace[n]
    case DoCreate(dp, i, name, kind) => CreateDoes(run[n].nodes, dp, i, name, kind);
    case DoLink(ip, dp, name) => LinkDoes(run[n].nodes, ip, dp, name);
    case DoUnlink(dp, name) => RemoveDoes(run[n].nodes, run[n].home, dp, name);
    case DoFree(i) =>
  }

  /** At every point of every run the linked directories are a tree: from each of them ".." leads up
      to the root through directories that name the one before, and each is named in one slot. */
  lemma DirectoriesAreTree(run: seq<State>, trace: seq<Action>, n: nat, c: int) returns (path: seq<int>)
    requires IsRun(run, trace) && n < |run| && 0 <= c < |run[n].nodes| && Linked(run[n].nodes[c])
    ensures Climbs(run[n].nodes, path) && path[0] == c && path[|path| - 1] == ROOT
    ensures forall d, k, d', k' :: NamesDir(run[n].nodes, d, k, c) && NamesDir(run[n].nodes, d', k', c) ==>
      d == d' && k == k'
  {
    var depth := RunSound(run, trace, n);
    path := ClimbsToRoot(run[n].nodes, run[n].home, depth, c);
    forall d, k, d', k' | NamesDir(run[n].nodes, d, k, c) && NamesDir(run[n].nodes, d', k', c)
      ensures d == d' && k == k'
    {
      OnePlace(run[n].nodes, run[n].home, d, k, d', k');
    }
  }

  /** Slot k of the linked directory d, after "." and "..", is directory c. */
  ghost predicate NamesDir(nodes: seq<Node>, d: int, k: int, c: int) {
    && 0 <= d < |nodes| && Linked(nodes[d]) && 2 <= k < |nodes[d].entries|
    && 0 < c < |nodes| && IsDir(nodes[c]) && nodes[d].entries[k].inum == c
  }

  /** At every point of every run: an inode's link count is the number of names it has other
      than "."; every directory starts with "." for itself and ".."; no name is in it twice. */
  lemma LinkCountsAreNames(run: seq<State>, trace: seq<Action>, n: nat, i: int)
    requires IsRun(run, trace) && n < |run| && 0 < i < |run[n].nodes| && run[n].nodes[i].Node?
    ensures run[n].nodes[i].nlink == AllLinks(run[n].nodes, i)
    ensures IsDir(run[n].nodes[i]) ==>
      var e := run[n].nodes[i].entries; |e| >= 2 && e[0] == Dirent(i, ".") && e[1].name == ".." && Names(e)
  {
    RunInv(run, trace, n);
    assert CountOk(run[n].nodes, i);
    if IsDir(run[n].nodes[i]) { assert DirOk(run[n].nodes, i); }
  }

  /** It does happen that `create` and `link` find their directory unlinked: make a directory and
      a file, remove the directory while it is still in use. A file created in it, or linked into
      it, then counts a name that no linked directory has. */
  lemma UnlinkedParentHappens(nodes: seq<Node>) returns (run: seq<State>, trace: seq<Action>)
    requires OnlyRoot(nodes) && |nodes| > 4
    ensures IsRun(run, trace) && |trace| == 3 && |run[3].nodes| > 4 && !Linked(run[3].nodes[2])
    ensures CanCreate(run[3].nodes, 2, 4, "f") && !Counts(Created(run[3].nodes, 2, 4, "f", T_FILE))
    ensures CanLink(run[3].nodes, 3, 2, "f") && !Counts(LinkedTo(run[3].nodes, 3, 2, "f"))
  {
    var s0 := State(nodes, map[]);
    trace := [DoCreate(ROOT, 2, "d", T_DIR), DoCreate(ROOT, 3, "g", T_FILE), DoUnlink(ROOT, "d")];
    var s1 := Apply(s0, trace[0]);
    MadeDirectory(nodes, s1.nodes);
    var s2 := Apply(s1, trace[1]);
    MadeFile(s1.nodes, s2.nodes);
    var s3 := Apply(s2, trace[2]);
    run := [s0, s1, s2, s3];
    assert s3.nodes[2] == Node(T_DIR, 0, [Dirent(2, "."), Dirent(ROOT, "..")]);
    RunInv(run, trace, 3);
    CreateNeedsLinkedParent(s3.nodes, s3.home, 2, 4, "f", T_FILE);
    LinkNeedsLinkedParent(s3.nodes, s3.home, 3, 2, "f");
  }

  lemma MadeDirectory(nodes: seq<Node>, nodes': seq<Node>)
    requires OnlyRoot(nodes) && |nodes| > 4 && nodes' == Created(nodes, ROOT, 2, "d", T_DIR)
    ensures nodes'[ROOT] == Node(T_DIR, 2, [Dirent(ROOT, "."), Dirent(ROOT, ".."), Dirent(2, "d")])
    ensures nodes'[2] == Node(T_DIR, 1, [Dirent(2, "."), Dirent(ROOT, "..")]) && nodes'[3].Unused? && nodes'[4].Unused?
    ensures Lookup(nodes'[ROOT].entries, "g", 0) == 3
  {
  }

  lemma MadeFile(nodes: seq<Node>, nodes': seq<Node>)
    requires |nodes| > 4 && nodes[ROOT] == Node(T_DIR, 2, [Dirent(ROOT, "."), Dirent(ROOT, ".."), Dirent(2, "d")])
    requires nodes' == Created(nodes, ROOT, 3, "g", T_FILE)
    ensures nodes'[ROOT] == Node(T_DIR, 2, [Dirent(ROOT, "."), Dirent(ROOT, ".."), Dirent(2, "d"), Dirent(3, "g")])
    ensures nodes'[3] == Node(T_FILE, 1, []) && nodes'[2] == nodes[2] && nodes'[4] == nodes[4]
    ensures Lookup(nodes'[ROOT].entries, "d", 0) == 2
  {
    var e := nodes[ROOT].entries;
    assert FreeSlot(e, 1) == FreeSlot(e, 2) == FreeSlot(e, 3) == 3;
  }
}
