/** What create, link and unlink change, said of the inodes before and after alone: which name leads
    where, the link counts, and that nothing else changes. */
module DirEffects {
  import opened DirSpec
  import opened DirTree

  /** Where a name leads, 0 if the directory does not have it. */
  function Inum(entries: seq<Dirent>, name: CString): int {
    var k := Lookup(entries, name, 0);
    if k < |entries| then entries[k].inum else 0
  }

  /** The name leads to inum and every other name where it did. */
  ghost predicate Renamed(entries: seq<Dirent>, after: seq<Dirent>, name: CString, inum: int) {
    && Inum(after, name) == inum
    && forall n: CString :: Canon(n) != Canon(name) ==> Inum(after, n) == Inum(entries, n)
  }

  ghost predicate SameBut(nodes: seq<Node>, after: seq<Node>, a: int, b: int) {
    |after| == |nodes| && forall i :: 0 <= i < |nodes| && i != a && i != b ==> after[i] == nodes[i]
  }

  ghost predicate InDir(nodes: seq<Node>, after: seq<Node>, dp: int, name: CString, inum: int, more: int) {
    && 0 <= dp < |nodes| == |after| && IsDir(nodes[dp]) && IsDir(after[dp])
    && Renamed(nodes[dp].entries, after[dp].entries, name, inum) && after[dp].nlink == nodes[dp].nlink + more
  }

  /** The new name leads to an inode that was unused and has the kind and one link; a new directory
      has "." and "..", which counts as a link to dp. */
  ghost predicate CreatedAs(nodes: seq<Node>, after: seq<Node>, dp: int, i: int, name: CString, kind: Kind) {
    && 0 < i < |nodes| && nodes[i].Unused? && i != dp && SameBut(nodes, after, dp, i)
    && InDir(nodes, after, dp, name, i, if kind == T_DIR then 1 else 0)
    && after[i].Node? && after[i].kind == kind && after[i].nlink == 1
    && (kind != T_DIR ==> after[i].entries == [])
    && (kind == T_DIR ==>
         |after[i].entries| == 2 && Inum(after[i].entries, ".") == i && Inum(after[i].entries, "..") == dp)
  }

  /** The new name leads to the inode, which has one link more. */
  ghost predicate LinkedAs(nodes: seq<Node>, after: seq<Node>, ip: int, dp: int, name: CString) {
    && 0 < ip < |nodes| && nodes[ip].Node? && ip != dp && SameBut(nodes, after, dp, ip)
    && InDir(nodes, after, dp, name, ip, 0) && after[ip] == nodes[ip].(nlink := nodes[ip].nlink + 1)
  }

  /** The name leads nowhere, and the inode it led to has one link less; so has dp if that was a
      directory. */
  ghost predicate Removed(nodes: seq<Node>, after: seq<Node>, dp: int, name: CString) {
    && 0 <= dp < |nodes| && IsDir(nodes[dp])
    && var ip := Inum(nodes[dp].entries, name);
       && 0 < ip < |nodes| && nodes[ip].Node? && ip != dp && SameBut(nodes, after, dp, ip)
       && InDir(nodes, after, dp, name, 0, if IsDir(nodes[ip]) then -1 else 0)
       && after[ip] == nodes[ip].(nlink := nodes[ip].nlink - 1)
  }

  lemma PutRenames(entries: seq<Dirent>, name: CString, inum: int)
    requires Lookup(entries, name, 0) == |entries| && inum != 0
    ensures Renamed(entries, Put(entries, FreeSlot(entries, 0), Dirent(inum, Canon(name))), name, inum)
  {
    var k := FreeSlot(entries, 0);
    var after := Put(entries, k, Dirent(inum, Canon(name)));
    assert Lookup(after, name, 0) == k;
    forall n: CString | Canon(n) != Canon(name) ensures Inum(after, n) == Inum(entries, n) {
      SameInum(entries, after, k, n);
    }
  }

  lemma ClearRenames(entries: seq<Dirent>, name: CString)
    requires Names(entries) && Lookup(entries, name, 0) < |entries|
    ensures Renamed(entries, Put(entries, Lookup(entries, name, 0), EMPTY), name, 0)
  {
    var k := Lookup(entries, name, 0);
    var after := Put(entries, k, EMPTY);
    assert forall j :: 0 <= j < |after| && after[j].inum != 0 ==> after[j].name != Canon(name);
    forall n: CString | Canon(n) != Canon(name) ensures Inum(after, n) == Inum(entries, n) {
      SameInum(entries, after, k, n);
    }
  }

  /** A slot that is not the name's, before or after, does not matter to it. */
  lemma SameInum(entries: seq<Dirent>, after: seq<Dirent>, k: nat, n: CString)
    requires k <= |entries| && |after| == (if k == |entries| then |entries| + 1 else |entries|)
    requires forall j :: 0 <= j < |entries| && j != k ==> after[j] == entries[j]
    requires k < |entries| ==> entries[k].inum == 0 || entries[k].name != Canon(n)
    requires after[k].inum == 0 || after[k].name != Canon(n)
    ensures Inum(after, n) == Inum(entries, n)
  {
    var a, b := Lookup(entries, n, 0), Lookup(after, n, 0);
    if a < |entries| { assert after[a] == entries[a]; }
    if b < |after| { assert entries[b] == after[b]; }
  }

  lemma CreateDoes(nodes: seq<Node>, dp: int, i: int, name: CString, kind: Kind)
    requires CanCreate(nodes, dp, i, name)
    ensures CreatedAs(nodes, Created(nodes, dp, i, name, kind), dp, i, name, kind)
  {
    PutRenames(nodes[dp].entries, name, i);
    if kind == T_DIR { DotsFound(i, dp); }
  }

  lemma DotsFound(i: int, dp: int)
    requires i != 0 && dp != 0
    ensures Inum([Dirent(i, "."), Dirent(dp, "..")], ".") == i
    ensures Inum([Dirent(i, "."), Dirent(dp, "..")], "..") == dp
  {
    var e := [Dirent(i, "."), Dirent(dp, "..")];
    assert Lookup(e, "..", 0) == Lookup(e, "..", 1) == 1;
  }

  lemma LinkDoes(nodes: seq<Node>, ip: int, dp: int, name: CString)
    requires CanLink(nodes, ip, dp, name)
    ensures LinkedAs(nodes, LinkedTo(nodes, ip, dp, name), ip, dp, name)
  {
    PutRenames(nodes[dp].entries, name, ip);
  }

  lemma UnlinkDoes(nodes: seq<Node>, dp: int, name: CString)
    requires 0 <= dp < |nodes| && IsDir(nodes[dp]) && Names(nodes[dp].entries)
    requires var e := nodes[dp].entries;
      var k := Lookup(e, name, 0);
      k < |e| && 0 < e[k].inum < |nodes| && e[k].inum != dp && nodes[e[k].inum].Node?
    ensures Removed(nodes, Unlinked(nodes, dp, Lookup(nodes[dp].entries, name, 0)), dp, name)
  {
    ClearRenames(nodes[dp].entries, name);
  }
}
