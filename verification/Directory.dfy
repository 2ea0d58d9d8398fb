/** Directories of fs.c: dirlookup() and dirlink() over the inode contents, and namex() on top
    of them. */
module Directory {
  import opened Common
  import opened Blocks
  import opened FileContent
  import opened FileSystem
  import Inodes
  import DiskLayout
  import Names
  import Space

  type Name = Names.Bytestring

  const ENTRY: nat := 16  // sizeof(struct dirent)

  // ----- a directory as a map -----

  /** The j-th struct dirent, its inode number and its name. */
  function Raw(c: seq<byte>, j: nat): (e: seq<byte>)
    requires j * ENTRY + ENTRY <= |c|
    ensures |e| == ENTRY
  {
    c[j * ENTRY..j * ENTRY + ENTRY]
  }

  function InumIn(e: seq<byte>): nat
    requires |e| == ENTRY
  {
    var lo: int, hi: int := e[0], e[1];
    lo + 256 * hi
  }

  function NameIn(e: seq<byte>): Name
    requires |e| == ENTRY
  {
    Names.Upto(e[2..], Names.DIRSIZ)
  }

  function Inum(c: seq<byte>, j: nat): nat
    requires j * ENTRY + ENTRY <= |c|
  {
    InumIn(Raw(c, j))
  }

  function NameOf(c: seq<byte>, j: nat): Name
    requires j * ENTRY + ENTRY <= |c|
  {
    NameIn(Raw(c, j))
  }

  /** The entries in use among the first n, the first of a name counting. */
  ghost function MapTo(c: seq<byte>, n: nat): map<Name, nat>
    requires n * ENTRY <= |c|
  {
    if n == 0 then map[]
    else
      var m := MapTo(c, n - 1);
      if Inum(c, n - 1) != 0 && NameOf(c, n - 1) !in m then m[NameOf(c, n - 1) := Inum(c, n - 1)] else m
  }

  ghost function DirMap(c: seq<byte>): map<Name, nat> {
    MapTo(c, |c| / ENTRY)
  }

  /** No name has two entries in use. */
  ghost predicate UniqueNames(c: seq<byte>) {
    forall i, j :: 0 <= i < j < |c| / ENTRY && Inum(c, i) != 0 && Inum(c, j) != 0 ==> NameOf(c, i) != NameOf(c, j)
  }

  lemma {:induction false} MapToAbsent(c: seq<byte>, n: nat, name: Name)
    requires n * ENTRY <= |c|
    ensures name !in MapTo(c, n) <==> forall j :: 0 <= j < n && Inum(c, j) != 0 ==> NameOf(c, j) != name
  {
    hide Inum, NameOf;
    if n == 0 {
    } else {
      MapToAbsent(c, n - 1, name);
    }
  }

  lemma {:induction false} MapToFirst(c: seq<byte>, n: nat, j: nat)
    requires n * ENTRY <= |c| && j < n && Inum(c, j) != 0
    requires forall k :: 0 <= k < j && Inum(c, k) != 0 ==> NameOf(c, k) != NameOf(c, j)
    ensures NameOf(c, j) in MapTo(c, n) && MapTo(c, n)[NameOf(c, j)] == Inum(c, j)
  {
    hide Inum, NameOf;
    if j < n - 1 {
      MapToFirst(c, n - 1, j);
    } else {
      MapToAbsent(c, j, NameOf(c, j));
    }
  }

  /** The bytes of struct dirent, whose inum is 16 bits wide. */
  function Encoded(inum: nat, name: Name): (e: seq<byte>)
    requires |name| <= Names.DIRSIZ
    ensures |e| == ENTRY
  {
    [inum % 256, inum / 256 % 256] + Names.Padded(name, Names.DIRSIZ)
  }

  lemma DecodeEncoded(inum: nat, name: Name)
    requires |name| <= Names.DIRSIZ && 0 !in name
    ensures InumIn(Encoded(inum, name)) == inum % 65536 && NameIn(Encoded(inum, name)) == name
  {
    var e := Encoded(inum, name);
    assert e[2..] == Names.Padded(name, Names.DIRSIZ);
    Names.PaddedName(name, Names.DIRSIZ);
  }

  /** Writing entry j, in place or at the end, changes that entry only. */
  lemma RawWritten(c: seq<byte>, j: nat, e: seq<byte>, k: nat)
    requires |c| % ENTRY == 0 && j * ENTRY <= |c| && |e| == ENTRY
    requires k * ENTRY + ENTRY <= |Splice(c, j * ENTRY, e)|
    ensures k != j ==> k * ENTRY + ENTRY <= |c|
    ensures Raw(Splice(c, j * ENTRY, e), k) == if k == j then e else Raw(c, k)
  {
  }

  /** c' is c with entry j, unused or new, set. */
  ghost predicate Linked(c: seq<byte>, c': seq<byte>, j: nat, inum: nat, name: Name) {
    && |c| % ENTRY == 0 && |c'| % ENTRY == 0 && j <= |c| / ENTRY && (j < |c| / ENTRY ==> Inum(c, j) == 0)
    && |c'| / ENTRY == (if j < |c| / ENTRY then |c| / ENTRY else j + 1)
    && (forall k :: 0 <= k < |c'| / ENTRY && k != j ==> Inum(c', k) == Inum(c, k) && NameOf(c', k) == NameOf(c, k))
    && Inum(c', j) == inum && NameOf(c', j) == name
  }

  lemma {:induction false} LinkedMapTo(c: seq<byte>, c': seq<byte>, j: nat, inum: nat, name: Name, n: nat)
    requires Linked(c, c', j, inum, name) && n <= |c'| / ENTRY && name !in DirMap(c)
    ensures MapTo(c', n) == (if n <= j then MapTo(c, n)
                             else if inum == 0 then MapTo(c, if n <= |c| / ENTRY then n else n - 1)
                             else MapTo(c, if n <= |c| / ENTRY then n else n - 1)[name := inum])
  {
    hide Inum, NameOf;
    if n == 0 {
    } else {
      LinkedMapTo(c, c', j, inum, name, n - 1);
      MapToAbsent(c, |c| / ENTRY, name);
      MapToAbsent(c, if n <= |c| / ENTRY then n else n - 1, name);
    }
  }

  /** A new entry adds its name to the map and changes no other name. */
  lemma LinkedMap(c: seq<byte>, c': seq<byte>, j: nat, inum: nat, name: Name)
    requires Linked(c, c', j, inum, name) && name !in DirMap(c)
    ensures DirMap(c') == if inum == 0 then DirMap(c) else DirMap(c)[name := inum]
    ensures UniqueNames(c) ==> UniqueNames(c')
  {
    hide Inum, NameOf;
    LinkedMapTo(c, c', j, inum, name, |c'| / ENTRY);
    MapToAbsent(c, |c| / ENTRY, name);
  }

  lemma SpliceLinked(c: seq<byte>, j: nat, inum: nat, name: Name)
    requires |c| % ENTRY == 0 && j <= |c| / ENTRY && (j < |c| / ENTRY ==> Inum(c, j) == 0)
    requires |name| <= Names.DIRSIZ && 0 !in name
    ensures Linked(c, Splice(c, j * ENTRY, Encoded(inum, name)), j, inum % 65536, name)
  {
    hide InumIn, NameIn, Raw, Encoded;
    var e := Encoded(inum, name);
    var c' := Splice(c, j * ENTRY, e);
    forall k | 0 <= k < |c'| / ENTRY
      ensures Raw(c', k) == if k == j then e else (assert k * ENTRY + ENTRY <= |c|; Raw(c, k))
    {
      RawWritten(c, j, e, k);
    }
    DecodeEncoded(inum, name);
  }

  // ----- dirlookup and dirlink -----

  lemma FileBound(fs: FileSys, dp: nat)
    requires fs.Valid() && dp < |fs.tree.inode|
    ensures |fs.File(dp)| == fs.tree.inode[dp].size <= Inodes.MAXBYTES
  {
  }

  /** readi() of one entry; false stands for a short read. */
  method ReadEntry(fs: FileSys, dp: nat, off: uint32) returns (ok: bool, de: seq<byte>)
    requires fs.Valid() && dp < |fs.tree.inode| && off < |fs.File(dp)|
    modifies fs`tree, fs`writes
    ensures fs.tree == old(fs.tree) && fs.writes == old(fs.writes)
    ensures ok <==> off + ENTRY <= |old(fs.File(dp))|
    ensures ok ==> de == old(fs.File(dp))[off..off + ENTRY] && |de| == ENTRY
  {
    hide FileOk, Inodes.Owned, DiskLayout.Represents, Inside;
    FileBound(fs, dp);
    var r := fs.Readi(dp, off, ENTRY);
    return |r.value| == ENTRY, r.value;
  }

  /** One pass of dirlookup()'s loop. */
  method TestEntry(fs: FileSys, dp: nat, name: Name, off: uint32, ghost k: nat) returns (ok: bool, inum: nat, hit: bool)
    requires fs.Valid() && dp < |fs.tree.inode| && Names.Readable(name, Names.DIRSIZ)
    requires off == k * ENTRY && off < |fs.File(dp)|
    modifies fs`tree, fs`writes
    ensures fs.tree == old(fs.tree) && fs.writes == old(fs.writes)
    ensures ok <==> off + ENTRY <= |old(fs.File(dp))|
    ensures ok ==> inum == Inum(old(fs.File(dp)), k)
    ensures ok ==> (hit <==> inum != 0 && NameOf(old(fs.File(dp)), k) == Names.Upto(name, Names.DIRSIZ))
  {
    hide FileOk, Inodes.Owned, DiskLayout.Represents, Inside, Names.Upto;
    ghost var c := fs.File(dp);
    var de;
    ok, de := ReadEntry(fs, dp, off);
    if !ok {
      return false, 0, false;
    }
    assert de == Raw(c, k);
    inum := InumIn(de);
    hit := false;
    if inum != 0 {
      var cmp := Names.Strncmp(name, de[2..], Names.DIRSIZ);
      hit := cmp == 0;
    }
  }

  lemma FirstHit(c: seq<byte>, k: nat)
    requires k * ENTRY + ENTRY <= |c| && Inum(c, k) != 0
    requires forall j :: 0 <= j < k && Inum(c, j) != 0 ==> NameOf(c, j) != NameOf(c, k)
    ensures NameOf(c, k) in DirMap(c) && DirMap(c)[NameOf(c, k)] == Inum(c, k)
    ensures k * ENTRY / ENTRY == k && k * ENTRY % ENTRY == 0
  {
    hide Inum, NameOf;
    MapToFirst(c, |c| / ENTRY, k);
  }

  /** dirlookup(): Done, with the inode number the directory maps the name to and the offset of
      its entry, exactly for a name in the map. For any other name it is Failed, or the panic
      over a last entry that is not whole. */
  method Dirlookup(fs: FileSys, dp: nat, name: Name) returns (r: Outcome<(nat, nat)>)
    requires fs.Valid() && dp < |fs.tree.inode| && Names.Readable(name, Names.DIRSIZ)
    modifies fs`tree, fs`writes
    ensures fs.tree == old(fs.tree) && fs.writes == old(fs.writes)
    ensures r.Done? <==> Names.Upto(name, Names.DIRSIZ) in DirMap(old(fs.File(dp)))
    ensures r.Panic? <==> !r.Done? && |old(fs.File(dp))| % ENTRY != 0
    ensures r.Done? ==> r.value.0 == DirMap(old(fs.File(dp)))[Names.Upto(name, Names.DIRSIZ)]
    ensures r.Done? ==>
              && r.value.1 % ENTRY == 0 && r.value.1 + ENTRY <= |old(fs.File(dp))| && r.value.0 != 0
              && Inum(old(fs.File(dp)), r.value.1 / ENTRY) == r.value.0
              && NameOf(old(fs.File(dp)), r.value.1 / ENTRY) == Names.Upto(name, Names.DIRSIZ)
  {
    hide FileOk, Inodes.Owned, DiskLayout.Represents, Inside, Names.Upto, MapTo, InumIn, NameIn, Raw;
    ghost var c := fs.File(dp);
    FileBound(fs, dp);
    var off := 0;
    ghost var k := 0;
    while off < fs.tree.inode[dp].size
      invariant off == k * ENTRY <= |c| && fs.tree == old(fs.tree) && fs.writes == old(fs.writes)
      invariant forall j :: 0 <= j < k && Inum(c, j) != 0 ==> NameOf(c, j) != Names.Upto(name, Names.DIRSIZ)
    {
      var ok, inum, hit := TestEntry(fs, dp, name, off, k);
      if !ok {
        MapToAbsent(c, |c| / ENTRY, Names.Upto(name, Names.DIRSIZ));
        return Panic;
      }
      if hit {
        FirstHit(c, k);
        return Done((inum, off));
      }
      off := off + ENTRY;
      k := k + 1;
    }
    MapToAbsent(c, |c| / ENTRY, Names.Upto(name, Names.DIRSIZ));
    return Failed;
  }

  /** All entries before the k-th are in use, and the k-th is not or would be a new one. */
  ghost predicate IsPlace(c: seq<byte>, k: nat)
    requires |c| % ENTRY == 0
  {
    && k * ENTRY <= |c|
    && (forall j :: 0 <= j < k ==> Inum(c, j) != 0)
    && (k * ENTRY < |c| ==> Inum(c, k) == 0)
  }

  /** The search for an unused entry in dirlink(): its number k and offset, or those of the
      end of the directory. */
  method FindUnused(fs: FileSys, dp: nat) returns (off: nat, ghost k: nat)
    requires fs.Valid() && dp < |fs.tree.inode| && |fs.File(dp)| % ENTRY == 0
    modifies fs`tree, fs`writes
    ensures fs.tree == old(fs.tree) && fs.writes == old(fs.writes)
    ensures off == k * ENTRY && IsPlace(old(fs.File(dp)), k) && k == Place(old(fs.File(dp)), 0)
  {
    hide FileOk, Inodes.Owned, DiskLayout.Represents, Inside, InumIn;
    ghost var c := fs.File(dp);
    FileBound(fs, dp);
    off, k := 0, 0;
    while off < fs.tree.inode[dp].size
      invariant off == k * ENTRY <= |c| && fs.tree == old(fs.tree) && fs.writes == old(fs.writes)
      invariant forall j :: 0 <= j < k ==> Inum(c, j) != 0
    {
      var ok, de := ReadEntry(fs, dp, off);
      assert de == Raw(c, k);
      if InumIn(de) == 0 {
        break;
      }
      off := off + ENTRY;
      k := k + 1;
    }
    PlaceIs(c, k, 0);
  }

  /** The first unused entry from the j-th on, or the end of the directory. */
  ghost function Place(c: seq<byte>, j: nat): nat
    requires |c| % ENTRY == 0
    decreases |c| - j * ENTRY
  {
    if j * ENTRY < |c| && Inum(c, j) != 0 then Place(c, j + 1) else j
  }

  lemma {:induction false} PlaceIs(c: seq<byte>, k: nat, j: nat)
    requires |c| % ENTRY == 0 && j <= k && IsPlace(c, k)
    ensures Place(c, j) == k
    decreases k - j
  {
    hide InumIn, Raw;
    if j == k {
    } else {
      PlaceIs(c, k, j + 1);
    }
  }

  /** Every entry is in use and the file cannot grow. */
  ghost predicate NoRoom(c: seq<byte>) {
    |c| == Inodes.MAXBYTES && forall j: nat :: j * ENTRY + ENTRY <= |c| ==> Inum(c, j) != 0
  }

  /** The last entry is not whole, there is no room for one more, or the place for it lacks more
      blocks than are free. */
  ghost predicate LinkPanics(sb: Inodes.Superblock, st: Inodes.Tree, dp: nat, c: seq<byte>) {
    || |c| % ENTRY != 0 || NoRoom(c)
    || |Space.Lacks(st, dp, Place(c, 0) * ENTRY, ENTRY)| > |Space.Free(st.used)|
  }

  lemma NoRoomIff(c: seq<byte>, k: nat)
    requires |c| % ENTRY == 0 && |c| <= Inodes.MAXBYTES && IsPlace(c, k)
    ensures NoRoom(c) <==> k * ENTRY + ENTRY > Inodes.MAXBYTES
  {
    hide InumIn, Raw;
  }

  /** dirlink(): Failed, with nothing changed, exactly for a name that is there already;
      otherwise the directory maps the name to the (16-bit) inode number as well, and no other
      name or file has changed, or it panics, in exactly the cases of LinkPanics. */
  method Dirlink(fs: FileSys, dp: nat, name: Name, inum: nat) returns (r: Outcome<nat>)
    requires fs.Valid() && dp < |fs.tree.inode| && Names.Readable(name, Names.DIRSIZ)
    modifies fs`tree, fs`dinode, fs`writes
    ensures r.Failed? <==> Names.Upto(name, Names.DIRSIZ) in DirMap(old(fs.File(dp)))
    ensures r.Failed? ==>
              fs.Valid() && fs.tree == old(fs.tree) && fs.dinode == old(fs.dinode) && fs.writes == old(fs.writes)
    ensures r.Panic? <==> !r.Failed? && LinkPanics(fs.sb, old(fs.tree), dp, old(fs.File(dp)))
    ensures r.Panic? ==> |old(fs.File(dp))| % ENTRY != 0 || NoRoom(old(fs.File(dp))) || fs.Full()
    ensures r.Done? ==> fs.Valid() && |fs.tree.inode| == |old(fs.tree.inode)|
    ensures r.Done? ==>
              DirMap(fs.File(dp)) == if inum % 65536 == 0 then DirMap(old(fs.File(dp)))
                                     else DirMap(old(fs.File(dp)))[Names.Upto(name, Names.DIRSIZ) := inum % 65536]
    ensures r.Done? ==> |fs.File(dp)| % ENTRY == 0 && (UniqueNames(old(fs.File(dp))) ==> UniqueNames(fs.File(dp)))
    ensures r.Done? ==> forall j :: 0 <= j < |fs.tree.inode| && j != dp ==> fs.File(j) == old(fs.File(j))
    ensures r.Done? ==> Replaced(fs.sb, old(fs.tree), fs.tree, dp, fs.File(dp))
    ensures r.Done? && old(fs.writes) == [] ==> Allowed(fs.writes, 10)
  {
    hide FileOk, Inodes.Owned, DiskLayout.Represents, Inside, Names.Upto, DirMap, InumIn, Raw, UniqueNames,
         Encoded, NoRoom, Place, Space.Lacks, Space.Free, Space.Filled;
    ghost var c := fs.File(dp);
    FileBound(fs, dp);
    var found := Dirlookup(fs, dp, name);
    if found.Panic? {
      return Panic;
    }
    if found.Done? {
      return Failed;
    }
    var off, k := FindUnused(fs, dp);
    var padded := Names.Strncpy(name, Names.DIRSIZ);
    var de: seq<byte> := [inum % 256, inum / 256 % 256] + padded;
    ghost var key := Names.Upto(name, Names.DIRSIZ);
    EncodedIs(inum, key, de);
    NoRoomIff(c, k);
    var w := fs.Writei(dp, de, off);
    if !w.Done? {
      return Panic;
    }
    SpliceLinked(c, k, inum, key);
    LinkedMap(c, fs.File(dp), k, inum % 65536, key);
    return Done(0);
  }

  lemma EncodedIs(inum: nat, key: Name, de: seq<byte>)
    requires |key| <= Names.DIRSIZ && de == [inum % 256, inum / 256 % 256] + Names.Padded(key, Names.DIRSIZ)
    ensures de == Encoded(inum, key)
  {
  }

  // ----- paths -----

  /** What an inode is for a path: a directory with its map, perhaps with a last entry that is
      not whole, or something else. */
  datatype Node = Other | Dir(names: map<Name, nat>, whole: bool)

  type Dirs = seq<Node>

  /** One step down: a name that is missing from a directory with a partial last entry panics. */
  ghost function Look(d: Node, name: Name): Outcome<nat> {
    if d.Other? then Failed
    else if name in d.names then Done(d.names[name])
    else if d.whole then Failed
    else Panic
  }

  /** Going from inode i down the components. */
  ghost function Resolve(dirs: Dirs, i: nat, comps: seq<Name>): Outcome<nat>
    decreases |comps|
  {
    if comps == [] then Done(i)
    else if i >= |dirs| then Failed
    else
      var n := Look(dirs[i], Names.Cut(comps[0]));
      if n.Done? then Resolve(dirs, n.value, comps[1..]) else n
  }

  /** The directory that would have the last component. */
  ghost function ResolveParent(dirs: Dirs, i: nat, comps: seq<Name>): Outcome<nat>
    decreases |comps|
  {
    if comps == [] || i >= |dirs| || dirs[i].Other? then Failed
    else if |comps| == 1 then Done(i)
    else
      var n := Look(dirs[i], Names.Cut(comps[0]));
      if n.Done? then ResolveParent(dirs, n.value, comps[1..]) else n
  }

  /** nameiparent() followed by a lookup of the last name is namei(). */
  lemma {:induction false} ParentThenLookup(dirs: Dirs, i: nat, comps: seq<Name>)
    requires comps != []
    ensures var p := ResolveParent(dirs, i, comps);
            && (p.Done? ==> p.value < |dirs| && dirs[p.value].Dir? && p == Resolve(dirs, i, comps[..|comps| - 1]))
            && Resolve(dirs, i, comps) == if p.Done? then Look(dirs[p.value], Names.Cut(comps[|comps| - 1])) else p
    decreases |comps|
  {
    if |comps| == 1 {
    } else if i < |dirs| && Look(dirs[i], Names.Cut(comps[0])).Done? {
      ParentThenLookup(dirs, Look(dirs[i], Names.Cut(comps[0])).value, comps[1..]);
      assert comps[1..][..|comps| - 2] == comps[..|comps| - 1][1..];
    }
  }

  ghost function DirsOf(fs: FileSys, isdir: seq<bool>): (d: Dirs)
    requires fs.Valid() && |isdir| == |fs.tree.inode|
    reads fs
  {
    seq(|isdir|, i requires 0 <= i < |isdir| && fs.Valid() && |isdir| == |fs.tree.inode| reads fs =>
      if isdir[i] then Dir(DirMap(fs.File(i)), |fs.File(i)| % ENTRY == 0) else Other)
  }

  /** Directory entries name existing inodes. */
  ghost predicate DirsOk(fs: FileSys, isdir: seq<bool>)
    reads fs
  {
    && fs.Valid() && |isdir| == |fs.tree.inode|
    && forall i :: 0 <= i < |isdir| && isdir[i] ==>
         forall n :: n in DirMap(fs.File(i)) ==> DirMap(fs.File(i))[n] < |isdir|
  }

  /** namex(): from the root or the current directory along the path, by the directories' maps;
      isdir tells the type of each inode. With parent it stops at the last directory and leaves
      the last component in name. Failed stands for no such path. */
  method Namex(fs: FileSys, isdir: seq<bool>, root: nat, cwd: nat, path: Name, parent: bool, name: Name)
    returns (r: Outcome<nat>, name': Name)
    requires DirsOk(fs, isdir) && root < |isdir| && cwd < |isdir| && 0 !in path && |name| == Names.DIRSIZ
    modifies fs`tree, fs`writes
    ensures fs.tree == old(fs.tree) && fs.writes == old(fs.writes)
    ensures var start := if path != [] && path[0] == Names.SLASH then root else cwd;
            var comps := Names.Components(path);
            if parent then r == ResolveParent(old(DirsOf(fs, isdir)), start, comps)
                           && (r.Done? ==> Names.Upto(name', Names.DIRSIZ) == Names.Cut(comps[|comps| - 1]))
            else r == Resolve(old(DirsOf(fs, isdir)), start, comps)
  {
    hide DirsOk, DirsOf, Names.Upto, Names.Components, Names.Cut, Resolve, ResolveParent;
    DirsShape(fs, isdir);
    var ip: nat := if path != [] && path[0] == Names.SLASH then root else cwd;
    ghost var dirs, all, start := DirsOf(fs, isdir), Names.Components(path), ip;
    var more;
    more, name' := Names.Skipelem(path, name);
    ghost var comps := all;
    while more.Some?
      invariant fs.tree == old(fs.tree) && fs.writes == old(fs.writes) && DirsOk(fs, isdir) && dirs == DirsOf(fs, isdir)
      invariant ip < |isdir| && |name'| == Names.DIRSIZ && AtComponent(comps, more, name')
      invariant comps != [] ==> comps[|comps| - 1] == all[|all| - 1] && all != []
      invariant Resolve(dirs, ip, comps) == Resolve(dirs, start, all)
      invariant if comps == [] then !parent || all == []
                  else ResolveParent(dirs, ip, comps) == ResolveParent(dirs, start, all)
      decreases |comps|
    {
      ResolveStep(dirs, ip, comps);
      if !isdir[ip] {
        return Failed, name';
      }
      LastElement(more.value);
      if parent && more.value == [] {
        return Done(ip), name';
      }
      var next := LookupIn(fs, isdir, ip, name');
      if !next.Done? {
        return next, name';
      }
      ip := next.value;
      more, name' := Names.Skipelem(more.value, name');
      comps := comps[1..];
    }
    ResolveNone(dirs, ip, start);
    if parent {
      return Failed, name';
    }
    return Done(ip), name';
  }

  /** name holds the first of the components still to go, more the rest of the path. */
  ghost predicate AtComponent(comps: seq<Name>, more: Option<Name>, name: Name) {
    && (more.None? <==> comps == [])
    && (more.Some? ==>
         && Names.Upto(name, Names.DIRSIZ) == Names.Cut(comps[0]) && Names.Components(more.value) == comps[1..]
         && 0 !in more.value && (more.value != [] ==> more.value[0] != Names.SLASH))
  }

  /** The lookup in namex()'s loop. */
  method LookupIn(fs: FileSys, isdir: seq<bool>, ip: nat, name: Name) returns (next: Outcome<nat>)
    requires DirsOk(fs, isdir) && fs.Valid() && |isdir| == |fs.tree.inode| && ip < |isdir| && isdir[ip]
    requires |name| == Names.DIRSIZ
    modifies fs`tree, fs`writes
    ensures fs.tree == old(fs.tree) && fs.writes == old(fs.writes)
    ensures DirsOk(fs, isdir) && DirsOf(fs, isdir) == old(DirsOf(fs, isdir)) && ip < |DirsOf(fs, isdir)|
    ensures next == Look(DirsOf(fs, isdir)[ip], Names.Upto(name, Names.DIRSIZ)) && (next.Done? ==> next.value < |isdir|)
  {
    hide FileOk, Inodes.Owned, DiskLayout.Represents, Inside, Names.Upto, DirMap;
    var r := Dirlookup(fs, ip, name);
    if r.Done? {
      return Done(r.value.0);
    }
    return if r.Panic? then Panic else Failed;
  }

  lemma DirsShape(fs: FileSys, isdir: seq<bool>)
    requires DirsOk(fs, isdir)
    ensures fs.Valid() && |isdir| == |fs.tree.inode| && |DirsOf(fs, isdir)| == |isdir|
    ensures forall i :: 0 <= i < |isdir| ==> (DirsOf(fs, isdir)[i].Dir? <==> isdir[i])
  {
    hide FileOk, Inodes.Owned, DiskLayout.Represents, Inside, DirMap;
  }

  lemma ResolveStep(dirs: Dirs, i: nat, comps: seq<Name>)
    requires i < |dirs| && comps != []
    ensures dirs[i].Other? ==> Resolve(dirs, i, comps) == ResolveParent(dirs, i, comps) == Failed
    ensures dirs[i].Dir? && |comps| == 1 ==> ResolveParent(dirs, i, comps) == Done(i)
    ensures var n := Look(dirs[i], Names.Cut(comps[0]));
            && Resolve(dirs, i, comps) == (if n.Done? then Resolve(dirs, n.value, comps[1..]) else n)
            && (dirs[i].Dir? && |comps| > 1 ==>
                  ResolveParent(dirs, i, comps) == if n.Done? then ResolveParent(dirs, n.value, comps[1..]) else n)
  {
  }

  lemma ResolveNone(dirs: Dirs, i: nat, start: nat)
    ensures Resolve(dirs, i, []) == Done(i) && ResolveParent(dirs, start, []) == Failed
  {
  }

  lemma LastElement(path: Name)
    requires path != [] ==> path[0] != Names.SLASH
    ensures path == [] <==> Names.Components(path) == []
  {
  }
}
