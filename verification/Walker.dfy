/**
  The Linux collection of two trees at once: both directory listings are merged, and an
  entry with the same inode on the same device is left out with everything below it.
 */
module Walker {
  import opened Wrappers
  import opened Text
  import opened FsTree
  import opened SortedNames
  import opened Changes
  import opened Collect

  datatype Inode = Inode(dev: int, ino: int)

  /** The inode behind every path of a tree. */
  type Inodes = Path -> Inode

  datatype NameIno = NameIno(name: string, ino: int)

  /** readdirnames: the listing of a directory in name order, with inode numbers. */
  function ReadDirNames(dir: Node, path: Path, ids: Inodes): seq<NameIno> {
    var listing := Listing(dir.children.Keys);
    seq(|listing|, i requires 0 <= i < |listing| => NameIno(listing[i], ids(path + [listing[i]]).ino))
  }

  ghost predicate IncreasingNames(names: seq<NameIno>) {
    forall i, j :: 0 <= i < j < |names| ==> Less(names[i].name, names[j].name)
  }

  ghost predicate Has(names: seq<NameIno>, name: string) {
    exists i :: 0 <= i < |names| && names[i].name == name
  }

  /** The same name with the same inode number in both listings. */
  ghost predicate SameIno(names1: seq<NameIno>, names2: seq<NameIno>, name: string) {
    exists i, j :: 0 <= i < |names1| && 0 <= j < |names2| && names1[i].name == name == names2[j].name
                   && names1[i].ino == names2[j].ino
  }

  ghost predicate Merged(names1: seq<NameIno>, names2: seq<NameIno>, sameDevice: bool, name: string) {
    (Has(names1, name) || Has(names2, name)) && !(sameDevice && SameIno(names1, names2, name))
  }

  lemma ReadDirNamesHas(dir: Node, path: Path, ids: Inodes)
    ensures var names := ReadDirNames(dir, path, ids);
            && IncreasingNames(names)
            && (forall k :: Has(names, k) <==> k in dir.children)
            && (forall i :: 0 <= i < |names| ==> names[i].ino == ids(path + [names[i].name]).ino)
  {
    var listing := Listing(dir.children.Keys);
    var names := ReadDirNames(dir, path, ids);
    forall k ensures Has(names, k) <==> k in dir.children {
      if k in dir.children {
        var i :| 0 <= i < |listing| && listing[i] == k;
        assert names[i].name == k;
      }
      if Has(names, k) {
        var i :| 0 <= i < |names| && names[i].name == k;
        assert listing[i] in listing;
      }
    }
  }

  /** Every name from `ix` on sorts after `name`. */
  ghost predicate Passed(names: seq<NameIno>, ix: nat, name: string) {
    forall j :: ix <= j < |names| ==> Less(name, names[j].name)
  }

  /** The part of a listing before `ix` has been dealt with. */
  ghost predicate Done(names: seq<string>, mine: seq<NameIno>, theirs: seq<NameIno>, sameDevice: bool,
                       ix: nat, theirIx: nat)
  {
    forall i :: 0 <= i < ix && i < |mine| ==>
      && Passed(theirs, theirIx, mine[i].name)
      && (Merged(mine, theirs, sameDevice, mine[i].name) ==> mine[i].name in names)
  }

  ghost predicate Sofar(names: seq<string>, names1: seq<NameIno>, names2: seq<NameIno>, sameDevice: bool,
                        ix1: nat, ix2: nat)
  {
    && Increasing(names)
    && (forall x :: x in names ==>
          Merged(names1, names2, sameDevice, x) && Passed(names1, ix1, x) && Passed(names2, ix2, x))
    && Done(names, names1, names2, sameDevice, ix1, ix2)
    && Done(names, names2, names1, sameDevice, ix2, ix1)
  }

  lemma PassedHead(names: seq<NameIno>, ix: nat, name: string)
    requires IncreasingNames(names) && ix < |names|
    requires name == names[ix].name || Less(name, names[ix].name)
    ensures Passed(names, ix + 1, name)
    ensures Less(name, names[ix].name) ==> Passed(names, ix, name)
  {
    forall j | ix < j < |names| ensures Less(name, names[j].name) {
      if names[ix].name != name {
        LessTransitive(name, names[ix].name, names[j].name);
      }
    }
  }

  lemma MergedSymmetric(names1: seq<NameIno>, names2: seq<NameIno>, sameDevice: bool, name: string)
    ensures Merged(names1, names2, sameDevice, name) <==> Merged(names2, names1, sameDevice, name)
  {
  }

  /** A name met in one listing before it could occur in the other does not occur there. */
  lemma NotInOther(names: seq<string>, mine: seq<NameIno>, theirs: seq<NameIno>, sameDevice: bool,
                   ix: nat, theirIx: nat)
    requires IncreasingNames(mine) && ix < |mine| && theirIx <= |theirs|
    requires Done(names, theirs, mine, sameDevice, theirIx, ix) && Passed(theirs, theirIx, mine[ix].name)
    ensures Merged(mine, theirs, sameDevice, mine[ix].name)
  {
    var name := mine[ix].name;
    LessIrreflexive(name);
    forall j | 0 <= j < |theirs| ensures theirs[j].name != name {
      if j < theirIx {
        assert Less(theirs[j].name, mine[ix].name);
      }
    }
    assert mine[ix].name == name;
  }

  /** Taking the head of one listing, which the other has passed. */
  lemma TakeHead(names: seq<string>, names1: seq<NameIno>, names2: seq<NameIno>, sameDevice: bool,
                 ix1: nat, ix2: nat)
    requires IncreasingNames(names1) && IncreasingNames(names2) && ix1 < |names1| && ix2 <= |names2|
    requires Sofar(names, names1, names2, sameDevice, ix1, ix2)
    requires Passed(names2, ix2, names1[ix1].name)
    ensures Sofar(names + [names1[ix1].name], names1, names2, sameDevice, ix1 + 1, ix2)
  {
    var x := names1[ix1].name;
    NotInOther(names, names1, names2, sameDevice, ix1, ix2);
    PassedHead(names1, ix1, x);
    var after := names + [x];
    forall i | 0 <= i < |names| ensures Less(names[i], x) {
      assert names[i] in names && Passed(names1, ix1, names[i]);
    }
    assert Increasing(after);
    assert forall y :: y in after <==> y in names || y == x;
    assert forall y :: y in after ==> Passed(names1, ix1 + 1, y) && Passed(names2, ix2, y);
    assert Done(after, names1, names2, sameDevice, ix1 + 1, ix2);
    assert Done(after, names2, names1, sameDevice, ix2, ix1 + 1);
  }

  /** Both heads carry the same name. */
  lemma TakeBoth(names: seq<string>, names1: seq<NameIno>, names2: seq<NameIno>, sameDevice: bool,
                 ix1: nat, ix2: nat)
    requires IncreasingNames(names1) && IncreasingNames(names2) && ix1 < |names1| && ix2 < |names2|
    requires Sofar(names, names1, names2, sameDevice, ix1, ix2)
    requires names1[ix1].name == names2[ix2].name
    ensures var keep := names1[ix1].ino != names2[ix2].ino || !sameDevice;
            Sofar(if keep then names + [names1[ix1].name] else names, names1, names2, sameDevice, ix1 + 1, ix2 + 1)
  {
    hide Less, Merged, Passed, Done;
    var x := names1[ix1].name;
    PassedHead(names1, ix1, x);
    PassedHead(names2, ix2, x);
    var keep := names1[ix1].ino != names2[ix2].ino || !sameDevice;
    HeadMerged(names1, names2, sameDevice, ix1, ix2);
    MergedSymmetric(names1, names2, sameDevice, x);
    var after := if keep then names + [x] else names;
    forall y | y in names
      ensures Less(y, x) && Passed(names1, ix1 + 1, y) && Passed(names2, ix2 + 1, y)
    {
      PassedMore(names1, ix1, y);
      PassedMore(names2, ix2, y);
    }
    assert forall i :: 0 <= i < |names| ==> names[i] in names;
    DoneNext(names, after, names1, names2, sameDevice, ix1, ix2);
    DoneNext(names, after, names2, names1, sameDevice, ix2, ix1);
  }

  lemma HeadMerged(names1: seq<NameIno>, names2: seq<NameIno>, sameDevice: bool, ix1: nat, ix2: nat)
    requires IncreasingNames(names1) && IncreasingNames(names2) && ix1 < |names1| && ix2 < |names2|
    requires names1[ix1].name == names2[ix2].name
    ensures Merged(names1, names2, sameDevice, names1[ix1].name)
       <==> names1[ix1].ino != names2[ix2].ino || !sameDevice
  {
    OneIno(names1, names2, ix1, ix2);
    assert Has(names1, names1[ix1].name);
  }

  lemma PassedMore(names: seq<NameIno>, ix: nat, name: string)
    requires Passed(names, ix, name)
    ensures Passed(names, ix + 1, name) && (ix < |names| ==> Less(name, names[ix].name))
  {
  }

  lemma DoneNext(names: seq<string>, after: seq<string>, mine: seq<NameIno>, theirs: seq<NameIno>, sameDevice: bool,
                 ix: nat, theirIx: nat)
    requires Done(names, mine, theirs, sameDevice, ix, theirIx) && ix < |mine|
    requires (forall y :: y in names ==> y in after) && Passed(theirs, theirIx + 1, mine[ix].name)
    requires Merged(mine, theirs, sameDevice, mine[ix].name) ==> mine[ix].name in after
    ensures Done(after, mine, theirs, sameDevice, ix + 1, theirIx + 1)
  {
  }

  lemma OneIno(names1: seq<NameIno>, names2: seq<NameIno>, ix1: nat, ix2: nat)
    requires IncreasingNames(names1) && IncreasingNames(names2) && ix1 < |names1| && ix2 < |names2|
    requires names1[ix1].name == names2[ix2].name
    ensures SameIno(names1, names2, names1[ix1].name) <==> names1[ix1].ino == names2[ix2].ino
  {
    var x := names1[ix1].name;
    LessIrreflexive(x);
    assert forall i :: 0 <= i < |names1| && names1[i].name == x ==> i == ix1;
    assert forall j :: 0 <= j < |names2| && names2[j].name == x ==> j == ix2;
  }

  /** The two-index merge: the sorted union of the names, without those that share an inode. */
  method MergeNames(names1: seq<NameIno>, names2: seq<NameIno>, sameDevice: bool) returns (names: seq<string>)
    requires IncreasingNames(names1) && IncreasingNames(names2)
    ensures Increasing(names)
    ensures forall x :: x in names <==> Merged(names1, names2, sameDevice, x)
  {
    hide Sofar, Merged;
    names := [];
    var ix1, ix2 := 0, 0;
    SofarStart(names1, names2, sameDevice);
    while ix1 < |names1| && ix2 < |names2|
      invariant 0 <= ix1 <= |names1| && 0 <= ix2 <= |names2|
      invariant Sofar(names, names1, names2, sameDevice, ix1, ix2)
      decreases |names1| - ix1 + |names2| - ix2
    {
      var ni1, ni2 := names1[ix1], names2[ix2];
      LessTotal(ni1.name, ni2.name);
      if Less(ni1.name, ni2.name) {
        PassedHead(names2, ix2, ni1.name);
        TakeHead(names, names1, names2, sameDevice, ix1, ix2);
        names := names + [ni1.name];
        ix1 := ix1 + 1;
      } else if ni1.name == ni2.name {
        TakeBoth(names, names1, names2, sameDevice, ix1, ix2);
        if ni1.ino != ni2.ino || !sameDevice {
          names := names + [ni1.name];
        }
        ix1 := ix1 + 1;
        ix2 := ix2 + 1;
      } else {
        PassedHead(names1, ix1, ni2.name);
        SofarSymmetric(names, names1, names2, sameDevice, ix1, ix2);
        TakeHead(names, names2, names1, sameDevice, ix2, ix1);
        names := names + [ni2.name];
        ix2 := ix2 + 1;
        SofarSymmetric(names, names2, names1, sameDevice, ix2, ix1);
      }
    }
    while ix1 < |names1|
      invariant 0 <= ix1 <= |names1| && 0 <= ix2 <= |names2| && (ix1 < |names1| ==> ix2 == |names2|)
      invariant Sofar(names, names1, names2, sameDevice, ix1, ix2)
    {
      TakeHead(names, names1, names2, sameDevice, ix1, ix2);
      names := names + [names1[ix1].name];
      ix1 := ix1 + 1;
    }
    while ix2 < |names2|
      invariant 0 <= ix2 <= |names2| && ix1 == |names1|
      invariant Sofar(names, names1, names2, sameDevice, ix1, ix2)
    {
      SofarSymmetric(names, names1, names2, sameDevice, ix1, ix2);
      TakeHead(names, names2, names1, sameDevice, ix2, ix1);
      names := names + [names2[ix2].name];
      ix2 := ix2 + 1;
      SofarSymmetric(names, names2, names1, sameDevice, ix2, ix1);
    }
    SofarEnd(names, names1, names2, sameDevice);
  }

  lemma SofarStart(names1: seq<NameIno>, names2: seq<NameIno>, sameDevice: bool)
    ensures Sofar([], names1, names2, sameDevice, 0, 0)
  {
  }

  lemma SofarSymmetric(names: seq<string>, names1: seq<NameIno>, names2: seq<NameIno>, sameDevice: bool,
                       ix1: nat, ix2: nat)
    requires Sofar(names, names1, names2, sameDevice, ix1, ix2)
    ensures Sofar(names, names2, names1, sameDevice, ix2, ix1)
  {
    hide Passed, Done;
    forall x ensures Merged(names1, names2, sameDevice, x) <==> Merged(names2, names1, sameDevice, x) {
      MergedSymmetric(names1, names2, sameDevice, x);
    }
  }

  lemma SofarEnd(names: seq<string>, names1: seq<NameIno>, names2: seq<NameIno>, sameDevice: bool)
    requires Sofar(names, names1, names2, sameDevice, |names1|, |names2|)
    ensures Increasing(names)
    ensures forall x :: x in names <==> Merged(names1, names2, sameDevice, x)
  {
    forall x | Merged(names1, names2, sameDevice, x) ensures x in names {
      MergedSymmetric(names1, names2, sameDevice, x);
      if Has(names1, x) {
        var i :| 0 <= i < |names1| && names1[i].name == x;
      } else {
        var j :| 0 <= j < |names2| && names2[j].name == x;
      }
    }
  }

  // ----- the trees that are built

  /** The two entries of one name are taken to be the same file, and neither is looked at. */
  predicate Shared(n1: Option<Node>, n2: Option<Node>, path: Path, ids1: Inodes, ids2: Inodes, name: string) {
    && n1.Some? && n2.Some? && n1.value.IsDir() && n2.value.IsDir()
    && name in n1.value.children && name in n2.value.children
    && ids1(path).dev == ids2(path).dev
    && ids1(path + [name]).ino == ids2(path + [name]).ino
  }

  function ChildOf(n: Option<Node>, name: string): Option<Node> {
    if n.Some? && n.value.IsDir() && name in n.value.children then Some(n.value.children[name]) else None
  }

  function PrunedChildren(mine: Node, other: Option<Node>, path: Path, ids: Inodes, idsOther: Inodes)
    : map<string, FileInfo>
    decreases mine, 0
  {
    map k | k in mine.children && mine.IsDir() && !Shared(Some(mine), other, path, ids, idsOther, k)
          :: PrunedInfo(mine.children[k], ChildOf(other, k), path + [k], ids, idsOther)
  }

  /** What one walk over both trees records of the first: all of it but the shared subtrees. */
  function PrunedInfo(mine: Node, other: Option<Node>, path: Path, ids: Inodes, idsOther: Inodes): FileInfo
    decreases mine, 1
  {
    FileInfo(mine.meta.stat, mine.meta.capability, PrunedChildren(mine, other, path, ids, idsOther))
  }

  /** The root has room for this path, and nothing is recorded there yet. */
  ghost predicate Ready(root: FileInfo, path: Path, i: Option<Node>) {
    if path == [] then i.Some? && root == FileInfo(i.value.meta.stat, i.value.meta.capability, map[])
    else i.Some? ==> LookUp(root, Parent(path)).Some?
  }

  ghost function After(root: FileInfo, path: Path, mine: Option<Node>, other: Option<Node>,
                              ids: Inodes, idsOther: Inodes): FileInfo
  {
    if mine.Some? then PutInfo(root, path, PrunedInfo(mine.value, other, path, ids, idsOther)) else root
  }

  /** The two roots under construction. */
  class TreeWalker {
    const ids1: Inodes
    const ids2: Inodes
    var root1: FileInfo
    var root2: FileInfo

    constructor (ids1: Inodes, ids2: Inodes, root1: FileInfo, root2: FileInfo)
      ensures this.ids1 == ids1 && this.ids2 == ids2 && this.root1 == root1 && this.root2 == root2
    {
      this.ids1, this.ids2, this.root1, this.root2 := ids1, ids2, root1, root2;
    }

    /** walkchunk: record a file under its parent. */
    static function WalkChunk(root: FileInfo, path: Path, i: Option<Node>): Result<FileInfo, WalkError>
      requires path != []
    {
      if i.None? then Ok(root)
      else if LookUp(root, Parent(path)).None? then Err(NoParent)
      else Ok(PutInfo(root, path, FileInfo(i.value.meta.stat, i.value.meta.capability, map[])))
    }

    /** Unless this is the root, which exists already, record both files. */
    method Register(path: Path, i1: Option<Node>, i2: Option<Node>) returns (err: Option<WalkError>)
      requires Ready(root1, path, i1) && Ready(root2, path, i2)
      modifies this
      ensures err == None
      ensures root1 == Recorded(old(root1), path, i1) && root2 == Recorded(old(root2), path, i2)
    {
      if path != [] {
        var r := WalkChunk(root1, path, i1);
        if r.Err? {
          return Some(NoParent);
        }
        root1 := r.value;
        r := WalkChunk(root2, path, i2);
        if r.Err? {
          return Some(NoParent);
        }
        root2 := r.value;
      }
      return None;
    }

    /** Walk a subtree rooted at the same path in both trees. A missing parent never comes up. */
    method Walk(path: Path, i1: Option<Node>, i2: Option<Node>) returns (err: Option<WalkError>)
      requires Ready(root1, path, i1) && Ready(root2, path, i2)
      modifies this
      ensures err == None
      ensures root1 == After(old(root1), path, i1, i2, ids1, ids2)
      ensures root2 == After(old(root2), path, i2, i1, ids2, ids1)
      decreases i1.Some?, if i1.Some? then i1.value else LEAF, i2.Some?, if i2.Some? then i2.value else LEAF
    {
      hide PutInfo, PrunedChildren, PrunedInfo, LookUp, ReadDirNames, Shared, Merged, With, After, Recorded, Ready,
           Increasing, IncreasingNames;
      err := Register(path, i1, i2);
      if err.Some? {
        return err;
      }
      var is1Dir := i1.Some? && i1.value.IsDir();
      var is2Dir := i2.Some? && i2.value.IsDir();
      var sameDevice := i1.Some? && i2.Some? && ids1(path).dev == ids2(path).dev;
      if !is1Dir && !is2Dir {
        RecordedLeaf(old(root1), path, i1, i2, ids1, ids2);
        RecordedLeaf(old(root2), path, i2, i1, ids2, ids1);
        return None;
      }
      var names1 := if is1Dir then ReadDirNames(i1.value, path, ids1) else [];
      var names2 := if is2Dir then ReadDirNames(i2.value, path, ids2) else [];
      MergedAre(i1, i2, path, ids1, ids2);
      var names := MergeNames(names1, names2, sameDevice);
      ghost var start1, start2 := old(root1), old(root2);
      WithoutNames(start1, path, i1, i2, ids1, ids2);
      WithoutNames(start2, path, i2, i1, ids2, ids1);
      for next := 0 to |names|
        invariant root1 == With(start1, path, i1, i2, ids1, ids2, names[..next])
        invariant root2 == With(start2, path, i2, i1, ids2, ids1, names[..next])
      {
        var name := names[next];
        var cInfo1 := ChildOf(i1, name);
        var cInfo2 := ChildOf(i2, name);
        WithReady(start1, path, i1, i2, ids1, ids2, names[..next], name);
        WithReady(start2, path, i2, i1, ids2, ids1, names[..next], name);
        err := Walk(path + [name], cInfo1, cInfo2);
        WithStep(start1, path, i1, i2, ids1, ids2, names, next);
        WithStep(start2, path, i2, i1, ids2, ids1, names, next);
      }
      assert names[..|names|] == names;
      WithAll(start1, path, i1, i2, ids1, ids2, names);
      WithAll(start2, path, i2, i1, ids2, ids1, names);
      return None;
    }
  }

  const LEAF := Node(Meta(Stat(Regular, 0, 0, 0, 0, 0, Timespec(0, 0)), "", "", false), map[])

  // ----- one directory, name by name

  /** The root after some of a directory's names have been walked. */
  ghost function With(root: FileInfo, path: Path, mine: Option<Node>, other: Option<Node>,
                      ids: Inodes, idsOther: Inodes, names: seq<string>): FileInfo
  {
    if mine.None? then root
    else
      var all := PrunedChildren(mine.value, other, path, ids, idsOther);
      PutInfo(root, path, FileInfo(mine.value.meta.stat, mine.value.meta.capability,
                                   Only(all, names)))
  }

  ghost function Recorded(root: FileInfo, path: Path, mine: Option<Node>): FileInfo {
    if path != [] && mine.Some?
    then PutInfo(root, path, FileInfo(mine.value.meta.stat, mine.value.meta.capability, map[]))
    else root
  }

  lemma RecordedLeaf(root: FileInfo, path: Path, mine: Option<Node>, other: Option<Node>, ids: Inodes, idsOther: Inodes)
    requires Ready(root, path, mine) && !(mine.Some? && mine.value.IsDir())
    ensures After(root, path, mine, other, ids, idsOther) == Recorded(root, path, mine)
  {
    if mine.Some? {
      assert PrunedChildren(mine.value, other, path, ids, idsOther) == map[];
    }
  }

  lemma WithoutNames(root: FileInfo, path: Path, mine: Option<Node>, other: Option<Node>, ids: Inodes, idsOther: Inodes)
    requires Ready(root, path, mine)
    ensures With(root, path, mine, other, ids, idsOther, []) == Recorded(root, path, mine)
  {
    if mine.Some? {
      var all := PrunedChildren(mine.value, other, path, ids, idsOther);
      assert Only(all, []) == map[];
    }
  }

  lemma WithReady(root: FileInfo, path: Path, mine: Option<Node>, other: Option<Node>,
                  ids: Inodes, idsOther: Inodes, names: seq<string>, name: string)
    requires Ready(root, path, mine)
    ensures Ready(With(root, path, mine, other, ids, idsOther, names), path + [name], ChildOf(mine, name))
  {
    assert Parent(path + [name]) == path;
    if mine.Some? {
      var all := PrunedChildren(mine.value, other, path, ids, idsOther);
      PutInfoLookUp(root, path, FileInfo(mine.value.meta.stat, mine.value.meta.capability,
                                         Only(all, names)));
    }
  }

  /** Walking one more name records that child, when this tree has it. */
  lemma WithStep(root: FileInfo, path: Path, mine: Option<Node>, other: Option<Node>,
                 ids: Inodes, idsOther: Inodes, names: seq<string>, next: nat)
    requires next < |names| && Ready(root, path, mine)
    requires !Shared(mine, other, path, ids, idsOther, names[next])
    ensures After(With(root, path, mine, other, ids, idsOther, names[..next]), path + [names[next]],
                  ChildOf(mine, names[next]), ChildOf(other, names[next]), ids, idsOther)
         == With(root, path, mine, other, ids, idsOther, names[..next + 1])
  {
    if mine.Some? {
      var name := names[next];
      var all := PrunedChildren(mine.value, other, path, ids, idsOther);
      var some := Only(all, names[..next]);
      var more := Only(all, names[..next + 1]);
      assert forall k :: k in names[..next + 1] <==> k in names[..next] || k == name;
      if ChildOf(mine, name).Some? {
        assert more == some[name := all[name]];
        var info := FileInfo(mine.value.meta.stat, mine.value.meta.capability, some);
        PutInfoChild(root, path, info, name, all[name]);
      } else {
        assert more == some;
      }
    }
  }

  lemma WithAll(root: FileInfo, path: Path, mine: Option<Node>, other: Option<Node>,
                ids: Inodes, idsOther: Inodes, names: seq<string>)
    requires forall k :: ChildOf(mine, k).Some? && !Shared(mine, other, path, ids, idsOther, k) ==> k in names
    ensures With(root, path, mine, other, ids, idsOther, names) == After(root, path, mine, other, ids, idsOther)
  {
    if mine.Some? {
      var all := PrunedChildren(mine.value, other, path, ids, idsOther);
      assert Only(all, names) == all;
    }
  }

  /** The merged names are the ones in either directory that are not shared. */
  lemma MergedAre(i1: Option<Node>, i2: Option<Node>, path: Path, ids1: Inodes, ids2: Inodes)
    ensures var names1 := if i1.Some? && i1.value.IsDir() then ReadDirNames(i1.value, path, ids1) else [];
            var names2 := if i2.Some? && i2.value.IsDir() then ReadDirNames(i2.value, path, ids2) else [];
            var sameDevice := i1.Some? && i2.Some? && ids1(path).dev == ids2(path).dev;
            && IncreasingNames(names1) && IncreasingNames(names2)
            && forall k :: Merged(names1, names2, sameDevice, k) <==>
              (ChildOf(i1, k).Some? || ChildOf(i2, k).Some?) && !Shared(i1, i2, path, ids1, ids2, k)
    ensures forall k :: Shared(i1, i2, path, ids1, ids2, k) <==> Shared(i2, i1, path, ids2, ids1, k)
  {
    if i1.Some? && i1.value.IsDir() {
      ReadDirNamesHas(i1.value, path, ids1);
    }
    if i2.Some? && i2.value.IsDir() {
      ReadDirNamesHas(i2.value, path, ids2);
    }
  }

  /** collectFileInfoForChanges. */
  method CollectFileInfoForChanges(dir1: Node, dir2: Node, ids1: Inodes, ids2: Inodes)
    returns (root1: FileInfo, root2: FileInfo, err: Option<WalkError>)
    ensures err == None
    ensures root1 == PrunedInfo(dir1, Some(dir2), [], ids1, ids2)
    ensures root2 == PrunedInfo(dir2, Some(dir1), [], ids2, ids1)
  {
    var w := new TreeWalker(ids1, ids2, FileInfo(dir1.meta.stat, dir1.meta.capability, map[]),
                            FileInfo(dir2.meta.stat, dir2.meta.capability, map[]));
    err := w.Walk([], Some(dir1), Some(dir2));
    root1, root2 := w.root1, w.root2;
  }

  // ----- pruning loses no difference

  /** What makes pruning sound: entries that are taken to be the same file are the same, all the way down. */
  ghost predicate Faithful(n1: Node, n2: Node, path: Path, ids1: Inodes, ids2: Inodes)
    decreases n1
  {
    n1.IsDir() && n2.IsDir() ==>
      forall k :: k in n1.children && k in n2.children ==>
        if Shared(Some(n1), Some(n2), path, ids1, ids2, k) then n1.children[k] == n2.children[k]
        else Faithful(n1.children[k], n2.children[k], path + [k], ids1, ids2)
  }

  ghost predicate FaithfulPair(old_: Option<Node>, new_: Node, path: Path, idsOld: Inodes, idsNew: Inodes) {
    old_.Some? ==> Faithful(old_.value, new_, path, idsOld, idsNew)
  }

  function FullOption(n: Option<Node>): Option<FileInfo> {
    if n.Some? then Some(FullInfo(n.value)) else None
  }

  function PrunedOption(mine: Option<Node>, other: Node, path: Path, ids: Inodes, idsOther: Inodes): Option<FileInfo> {
    if mine.Some? then Some(PrunedInfo(mine.value, Some(other), path, ids, idsOther)) else None
  }

  /** A node compared with itself gets no entries. */
  lemma {:induction false} SelfUntouched(info: FileInfo, path: Path)
    requires WfInfo(info, path) && path != []
    ensures !Touched(info, Some(info), info.stat.ftype.DirBit())
    decreases info
  {
    forall k | k in info.children ensures !ChildTouched(info, Some(info), info.stat.ftype.DirBit(), k) {
      SelfUntouched(info.children[k], path + [k]);
    }
  }

  lemma WfDirBit(n: Node)
    requires Wf(n)
    ensures n.meta.stat.ftype.DirBit() <==> n.IsDir()
    ensures !n.IsDir() ==> n.children == map[]
    ensures forall k :: k in n.children ==> Wf(n.children[k])
  {
  }

  lemma PrunedKeys(mine: Node, other: Option<Node>, path: Path, ids: Inodes, idsOther: Inodes, k: string)
    ensures var pruned := PrunedInfo(mine, other, path, ids, idsOther);
            && (k in pruned.children <==>
                k in mine.children && mine.IsDir() && !Shared(Some(mine), other, path, ids, idsOther, k))
            && (k in pruned.children ==>
                pruned.children[k] == PrunedInfo(mine.children[k], ChildOf(other, k), path + [k], ids, idsOther))
            && (other.Some? ==>
                (Shared(Some(mine), other, path, ids, idsOther, k)
                 <==> Shared(other, Some(mine), path, idsOther, ids, k)))
  {
  }

  lemma FullKeys(t: Node, k: string)
    ensures k in FullInfo(t).children <==> k in t.children
    ensures k in t.children ==> FullInfo(t).children[k] == FullInfo(t.children[k])
  {
  }

  /** What both comparisons find under one name that is not shared. */
  lemma ChildrenMeet(new_: Node, old_: Option<Node>, path: Path, idsNew: Inodes, idsOld: Inodes, k: string)
    requires Wf(new_) && (old_.Some? ==> Wf(old_.value)) && new_.IsDir()
    requires !Shared(Some(new_), old_, path, idsNew, idsOld, k)
    ensures OldChild(PrunedOption(old_, new_, path, idsOld, idsNew), true, k)
         == if ChildOf(old_, k).None? then None
            else Some(PrunedInfo(ChildOf(old_, k).value, ChildOf(Some(new_), k), path + [k], idsOld, idsNew))
    ensures OldChild(FullOption(old_), true, k) == FullOption(ChildOf(old_, k))
  {
    if old_.Some? {
      WfDirBit(old_.value);
      PrunedKeys(old_.value, Some(new_), path, idsOld, idsNew, k);
      FullKeys(old_.value, k);
    }
  }

  lemma {:induction false} TouchedAgrees(new_: Node, old_: Option<Node>, path: Path, idsNew: Inodes, idsOld: Inodes)
    requires Wf(new_) && (old_.Some? ==> Wf(old_.value)) && FaithfulPair(old_, new_, path, idsOld, idsNew)
    ensures Touched(PrunedInfo(new_, old_, path, idsNew, idsOld),
                    PrunedOption(old_, new_, path, idsOld, idsNew), new_.IsDir())
       <==> Touched(FullInfo(new_), FullOption(old_), new_.IsDir())
    decreases new_, 0
  {
    hide PrunedInfo, FullInfo, Wf, Shared, ChildTouched, FaithfulPair;
    var pn, po := PrunedInfo(new_, old_, path, idsNew, idsOld), PrunedOption(old_, new_, path, idsOld, idsNew);
    var fn, fo := FullInfo(new_), FullOption(old_);
    WfDirBit(new_);
    forall k ensures k in pn.children ==> k in new_.children {
      PrunedKeys(new_, old_, path, idsNew, idsOld, k);
    }
    forall k ensures k in fn.children <==> k in new_.children {
      FullKeys(new_, k);
    }
    if new_.IsDir() {
      forall k | k in new_.children
        ensures (k in pn.children && ChildTouched(pn, po, true, k)) <==> ChildTouched(fn, fo, true, k)
      {
        ChildTouchedAgrees(new_, old_, path, idsNew, idsOld, k);
      }
      if old_.Some? {
        forall k ensures (k in po.value.children && k !in pn.children)
                    <==> (k in fo.value.children && k !in fn.children)
        {
          PrunedKeys(new_, old_, path, idsNew, idsOld, k);
          PrunedKeys(old_.value, Some(new_), path, idsOld, idsNew, k);
          FullKeys(old_.value, k);
          FullKeys(new_, k);
          WfDirBit(old_.value);
          NotShared(new_, old_, path, idsNew, idsOld, k);
        }
      }
    }
  }

  lemma NotShared(new_: Node, old_: Option<Node>, path: Path, idsNew: Inodes, idsOld: Inodes, k: string)
    ensures k !in new_.children ==> !Shared(Some(new_), old_, path, idsNew, idsOld, k)
  {
  }

  lemma {:induction false} ChildTouchedAgrees(new_: Node, old_: Option<Node>, path: Path, idsNew: Inodes,
                                              idsOld: Inodes, k: string)
    requires Wf(new_) && (old_.Some? ==> Wf(old_.value)) && FaithfulPair(old_, new_, path, idsOld, idsNew)
    requires new_.IsDir() && k in new_.children
    ensures var pn, po := PrunedInfo(new_, old_, path, idsNew, idsOld), PrunedOption(old_, new_, path, idsOld, idsNew);
            (k in pn.children && ChildTouched(pn, po, true, k))
            <==> k in FullInfo(new_).children && ChildTouched(FullInfo(new_), FullOption(old_), true, k)
    decreases new_.children[k], 1
  {
    hide PrunedInfo, FullInfo, Touched, Wf, PrunedOption, FullOption, Shared;
    var child := new_.children[k];
    PrunedKeys(new_, old_, path, idsNew, idsOld, k);
    FullKeys(new_, k);
    WfDirBit(new_);
    WfDirBit(child);
    if Shared(Some(new_), old_, path, idsNew, idsOld, k) {
      SharedChild(new_, old_, path, idsNew, idsOld, k);
      FullInfoWf(child, path + [k]);
      SelfUntouched(FullInfo(child), path + [k]);
      FullStat(child);
    } else {
      ChildrenMeet(new_, old_, path, idsNew, idsOld, k);
      ChildPair(new_, old_, path, idsNew, idsOld, k);
      TouchedAgrees(child, ChildOf(old_, k), path + [k], idsNew, idsOld);
      SameAttributes(child, ChildOf(old_, k), path + [k], idsNew, idsOld);
    }
  }

  lemma FullStat(t: Node)
    ensures FullInfo(t).stat == t.meta.stat && FullInfo(t).capability == t.meta.capability
  {
  }

  lemma SharedChild(new_: Node, old_: Option<Node>, path: Path, idsNew: Inodes, idsOld: Inodes, k: string)
    requires FaithfulPair(old_, new_, path, idsOld, idsNew) && Shared(Some(new_), old_, path, idsNew, idsOld, k)
    ensures OldChild(FullOption(old_), true, k) == Some(FullInfo(new_.children[k]))
  {
    FullKeys(old_.value, k);
    assert Shared(Some(old_.value), Some(new_), path, idsOld, idsNew, k);
  }

  lemma ChildPair(new_: Node, old_: Option<Node>, path: Path, idsNew: Inodes, idsOld: Inodes, k: string)
    requires Wf(new_) && (old_.Some? ==> Wf(old_.value)) && FaithfulPair(old_, new_, path, idsOld, idsNew)
    requires new_.IsDir() && k in new_.children && !Shared(Some(new_), old_, path, idsNew, idsOld, k)
    ensures var was := ChildOf(old_, k);
            (was.Some? ==> Wf(was.value)) && FaithfulPair(was, new_.children[k], path + [k], idsOld, idsNew)
    ensures ChildOf(Some(new_), k) == Some(new_.children[k])
  {
    if old_.Some? {
      assert !Shared(Some(old_.value), Some(new_), path, idsOld, idsNew, k);
    }
  }

  /** Pruning does not change what is recorded of the nodes that are looked at. */
  lemma SameAttributes(child: Node, was: Option<Node>, path: Path, idsNew: Inodes, idsOld: Inodes)
    ensures var pn, po := PrunedInfo(child, was, path, idsNew, idsOld), PrunedOption(was, child, path, idsOld, idsNew);
            && pn.stat == FullInfo(child).stat == child.meta.stat
            && po.Some? == was.Some? == FullOption(was).Some?
            && (was.Some? ==> (Differs(po.value, pn) <==> Differs(FullOption(was).value, FullInfo(child))))
            && (was.Some? ==> po == Some(PrunedInfo(was.value, Some(child), path, idsOld, idsNew)))
            && (was.None? ==> po == None)
  {
  }

  lemma SharedNoEntry(child: Node, path: Path, q: Path)
    requires Wf(child) && path != []
    ensures var info := FullInfo(child);
            && !Differs(info, info)
            && !Touched(info, Some(info), info.stat.ftype.DirBit())
            && (q != [] ==> KindAt(info, Some(info), info.stat.ftype.DirBit(), q) == None)
  {
    hide KindAt, Touched, FullInfo;
    var info := FullInfo(child);
    FullInfoWf(child, path);
    SelfUntouched(info, path);
    if q != [] && KindAt(info, Some(info), info.stat.ftype.DirBit(), q).Some? {
      EntryMeansTouched(info, Some(info), info.stat.ftype.DirBit(), q);
    }
  }

  /** Both comparisons have the same entry, or none, at every path. */
  lemma {:induction false} EntryAgrees(new_: Node, old_: Option<Node>, path: Path, idsNew: Inodes, idsOld: Inodes,
                                       q: Path)
    requires Wf(new_) && (old_.Some? ==> Wf(old_.value)) && FaithfulPair(old_, new_, path, idsOld, idsNew)
    requires q != []
    ensures KindAt(PrunedInfo(new_, old_, path, idsNew, idsOld),
                   PrunedOption(old_, new_, path, idsOld, idsNew), new_.IsDir(), q)
         == KindAt(FullInfo(new_), FullOption(old_), new_.IsDir(), q)
    decreases q
  {
    hide PrunedInfo, FullInfo, Wf, Shared, PrunedOption, FullOption, FaithfulPair, Touched;
    var k := q[0];
    WfDirBit(new_);
    PrunedKeys(new_, old_, path, idsNew, idsOld, k);
    FullKeys(new_, k);
    if new_.IsDir() {
      if Shared(Some(new_), old_, path, idsNew, idsOld, k) {
        SharedOnly(new_, old_, path, idsNew, idsOld, k);
        SharedChild(new_, old_, path, idsNew, idsOld, k);
        SharedNoEntry(new_.children[k], path + [k], q[1..]);
      } else {
        ChildrenMeet(new_, old_, path, idsNew, idsOld, k);
        if k in new_.children {
          var child := new_.children[k];
          WfDirBit(child);
          ChildPair(new_, old_, path, idsNew, idsOld, k);
          SameAttributes(child, ChildOf(old_, k), path + [k], idsNew, idsOld);
          if |q| > 1 {
            EntryAgrees(child, ChildOf(old_, k), path + [k], idsNew, idsOld, q[1..]);
          } else {
            TouchedAgrees(child, ChildOf(old_, k), path + [k], idsNew, idsOld);
          }
        } else {
          FullSome(ChildOf(old_, k));
        }
      }
    }
  }

  lemma FullSome(n: Option<Node>)
    ensures FullOption(n).Some? <==> n.Some?
  {
  }

  lemma SharedOnly(new_: Node, old_: Option<Node>, path: Path, idsNew: Inodes, idsOld: Inodes, k: string)
    requires Shared(Some(new_), old_, path, idsNew, idsOld, k)
    ensures k in new_.children && OldChild(PrunedOption(old_, new_, path, idsOld, idsNew), true, k) == None
  {
    PrunedKeys(old_.value, Some(new_), path, idsOld, idsNew, k);
    assert Shared(old_, Some(new_), path, idsOld, idsNew, k);
  }

  /** A change list of the pruned trees is a change list of the full ones, and the other way round. */
  lemma PruningLosesNothing(changes: seq<Change>, old_: Node, new_: Node, idsOld: Inodes, idsNew: Inodes)
    requires Wf(old_) && Wf(new_) && old_.IsDir() && new_.IsDir()
    requires Faithful(old_, new_, [], idsOld, idsNew)
    ensures Covers(changes, PrunedInfo(new_, Some(old_), [], idsNew, idsOld),
                   Some(PrunedInfo(old_, Some(new_), [], idsOld, idsNew)), true, [], {})
       <==> Covers(changes, FullInfo(new_), Some(FullInfo(old_)), true, [], {})
  {
    hide KindAt, PrunedInfo, FullInfo, Distinct, ParentsFirst, Lists, Wf, Faithful;
    var pn := PrunedInfo(new_, Some(old_), [], idsNew, idsOld);
    var po := PrunedInfo(old_, Some(new_), [], idsOld, idsNew);
    forall q: Path | q != []
      ensures KindAt(pn, Some(po), true, q) == KindAt(FullInfo(new_), Some(FullInfo(old_)), true, q)
    {
      EntryAgrees(new_, Some(old_), [], idsNew, idsOld, q);
    }
  }

  lemma {:induction false} PrunedWf(mine: Node, other: Option<Node>, path: Path, ids: Inodes, idsOther: Inodes, p: Path)
    requires Wf(mine) && (p == [] ==> mine.IsDir())
    ensures WfInfo(PrunedInfo(mine, other, path, ids, idsOther), p)
    decreases mine
  {
    hide Shared;
    var pruned := PrunedInfo(mine, other, path, ids, idsOther);
    WfDirBit(mine);
    forall k | k in pruned.children ensures WfInfo(pruned.children[k], p + [k]) {
      PrunedKeys(mine, other, path, ids, idsOther, k);
      PrunedWf(mine.children[k], ChildOf(other, k), path + [k], ids, idsOther, p + [k]);
    }
    PrunedNoDir(mine, other, path, ids, idsOther);
  }

  lemma PrunedNoDir(mine: Node, other: Option<Node>, path: Path, ids: Inodes, idsOther: Inodes)
    requires Wf(mine)
    ensures !mine.meta.stat.ftype.DirBit() ==> PrunedInfo(mine, other, path, ids, idsOther).children == map[]
  {
    WfDirBit(mine);
    forall k ensures !mine.IsDir() ==> k !in PrunedInfo(mine, other, path, ids, idsOther).children {
      PrunedKeys(mine, other, path, ids, idsOther, k);
    }
  }

  // ----- which entries are taken to be the same file, in inodes

  /** Below the path r both trees have a directory there, with an entry k in each: the directories lie on the
      same device and the entries have the same inode number. */
  ghost predicate SameFile(n1: Node, n2: Node, path: Path, ids1: Inodes, ids2: Inodes, r: Path, k: string) {
    && DirAt(n1, r) && DirAt(n2, r) && Exists(n1, r + [k]) && Exists(n2, r + [k])
    && ids1(path + r).dev == ids2(path + r).dev
    && ids1(path + r + [k]).ino == ids2(path + r + [k]).ino
  }

  lemma SameFileHere(n1: Node, n2: Node, path: Path, ids1: Inodes, ids2: Inodes, k: string)
    ensures SameFile(n1, n2, path, ids1, ids2, [], k) <==> Shared(Some(n1), Some(n2), path, ids1, ids2, k)
  {
    assert [] + [k] == [k] && path + [] == path;
    ChildAt(n1, k);
    ChildAt(n2, k);
  }

  lemma SameFileBelow(n1: Node, n2: Node, path: Path, ids1: Inodes, ids2: Inodes, name: string, r: Path, k: string)
    requires name in n1.children && name in n2.children
    ensures SameFile(n1, n2, path, ids1, ids2, [name] + r, k)
       <==> SameFile(n1.children[name], n2.children[name], path + [name], ids1, ids2, r, k)
  {
    assert ([name] + r)[1..] == r && ([name] + r + [k])[1..] == r + [k];
    assert path + [name] + r == path + ([name] + r);
  }

  /** What a walk records of a tree: the paths on which no entry is the same file as in the other tree. */
  lemma {:induction false} PrunedHas(mine: Node, other: Option<Node>, path: Path, ids: Inodes, idsOther: Inodes,
                                     q: Path)
    requires Wf(mine) && (other.Some? ==> Wf(other.value))
    ensures LookUp(PrunedInfo(mine, other, path, ids, idsOther), q).Some?
       <==> Exists(mine, q)
            && (other.Some? ==> forall r, k :: r + [k] <= q ==> !SameFile(mine, other.value, path, ids, idsOther, r, k))
    ensures var found := LookUp(PrunedInfo(mine, other, path, ids, idsOther), q);
            found.Some? ==>
              Exists(mine, q) && found.value.stat == MetaAt(mine, q).value.stat
              && found.value.capability == MetaAt(mine, q).value.capability
    decreases q
  {
    hide PrunedInfo, SameFile, Wf, Shared;
    PrunedSelf(mine, other, path, ids, idsOther);
    if q != [] {
      var k, rest := q[0], q[1..];
      WfDirBit(mine);
      PrunedKeys(mine, other, path, ids, idsOther, k);
      if k in mine.children {
        if other.Some? {
          WfDirBit(other.value);
        }
        PrunedHas(mine.children[k], ChildOf(other, k), path + [k], ids, idsOther, rest);
        if other.Some? {
          SameFileHere(mine, other.value, path, ids, idsOther, k);
          PeelSameFile(mine, other.value, path, ids, idsOther, k, rest);
          assert q == [k] + rest;
        }
        NotSharedAlone(mine, other, path, ids, idsOther, k);
      }
    } else {
      assert forall r: Path, k: string :: !(r + [k] <= q);
    }
  }

  lemma PrunedSelf(mine: Node, other: Option<Node>, path: Path, ids: Inodes, idsOther: Inodes)
    ensures PrunedInfo(mine, other, path, ids, idsOther).stat == mine.meta.stat
    ensures PrunedInfo(mine, other, path, ids, idsOther).capability == mine.meta.capability
  {
  }

  lemma NotSharedAlone(mine: Node, other: Option<Node>, path: Path, ids: Inodes, idsOther: Inodes, k: string)
    ensures other.None? ==> !Shared(Some(mine), other, path, ids, idsOther, k)
  {
  }

  /** On the way down to [k] + rest: the entry k itself, and what comes below it. */
  lemma PeelSameFile(n1: Node, n2: Node, path: Path, ids1: Inodes, ids2: Inodes, k: string, rest: Path)
    requires Wf(n1) && Wf(n2) && k in n1.children
    ensures (forall r, j :: r + [j] <= [k] + rest ==> !SameFile(n1, n2, path, ids1, ids2, r, j))
       <==> && !SameFile(n1, n2, path, ids1, ids2, [], k)
            && (ChildOf(Some(n2), k).Some? ==>
                  forall r, j :: r + [j] <= rest ==>
                    !SameFile(n1.children[k], ChildOf(Some(n2), k).value, path + [k], ids1, ids2, r, j))
  {
    hide Wf;
    WfDirBit(n2);
    if forall r, j :: r + [j] <= [k] + rest ==> !SameFile(n1, n2, path, ids1, ids2, r, j) {
      assert [] + [k] <= [k] + rest;
      if k in n2.children {
        forall r, j | r + [j] <= rest
          ensures !SameFile(n1.children[k], n2.children[k], path + [k], ids1, ids2, r, j)
        {
          SameFileBelow(n1, n2, path, ids1, ids2, k, r, j);
          assert [k] + r + [j] == [k] + (r + [j]) && [k] + (r + [j]) <= [k] + rest;
        }
      }
    } else {
      var r, j :| r + [j] <= [k] + rest && SameFile(n1, n2, path, ids1, ids2, r, j);
      OnTheWay(n1, n2, path, ids1, ids2, k, rest, r, j);
    }
  }

  lemma OnTheWay(n1: Node, n2: Node, path: Path, ids1: Inodes, ids2: Inodes, k: string, rest: Path, r: Path, j: string)
    requires k in n1.children && r + [j] <= [k] + rest && SameFile(n1, n2, path, ids1, ids2, r, j)
    ensures if r == [] then j == k && SameFile(n1, n2, path, ids1, ids2, [], k)
            else r[0] == k && k in n2.children && r[1..] + [j] <= rest
                 && SameFile(n1.children[k], n2.children[k], path + [k], ids1, ids2, r[1..], j)
  {
    if r == [] {
      assert (r + [j])[0] == ([k] + rest)[0];
    } else {
      assert r[0] == (r + [j])[0] == ([k] + rest)[0] == k;
      assert r == [k] + r[1..];
      assert Exists(n2, r);
      SameFileBelow(n1, n2, path, ids1, ids2, k, r[1..], j);
      assert (r + [j])[1..] == r[1..] + [j] && ([k] + rest)[1..] == rest;
    }
  }

  /** Entries taken for the same file are the same, all the way down. */
  ghost predicate SameFilesAgree(n1: Node, n2: Node, path: Path, ids1: Inodes, ids2: Inodes) {
    forall r, k, q :: SameFile(n1, n2, path, ids1, ids2, r, k) ==> MetaAt(n1, r + [k] + q) == MetaAt(n2, r + [k] + q)
  }

  lemma AgreeHere(n1: Node, n2: Node, path: Path, ids1: Inodes, ids2: Inodes, k: string)
    requires SameFilesAgree(n1, n2, path, ids1, ids2) && Shared(Some(n1), Some(n2), path, ids1, ids2, k)
    ensures k in n1.children && k in n2.children && n1.children[k] == n2.children[k]
  {
    SameFileHere(n1, n2, path, ids1, ids2, k);
    forall q ensures MetaAt(n1.children[k], q) == MetaAt(n2.children[k], q) {
      assert ([] + [k] + q)[1..] == q;
      assert MetaAt(n1, [] + [k] + q) == MetaAt(n2, [] + [k] + q);
    }
    Extensional(n1.children[k], n2.children[k]);
  }

  lemma AgreeBelow(n1: Node, n2: Node, path: Path, ids1: Inodes, ids2: Inodes, name: string)
    requires SameFilesAgree(n1, n2, path, ids1, ids2) && name in n1.children && name in n2.children
    ensures SameFilesAgree(n1.children[name], n2.children[name], path + [name], ids1, ids2)
  {
    var c1, c2 := n1.children[name], n2.children[name];
    forall r, k, q | SameFile(c1, c2, path + [name], ids1, ids2, r, k)
      ensures MetaAt(c1, r + [k] + q) == MetaAt(c2, r + [k] + q)
    {
      SameFileBelow(n1, n2, path, ids1, ids2, name, r, k);
      assert MetaAt(n1, [name] + r + [k] + q) == MetaAt(n2, [name] + r + [k] + q);
      assert ([name] + r + [k] + q)[1..] == r + [k] + q;
    }
  }

  lemma {:induction false} AgreeingIsFaithful(n1: Node, n2: Node, path: Path, ids1: Inodes, ids2: Inodes)
    requires SameFilesAgree(n1, n2, path, ids1, ids2)
    ensures Faithful(n1, n2, path, ids1, ids2)
    decreases n1
  {
    hide SameFilesAgree, Shared;
    if n1.IsDir() && n2.IsDir() {
      forall k | k in n1.children && k in n2.children
        ensures if Shared(Some(n1), Some(n2), path, ids1, ids2, k) then n1.children[k] == n2.children[k]
                else Faithful(n1.children[k], n2.children[k], path + [k], ids1, ids2)
      {
        if Shared(Some(n1), Some(n2), path, ids1, ids2, k) {
          AgreeHere(n1, n2, path, ids1, ids2, k);
        } else {
          AgreeBelow(n1, n2, path, ids1, ids2, k);
          AgreeingIsFaithful(n1.children[k], n2.children[k], path + [k], ids1, ids2);
        }
      }
    }
  }

  lemma {:induction false} FaithfulAt(n1: Node, n2: Node, path: Path, ids1: Inodes, ids2: Inodes, r: Path, k: string,
                                      q: Path)
    requires Wf(n1) && Wf(n2) && Faithful(n1, n2, path, ids1, ids2) && SameFile(n1, n2, path, ids1, ids2, r, k)
    ensures MetaAt(n1, r + [k] + q) == MetaAt(n2, r + [k] + q)
    decreases r
  {
    hide Shared, SameFile, Wf;
    if r == [] {
      SameFileHere(n1, n2, path, ids1, ids2, k);
      SharedInBoth(n1, n2, path, ids1, ids2, k);
      assert ([] + [k] + q)[1..] == q;
    } else {
      var name := r[0];
      WayDown(n1, n2, path, ids1, ids2, r, k);
      WfDirBit(n1);
      WfDirBit(n2);
      assert r == [name] + r[1..];
      SameFileBelow(n1, n2, path, ids1, ids2, name, r[1..], k);
      assert (r + [k] + q)[1..] == r[1..] + [k] + q;
      if !Shared(Some(n1), Some(n2), path, ids1, ids2, name) {
        FaithfulAt(n1.children[name], n2.children[name], path + [name], ids1, ids2, r[1..], k, q);
      }
    }
  }

  lemma SharedInBoth(n1: Node, n2: Node, path: Path, ids1: Inodes, ids2: Inodes, k: string)
    requires Shared(Some(n1), Some(n2), path, ids1, ids2, k)
    ensures n1.IsDir() && n2.IsDir() && k in n1.children && k in n2.children
  {
  }

  lemma WayDown(n1: Node, n2: Node, path: Path, ids1: Inodes, ids2: Inodes, r: Path, k: string)
    requires SameFile(n1, n2, path, ids1, ids2, r, k) && r != []
    ensures r[0] in n1.children && r[0] in n2.children
  {
    assert Exists(n1, r) && Exists(n2, r);
  }

  /** So the condition under which pruning is sound is one on inodes and contents. */
  lemma FaithfulIff(n1: Node, n2: Node, path: Path, ids1: Inodes, ids2: Inodes)
    requires Wf(n1) && Wf(n2)
    ensures Faithful(n1, n2, path, ids1, ids2) <==> SameFilesAgree(n1, n2, path, ids1, ids2)
  {
    if SameFilesAgree(n1, n2, path, ids1, ids2) {
      AgreeingIsFaithful(n1, n2, path, ids1, ids2);
    }
    if Faithful(n1, n2, path, ids1, ids2) {
      hide Faithful, SameFile, Wf;
      forall r, k, q | SameFile(n1, n2, path, ids1, ids2, r, k)
        ensures MetaAt(n1, r + [k] + q) == MetaAt(n2, r + [k] + q)
      {
        FaithfulAt(n1, n2, path, ids1, ids2, r, k, q);
      }
    }
  }

  /** ChangesDirs: the pruned walk and the comparison together find every change of the full trees. */
  method ChangesDirs(newDir: Node, oldDir: Node, idsNew: Inodes, idsOld: Inodes)
    returns (changes: seq<Change>, err: Option<WalkError>)
    requires Wf(oldDir) && Wf(newDir) && oldDir.IsDir() && newDir.IsDir()
    requires SameFilesAgree(oldDir, newDir, [], idsOld, idsNew)
    ensures err == None && Covers(changes, FullInfo(newDir), Some(FullInfo(oldDir)), true, [], {})
  {
    hide *;
    FaithfulIff(oldDir, newDir, [], idsOld, idsNew);
    var oldRoot, newRoot;
    oldRoot, newRoot, err := CollectFileInfoForChanges(oldDir, newDir, idsOld, idsNew);
    PrunedWf(newDir, Some(oldDir), [], idsNew, idsOld, []);
    changes := ChangesBetween(newRoot, oldRoot);
    PruningLosesNothing(changes, oldDir, newDir, idsOld, idsNew);
  }
}
