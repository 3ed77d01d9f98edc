/** What a change list says, in the fields that lstat(2) reports. */
module ChangeFields {
  import opened Wrappers
  import opened Text
  import opened FsTree
  import opened Changes

  /** The list has this entry. */
  ghost predicate Has(changes: seq<Change>, path: Path, kind: ChangeKind) {
    Change(path, kind) in changes
  }

  lemma HasKind(changes: seq<Change>, info: FileInfo, oldInfo: FileInfo, q: Path, kind: ChangeKind)
    requires Covers(changes, info, Some(oldInfo), true, [], {}) && q != []
    ensures Has(changes, q, kind) <==> KindAt(info, Some(oldInfo), true, q) == Some(kind)
  {
    hide KindAt;
    assert [] + q == q && q[0..] == q;
    if Has(changes, q, kind) {
      var i :| 0 <= i < |changes| && changes[i] == Change(q, kind);
    }
    if KindAt(info, Some(oldInfo), true, q) == Some(kind) {
      assert Lists(changes, [] + q);
      var i :| 0 <= i < |changes| && changes[i].path == q;
    }
  }

  lemma {:induction false} LookUpBelow(info: FileInfo, q: Path, r: Path)
    ensures LookUp(info, q + r) == if LookUp(info, q).Some? then LookUp(LookUp(info, q).value, r) else None
  {
    if q == [] {
      assert q + r == r;
    } else if q[0] in info.children {
      assert (q + r)[1..] == q[1..] + r;
      LookUpBelow(info.children[q[0]], q[1..], r);
    }
  }

  /** Whether a path has an entry can be told from its node and the one that was there. */
  lemma EntryBelow(info: FileInfo, oldInfo: FileInfo, q: Path, r: Path)
    requires WfInfo(info, []) && q != [] && r != []
    requires LookUp(info, q).Some? && LookUp(oldInfo, q).Some? && LookUp(info, q).value.stat.ftype.DirBit()
    ensures KindAt(info, Some(oldInfo), true, q + r)
         == KindAt(LookUp(info, q).value, LookUp(oldInfo, q), true, r)
  {
    hide KindAt, Touched, WfInfo, Differs, LookUp, FileType.DirBit;
    EntryMeaning(info, Some(oldInfo), [], q + r);
    WfInfoAt(info, [], q);
    assert [] + q == q;
    EntryMeaning(LookUp(info, q).value, LookUp(oldInfo, q), q, r);
    LookUpBelow(info, q, r);
    LookUpBelow(oldInfo, q, r);
    assert Parent(q + r) == q + Parent(r);
    LookUpBelow(info, q, Parent(r));
    assert [] + (q + Parent(r)) == q + Parent(r);
    AnyKind(KindAt(info, Some(oldInfo), true, q + r));
    AnyKind(KindAt(LookUp(info, q).value, LookUp(oldInfo, q), true, r));
  }

  lemma AnyKind(kind: Option<ChangeKind>)
    ensures kind == None || kind == Some(Add) || kind == Some(Modify) || kind == Some(Delete)
  {
    assert kind.Some? ==> kind.value.Add? || kind.value.Modify? || kind.value.Delete?;
  }

  /** Something below a directory was touched exactly when the list has an entry below it. */
  lemma TouchedMeansBelow(changes: seq<Change>, info: FileInfo, oldInfo: FileInfo, q: Path)
    requires WfInfo(info, []) && q != [] && Covers(changes, info, Some(oldInfo), true, [], {})
    requires LookUp(info, q).Some? && LookUp(oldInfo, q).Some? && LookUp(info, q).value.stat.ftype.DirBit()
    ensures Touched(LookUp(info, q).value, LookUp(oldInfo, q), true) <==> exists c :: c in changes && q < c.path
  {
    hide KindAt, Touched, WfInfo, Covers;
    var now, was := LookUp(info, q).value, LookUp(oldInfo, q);
    if Touched(now, was, true) {
      var r := TouchedWitness(now, was, true);
      EntryBelow(info, oldInfo, q, r);
      var kind := KindAt(info, Some(oldInfo), true, q + r).value;
      HasKind(changes, info, oldInfo, q + r, kind);
      assert Change(q + r, kind) in changes && q < q + r;
    }
    if c :| c in changes && q < c.path {
      var r := c.path[|q|..];
      assert c.path == q + r && c == Change(q + r, c.kind);
      HasKind(changes, info, oldInfo, q + r, c.kind);
      EntryBelow(info, oldInfo, q, r);
      EntryMeansTouched(now, was, true, r);
    }
  }

  lemma DirBitIs(ftype: FileType)
    ensures ftype.DirBit() <==> ftype in {Directory, Block, Socket}
  {
  }

  /** The list in terms of the fields that lstat(2) reports, for every path of both trees. */
  lemma EntriesByFields(changes: seq<Change>, info: FileInfo, oldInfo: FileInfo, q: Path)
    requires WfInfo(info, []) && q != [] && Covers(changes, info, Some(oldInfo), true, [], {})
    ensures Has(changes, q, Add) <==> LookUp(info, q).Some? && LookUp(oldInfo, q).None?
    ensures Has(changes, q, Delete) <==>
              && LookUp(info, q).None? && LookUp(oldInfo, q).Some? && LookUp(info, Parent(q)).Some?
              && (Parent(q) == [] || LookUp(info, Parent(q)).value.stat.ftype in {Directory, Block, Socket})
    ensures Has(changes, q, Modify) <==>
              && LookUp(info, q).Some? && LookUp(oldInfo, q).Some?
              && (var n, o := LookUp(info, q).value, LookUp(oldInfo, q).value;
                  || n.stat.ftype != o.stat.ftype || n.stat.perm != o.stat.perm
                  || n.stat.uid != o.stat.uid || n.stat.gid != o.stat.gid || n.stat.rdev != o.stat.rdev
                  || n.capability != o.capability
                  || (o.stat.ftype in {Fifo, Char, Regular, Symlink}
                      && (n.stat.size != o.stat.size
                          || n.stat.mtim.sec != o.stat.mtim.sec
                          || (n.stat.mtim.nsec != o.stat.mtim.nsec && n.stat.mtim.nsec != 0 && o.stat.mtim.nsec != 0)))
                  || (n.stat.ftype in {Directory, Block, Socket} && exists c :: c in changes && q < c.path))
  {
    hide KindAt, Touched, WfInfo, Covers, FileType.DirBit;
    HasKind(changes, info, oldInfo, q, Add);
    HasKind(changes, info, oldInfo, q, Delete);
    HasKind(changes, info, oldInfo, q, Modify);
    EntryMeaning(info, Some(oldInfo), [], q);
    assert [] + Parent(q) == Parent(q);
    if LookUp(info, Parent(q)).Some? {
      DirBitIs(LookUp(info, Parent(q)).value.stat.ftype);
    }
    if LookUp(info, q).Some? && LookUp(oldInfo, q).Some? {
      DirBitIs(LookUp(info, q).value.stat.ftype);
      DirBitIs(LookUp(oldInfo, q).value.stat.ftype);
      if LookUp(info, q).value.stat.ftype.DirBit() {
        TouchedMeansBelow(changes, info, oldInfo, q);
      }
    }
  }
}
