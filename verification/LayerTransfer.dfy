/**
  Moving the difference between two trees from one disk to another, said in the fields that lstat(2)
  reports, in the texts of the link targets, and in bytes.
 */
module LayerTransfer {
  import opened Wrappers
  import opened Text
  import opened FsTree
  import opened Changes
  import opened ChangeFields
  import opened Collect
  import opened LayerExport
  import opened LayerUnpack
  import opened LayerSteps
  import opened LayerRoundTrip
  import opened LinkTargets

  // ----- the fields

  lemma InstalledFields(run: Run, q: Path)
    requires run.Good() && Exists(run.new_, q)
    ensures var m, want := run.Installed(q), MetaAt(run.new_, q).value;
            && m.stat.ftype == want.stat.ftype && m.stat.perm == want.stat.perm && m.stat.rdev == want.stat.rdev
            && m.stat.uid == want.stat.uid && m.stat.gid == want.stat.gid
            && (want.stat.ftype != Directory ==> m.stat.size == want.stat.size && m.data == want.data)
            && (want.stat.ftype == Regular ==> m.stat.mtim == ClampTime(run.clock.Stored(want.stat.mtim)))
            && (want.stat.ftype == Symlink ==> m.stat.mtim == LinkTime(run.clock.Stored(want.stat.mtim)))
  {
    hide IsDiff, LinkTime, ClampTime, TarClock.Stored;
    WfAt(run.new_, q);
    if DirAt(run.old_, q) {
      WfAt(run.old_, q);
    }
  }

  lemma SecondKept(clock: TarClock, t: Timespec)
    requires clock == Rounded ==> t.nsec < 500_000_000
    requires 0 <= t.nsec < 1_000_000_000
    ensures 0 <= t.sec < 9_223_372_036 ==> ClampTime(clock.Stored(t)).sec == t.sec
    ensures -9_223_372_036 <= t.sec < 9_223_372_036 ==> LinkTime(clock.Stored(t)).sec == t.sec
  {
    var s := clock.Stored(t);
    assert s.sec == t.sec;
    if -9_223_372_036 <= t.sec < 9_223_372_036 {
      assert FitsInt64(s) && s != ZERO_TIME;
      assert (Nanoseconds(s) + TWO_TO_63) % TWO_TO_64 == Nanoseconds(s) + TWO_TO_63;
    }
  }

  /** The result has every field that lstat(2) reports of the new tree's files, whether or not their times
      survive. */
  lemma FieldsComeBack(old_: Node, new_: Node, changes: seq<Change>, clock: TarClock, now: Timespec, dest: Path,
                       q: Path)
    requires TwoTrees(old_, new_)
    requires Covers(changes, FullInfo(new_), Some(FullInfo(old_)), true, [], {})
    requires Rebuilt(old_, new_, changes, clock, now, dest).2 == None
    requires q != [] && Exists(new_, q)
    ensures Exists(Rebuilt(old_, new_, changes, clock, now, dest).0, q)
    ensures var m, want := MetaAt(Rebuilt(old_, new_, changes, clock, now, dest).0, q).value, MetaAt(new_, q).value;
            && m.stat.ftype == want.stat.ftype && m.stat.perm == want.stat.perm && m.stat.rdev == want.stat.rdev
            && m.stat.uid == want.stat.uid && m.stat.gid == want.stat.gid
            && (want.stat.ftype != Directory ==> m.stat.size == want.stat.size)
  {
    hide Covers, Rebuilt, IsDiff, SameExceptDirTime, Run.Installed, WithTime;
    var run := RebuiltRun(old_, new_, changes, clock, now, dest, q);
    var t := Rebuilt(old_, new_, changes, clock, now, dest).0;
    FinalType(run, q);
    DirTimeOnly(FinalMeta(run, q), MetaAt(t, q));
    WfAt(new_, q);
    if Changed(run, q) {
      InstalledFields(run, q);
    } else {
      UnlistedFacts(run, q);
      NotDifferent(MetaAt(old_, q).value, MetaAt(new_, q).value);
    }
  }

  lemma DirTimeOnly(a: Option<Meta>, b: Option<Meta>)
    requires SameExceptDirTime(a, b) && a.Some?
    ensures b.Some? && b.value == a.value.(stat := a.value.stat.(mtim := b.value.stat.mtim))
    ensures a.value.stat.ftype != Directory ==> a == b
  {
  }

  lemma NotDifferent(was: Meta, want: Meta)
    requires !MetaDiffers(was, want)
    ensures was.stat.ftype == want.stat.ftype && was.stat.perm == want.stat.perm && was.stat.rdev == want.stat.rdev
    ensures was.stat.uid == want.stat.uid && was.stat.gid == want.stat.gid
    ensures want.stat.ftype in {Regular, Symlink} ==>
              was.stat.size == want.stat.size && was.stat.mtim.sec == want.stat.mtim.sec
  {
  }

  /** The second of a time comes back where the archive and the call that sets it can carry it; a directory
      that is not in the list keeps the time it had. */
  lemma TimesComeBack(old_: Node, new_: Node, changes: seq<Change>, clock: TarClock, now: Timespec, dest: Path,
                      q: Path)
    requires TwoTrees(old_, new_)
    requires Covers(changes, FullInfo(new_), Some(FullInfo(old_)), true, [], {})
    requires Rebuilt(old_, new_, changes, clock, now, dest).2 == None
    requires q != [] && Exists(new_, q)
    ensures Exists(Rebuilt(old_, new_, changes, clock, now, dest).0, q)
    ensures var m, want := MetaAt(Rebuilt(old_, new_, changes, clock, now, dest).0, q).value, MetaAt(new_, q).value;
            var listed := exists c :: c in changes && c.path == q;
            && (listed ==>
                  (clock == Rounded ==> want.stat.mtim.nsec < 500_000_000)
                  && (if want.stat.ftype == Symlink then -9_223_372_036 else 0) <= want.stat.mtim.sec < 9_223_372_036
                  ==> m.stat.mtim.sec == want.stat.mtim.sec)
            && (listed && want.stat.ftype != Symlink ==>
                  var stored := clock.Stored(want.stat.mtim);
                  m.stat.mtim ==
                    if stored.sec >= 0 && stored.sec * 1_000_000_000 + stored.nsec <= 9_223_372_036_854_775_807
                    then stored else Timespec(0, 0))
            && (!listed && want.stat.ftype != Directory ==> m.stat.mtim.sec == want.stat.mtim.sec)
            && (!listed ==> Exists(old_, q) && m.stat.mtim == MetaAt(old_, q).value.stat.mtim)
  {
    hide Covers, Rebuilt, IsDiff, SameExceptDirTime, Run.Installed, ClampTime, LinkTime, TarClock.Stored, Wf;
    var run := RebuiltRun(old_, new_, changes, clock, now, dest, q);
    var t := Rebuilt(old_, new_, changes, clock, now, dest).0;
    FinalType(run, q);
    DirTimeOnly(FinalMeta(run, q), MetaAt(t, q));
    WfAt(new_, q);
    ListedIs(changes, q);
    var want := MetaAt(new_, q).value;
    if Changed(run, q) {
      InstalledFields(run, q);
      ClampRange(clock.Stored(want.stat.mtim));
      StoredNanoseconds(clock, want.stat.mtim);
      if clock == Rounded ==> want.stat.mtim.nsec < 500_000_000 {
        SecondKept(clock, want.stat.mtim);
      }
    } else {
      UnlistedFacts(run, q);
      NotDifferent(MetaAt(old_, q).value, want);
    }
  }

  lemma StoredNanoseconds(clock: TarClock, t: Timespec)
    requires 0 <= t.nsec < 1_000_000_000
    ensures 0 <= clock.Stored(t).nsec < 1_000_000_000
  {
  }

  /** system.Chtimes takes the times from the epoch on that fit 63 bits of nanoseconds. */
  lemma ClampRange(t: Timespec)
    ensures 0 <= t.nsec < 1_000_000_000 ==>
              ClampTime(t) == if t.sec >= 0 && t.sec * 1_000_000_000 + t.nsec <= 9_223_372_036_854_775_807 then t
                              else Timespec(0, 0)
  {
  }

  lemma ListedIs(changes: seq<Change>, q: Path)
    ensures Lists(changes, q) <==> exists c :: c in changes && c.path == q
  {
    if Lists(changes, q) {
      var i :| 0 <= i < |changes| && changes[i].path == q;
      assert changes[i] in changes;
    }
  }

  // ----- the links

  lemma RefusedLinkIs(new_: Node, dest: Path, c: Change, ups: nat)
    requires c.kind != Delete && c.path != [] && MetaAt(new_, c.path).Some?
    requires MetaAt(new_, c.path).value.stat.ftype == Symlink
    requires UpsThenDown(Cleaned(MetaAt(new_, c.path).value.data), ups)
    ensures var base, downs := dest + Parent(c.path), Cleaned(MetaAt(new_, c.path).value.data)[ups..];
            RefusedLink(new_, dest, c)
            <==> !(PathString(dest) <= PathString(base[..if ups <= |base| then |base| - ups else 0] + downs))
  {
    hide Cleaned, PathString, LinkEscapes;
    RefusedIff(dest, c.path, MetaAt(new_, c.path).value.data, ups);
  }

  /** Whether a link of the new tree leads, from where it lies, to a path whose text begins with that of the
      destination. */
  ghost predicate LinkStays(new_: Node, dest: Path, path: Path) {
    path != [] && MetaAt(new_, path).Some? && MetaAt(new_, path).value.stat.ftype == Symlink ==>
      forall ups: nat :: UpsThenDown(Cleaned(MetaAt(new_, path).value.data), ups) ==>
        var base, downs := dest + Parent(path), Cleaned(MetaAt(new_, path).value.data)[ups..];
        PathString(dest) <= PathString(base[..if ups <= |base| then |base| - ups else 0] + downs)
  }

  /** Success is decided by the texts of the changed links alone. */
  lemma AppliesIffLinksStay(old_: Node, new_: Node, changes: seq<Change>, clock: TarClock, now: Timespec, dest: Path)
    requires TwoTrees(old_, new_)
    requires Covers(changes, FullInfo(new_), Some(FullInfo(old_)), true, [], {})
    ensures Rebuilt(old_, new_, changes, clock, now, dest).2 == None
       <==> forall c :: c in changes && c.kind != Delete ==> LinkStays(new_, dest, c.path)
  {
    hide Covers, TwoTrees, Rebuilt, RefusedLink, LinkStays, FullInfo;
    AppliesIffNoRefusedLink(old_, new_, changes, clock, now, dest);
    forall c | c in changes
      ensures !RefusedLink(new_, dest, c) <==> (c.kind != Delete ==> LinkStays(new_, dest, c.path))
    {
      StaysIffNotRefused(new_, dest, c);
    }
  }

  lemma StaysIffNotRefused(new_: Node, dest: Path, c: Change)
    ensures !RefusedLink(new_, dest, c) <==> (c.kind != Delete ==> LinkStays(new_, dest, c.path))
  {
    hide Cleaned, PathString, LinkEscapes;
    if c.kind != Delete && c.path != [] && MetaAt(new_, c.path).Some?
       && MetaAt(new_, c.path).value.stat.ftype == Symlink {
      var ups := SomeUps(MetaAt(new_, c.path).value.data);
      forall k: nat | UpsThenDown(Cleaned(MetaAt(new_, c.path).value.data), k) ensures k == ups {
        OneForm(Cleaned(MetaAt(new_, c.path).value.data), k, ups);
      }
      RefusedLinkIs(new_, dest, c, ups);
    }
  }

  // ----- the size

  function TotalSize(layer: seq<Header>): int {
    if layer == [] then 0 else layer[0].size + TotalSize(layer[1..])
  }

  lemma {:induction false} ReplayAddsSizes(dest: Path, s: State, layer: seq<Header>)
    ensures var (t, e) := Replay(dest, s, layer);
            e == None ==> t.size == s.size + TotalSize(layer)
    decreases |layer|
  {
    if layer != [] {
      StepAddsSize(dest, s, layer[0]);
      var (t, e) := Step(dest, s, layer[0]);
      hide Step;
      if e == None {
        ReplayAddsSizes(dest, t, layer[1..]);
      }
    }
  }

  lemma StepAddsSize(dest: Path, s: State, h: Header)
    ensures Step(dest, s, h).1 == None ==> Step(dest, s, h).0.size == s.size + h.size
  {
    hide EnsureParent, Install, RemoveAll, Lstat, ApplyWhiteout;
  }

  /** What UnpackLayer returns for any layer: the sizes of all headers, or with an error 0. */
  lemma UnpackedSize(dest: Path, root: Node, layer: seq<Header>)
    ensures Unpacked(dest, root, layer).1 == if Unpacked(dest, root, layer).2 == None then TotalSize(layer) else 0
  {
    hide SetDirTimes, Replay;
    ReplayAddsSizes(dest, State(root, {}, [], 0), layer);
  }

  /** How many bytes of contents the listed files of the new tree have. */
  ghost function ContentBytes(new_: Node, changes: seq<Change>): nat {
    if changes == [] then 0 else BytesOf(new_, changes[|changes| - 1]) + ContentBytes(new_, changes[..|changes| - 1])
  }

  ghost function BytesOf(new_: Node, c: Change): nat {
    if c.kind != Delete && MetaAt(new_, c.path).Some? && MetaAt(new_, c.path).value.stat.ftype == Regular
    then |MetaAt(new_, c.path).value.data| else 0
  }

  lemma {:induction false} TotalConcat(a: seq<Header>, b: seq<Header>)
    ensures TotalSize(a + b) == TotalSize(a) + TotalSize(b)
  {
    if a == [] {
      assert a + b == b;
    } else {
      assert (a + b)[1..] == a[1..] + b;
      TotalConcat(a[1..], b);
    }
  }

  lemma {:induction false} LayerBytes(run: Run, k: nat)
    requires run.Good() && k <= |run.changes|
    ensures TotalSize(LayerOf(run.new_, run.changes[..k], run.clock, run.now))
         == ContentBytes(run.new_, run.changes[..k])
  {
    hide EntryOf, Run.Good, BytesOf, EntryHeader;
    if k > 0 {
      var last := run.changes[k - 1];
      assert run.changes[..k][..k - 1] == run.changes[..k - 1];
      LayerBytes(run, k - 1);
      EntryOfIs(run, k - 1);
      HeaderBytes(run, k - 1);
      TotalConcat(LayerOf(run.new_, run.changes[..k - 1], run.clock, run.now), [EntryHeader(run, k - 1)]);
      assert [EntryHeader(run, k - 1)][1..] == [];
    }
  }

  lemma HeaderBytes(run: Run, k: nat)
    requires run.Good() && k < |run.changes|
    ensures EntryHeader(run, k).size == BytesOf(run.new_, run.changes[k])
  {
    hide IsDiff, TwoTrees;
    EntryIs(run.changes, run.old_, run.new_, k);
    if run.changes[k].kind != Delete {
      NodeIsWf(run, run.changes[k].path);
    }
  }

  lemma {:induction false} BytesConcat(new_: Node, a: seq<Change>, b: seq<Change>)
    ensures ContentBytes(new_, a + b) == ContentBytes(new_, a) + ContentBytes(new_, b)
    decreases |b|
  {
    if b == [] {
      assert a + b == a;
    } else {
      assert (a + b)[..|a + b| - 1] == a + b[..|b| - 1];
      BytesConcat(new_, a, b[..|b| - 1]);
    }
  }

  lemma {:induction false} BytesInserted(new_: Node, c: Change, s: seq<Change>)
    ensures ContentBytes(new_, InsertSorted(c, s)) == BytesOf(new_, c) + ContentBytes(new_, s)
  {
    BytesOne(new_, c);
    BytesConcat(new_, [c], s);
    if s != [] && PathLess(s[0], c) {
      BytesInserted(new_, c, s[1..]);
      BytesOne(new_, s[0]);
      BytesConcat(new_, [s[0]], InsertSorted(c, s[1..]));
      BytesConcat(new_, [s[0]], s[1..]);
      assert s == [s[0]] + s[1..];
    }
  }

  lemma BytesOne(new_: Node, c: Change)
    ensures ContentBytes(new_, [c]) == BytesOf(new_, c)
  {
    assert [c][..0] == [];
  }

  lemma {:induction false} BytesSorted(new_: Node, s: seq<Change>)
    ensures ContentBytes(new_, SortByPath(s)) == ContentBytes(new_, s)
  {
    if s != [] {
      BytesSorted(new_, s[1..]);
      BytesInserted(new_, s[0], SortByPath(s[1..]));
      BytesOne(new_, s[0]);
      BytesConcat(new_, [s[0]], s[1..]);
      assert s == [s[0]] + s[1..];
    }
  }

  /** The size that is returned: the bytes of the listed files, whatever the order of the list. */
  lemma SizeIsContents(old_: Node, new_: Node, changes: seq<Change>, clock: TarClock, now: Timespec, dest: Path)
    requires TwoTrees(old_, new_)
    requires Covers(changes, FullInfo(new_), Some(FullInfo(old_)), true, [], {})
    ensures Rebuilt(old_, new_, changes, clock, now, dest).2 == None ==>
              Rebuilt(old_, new_, changes, clock, now, dest).1 == ContentBytes(new_, changes)
  {
    hide Covers, TwoTrees, IsDiff, SortByPath, Unpacked, LayerOf, ContentBytes;
    var run := RunOf(old_, new_, changes, clock, now, dest);
    var layer := LayerOf(new_, SortByPath(changes), clock, now);
    UnpackedSize(dest, old_, layer);
    LayerBytes(run, |run.changes|);
    assert run.changes[..|run.changes|] == run.changes;
    BytesSorted(new_, changes);
  }

  // ----- all of it

  /** The contents and fields of one path of the new tree, as they are found on the disk afterwards. */
  lemma ComesBack(old_: Node, new_: Node, changes: seq<Change>, clock: TarClock, now: Timespec, dest: Path, q: Path)
    requires TwoTrees(old_, new_)
    requires Covers(changes, FullInfo(new_), Some(FullInfo(old_)), true, [], {})
    requires Rebuilt(old_, new_, changes, clock, now, dest).2 == None
    requires q != [] && Exists(new_, q)
    ensures var t := Rebuilt(old_, new_, changes, clock, now, dest).0;
            && Exists(t, q) && SameFields(MetaAt(t, q).value, MetaAt(new_, q).value)
            && (if exists c :: c in changes && c.path == q then MetaAt(t, q).value.data == MetaAt(new_, q).value.data
                else Exists(old_, q) && MetaAt(t, q).value.data == MetaAt(old_, q).value.data)
            && (SecondSurvives(clock, MetaAt(new_, q).value.stat.ftype, MetaAt(new_, q).value.stat.mtim)
                ==> !StatDifferent(MetaAt(t, q).value.stat, MetaAt(new_, q).value.stat))
  {
    hide Covers, TwoTrees, Rebuilt, SecondSurvives, StatDifferent;
    FieldsComeBack(old_, new_, changes, clock, now, dest, q);
    ContentsFollowList(old_, new_, changes, clock, now, dest, q);
    SameStatIff(old_, new_, changes, clock, now, dest, q);
    ListedIs(changes, q);
  }

  ghost predicate SameFields(m: Meta, want: Meta) {
    && m.stat.ftype == want.stat.ftype && m.stat.perm == want.stat.perm && m.stat.rdev == want.stat.rdev
    && m.stat.uid == want.stat.uid && m.stat.gid == want.stat.gid
    && (want.stat.ftype != Directory ==> m.stat.size == want.stat.size)
  }

  /** The whole way: collect both trees, compare, export, unpack in place. */
  method TransferByLayer(disk: Disk, new_: Node, clock: TarClock, now: Timespec, dest: Path)
    returns (ghost changes: seq<Change>, size: int, err: Option<LayerError>)
    requires TwoTrees(disk.root, new_)
    modifies disk
    ensures Covers(changes, FullInfo(new_), Some(FullInfo(old(disk.root))), true, [], {})
    ensures err == None <==> forall c :: c in changes && c.kind != Delete ==> LinkStays(new_, dest, c.path)
    ensures err == None ==> size == ContentBytes(new_, changes)
    ensures err == None ==> forall q :: Exists(disk.root, q) <==> Exists(new_, q)
    ensures err == None ==> forall q :: q != [] && Exists(new_, q) ==>
              && Exists(disk.root, q)
              && SameFields(MetaAt(disk.root, q).value, MetaAt(new_, q).value)
              && (if exists c :: c in changes && c.path == q
                  then MetaAt(disk.root, q).value.data == MetaAt(new_, q).value.data
                  else Exists(old(disk.root), q)
                       && MetaAt(disk.root, q).value.data == MetaAt(old(disk.root), q).value.data)
              && (SecondSurvives(clock, MetaAt(new_, q).value.stat.ftype, MetaAt(new_, q).value.stat.mtim)
                  ==> !StatDifferent(MetaAt(disk.root, q).value.stat, MetaAt(new_, q).value.stat))
  {
    hide Covers, TwoTrees, Unpacked, SecondSurvives, StatDifferent, FullInfo, LookUp, Wf, LinkStays, SameFields,
         ContentBytes;
    ghost var old_ := disk.root;
    TreesAreWf(old_, new_);
    FullInfoWf(new_, []);
    var newRoot, newErr := CollectFileInfo(new_);
    var oldRoot, oldErr := CollectFileInfo(disk.root);
    var found := ChangesBetween(newRoot, oldRoot);
    changes := found;
    var layer := ExportChanges(new_, found, clock, now);
    size, err := disk.UnpackLayer(dest, layer);
    AppliesIffLinksStay(old_, new_, changes, clock, now, dest);
    SizeIsContents(old_, new_, changes, clock, now, dest);
    if err == None {
      forall q ensures Exists(disk.root, q) <==> Exists(new_, q) {
        SamePathsAndTypes(old_, new_, changes, clock, now, dest, q);
      }
      forall q | q != [] && Exists(new_, q)
        ensures Exists(disk.root, q) && SameFields(MetaAt(disk.root, q).value, MetaAt(new_, q).value)
        ensures if exists c :: c in changes && c.path == q
                then MetaAt(disk.root, q).value.data == MetaAt(new_, q).value.data
                else Exists(old_, q) && MetaAt(disk.root, q).value.data == MetaAt(old_, q).value.data
        ensures SecondSurvives(clock, MetaAt(new_, q).value.stat.ftype, MetaAt(new_, q).value.stat.mtim)
                ==> !StatDifferent(MetaAt(disk.root, q).value.stat, MetaAt(new_, q).value.stat)
      {
        ComesBack(old_, new_, changes, clock, now, dest, q);
      }
    }
  }

  lemma TreesAreWf(old_: Node, new_: Node)
    requires TwoTrees(old_, new_)
    ensures Wf(old_) && Wf(new_) && new_.IsDir()
  {
  }
}
