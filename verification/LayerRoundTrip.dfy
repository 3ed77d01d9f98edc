/**
  The law a layer exists for: exporting the difference between two trees and unpacking it
  on the old one gives the new one. The theorems at the end say exactly when it holds.
 */
module LayerRoundTrip {
  import opened Wrappers
  import opened Text
  import opened FsTree
  import opened Changes
  import opened Collect
  import opened LayerExport
  import opened LayerUnpack
  import opened LayerSteps

  ghost predicate TwoTrees(old_: Node, new_: Node) {
    Wf(old_) && Wf(new_) && old_.IsDir() && new_.IsDir()
  }

  /** A sorted change list from `old_` to `new_`. */
  ghost predicate IsDiff(changes: seq<Change>, old_: Node, new_: Node) {
    && OnlyEntries(changes, FullInfo(new_), Some(FullInfo(old_)), true, [], {})
    && AllEntries(changes, FullInfo(new_), Some(FullInfo(old_)), true, [], {})
    && Distinct(changes) && Sorted(changes)
    && (forall i, r :: 0 <= i < |changes| && [] < r < changes[i].path ==> Lists(changes, r))
  }

  lemma SortedDiff(changes: seq<Change>, old_: Node, new_: Node)
    requires Covers(changes, FullInfo(new_), Some(FullInfo(old_)), true, [], {})
    ensures IsDiff(SortByPath(changes), old_, new_)
  {
    hide KindAt, SortByPath, FullInfo;
    var s := SortByPath(changes);
    SortKeepsCover(changes, FullInfo(new_), FullInfo(old_));
    forall i, r | 0 <= i < |s| && [] < r < s[i].path ensures Lists(s, r) {
      assert s[i] in multiset(changes);
      var j :| 0 <= j < |changes| && changes[j] == s[i];
      assert Lists(changes[..j], r);
      var m :| 0 <= m < j && changes[..j][m].path == r;
      assert changes[m] in multiset(s);
    }
  }

  // ----- what an entry, or its absence, says about the two trees

  ghost predicate EntryFacts(c: Change, old_: Node, new_: Node) {
    && c.path != []
    && (forall i :: 0 <= i < |c.path| ==> OrdinaryName(c.path[i]))
    && (c.kind == Add ==> Exists(new_, c.path) && !Exists(old_, c.path))
    && (c.kind == Modify ==> Exists(new_, c.path) && Exists(old_, c.path))
    && (c.kind == Delete ==> !Exists(new_, c.path) && Exists(old_, c.path))
    && DirsAbove(new_, c.path)
  }

  lemma EntryMeaningAt(old_: Node, new_: Node, q: Path)
    requires TwoTrees(old_, new_) && q != []
    ensures var kind := KindAt(FullInfo(new_), Some(FullInfo(old_)), true, q);
            && (kind == Some(Add) <==> Exists(new_, q) && !Exists(old_, q))
            && (kind == Some(Delete) <==> !Exists(new_, q) && Exists(old_, q) && DirAt(new_, Parent(q)))
            && (kind == Some(Modify) ==> Exists(new_, q) && Exists(old_, q))
            && (Exists(new_, q) && Exists(old_, q) && MetaDiffers(MetaAt(old_, q).value, MetaAt(new_, q).value)
                ==> kind == Some(Modify))
  {
    hide KindAt, Touched, LookUp, WfInfo, FullInfo;
    var n, o := FullInfo(new_), FullInfo(old_);
    FullInfoWf(new_, []);
    EntryMeaning(n, Some(o), [], q);
    FullInfoLookUp(new_, q);
    FullInfoLookUp(old_, q);
    FullInfoLookUp(new_, Parent(q));
    assert [] + Parent(q) == Parent(q);
    if Exists(new_, Parent(q)) {
      WfAt(new_, Parent(q));
    }
  }

  lemma EntryIs(changes: seq<Change>, old_: Node, new_: Node, i: nat)
    requires TwoTrees(old_, new_) && IsDiff(changes, old_, new_) && i < |changes|
    ensures EntryFacts(changes[i], old_, new_)
    ensures ValidPath(changes[i].path)
  {
    hide KindAt, Sorted, Distinct, AllEntries, Wf, MetaAt, FullInfo;
    var c := changes[i];
    var q := c.path;
    assert q[0..] == q;
    EntryMeaningAt(old_, new_, q);
    if c.kind == Delete {
      WfAt(old_, q);
      WfAt(new_, Parent(q));
      forall r | r < q ensures DirAt(new_, r) {
        if r != Parent(q) {
          assert r < Parent(q);
        }
      }
    } else {
      WfAt(new_, q);
    }
  }

  // ----- the tree after the first k entries

  datatype Run = Run(old_: Node, new_: Node, changes: seq<Change>, clock: TarClock, now: Timespec, dest: Path) {
    ghost predicate Good() {
      TwoTrees(old_, new_) && IsDiff(changes, old_, new_)
    }

    /** Removed by one of the first k entries: deleted, or below something that is no longer a directory. */
    ghost predicate Gone(k: nat, q: Path)
      requires k <= |changes|
    {
      exists i :: 0 <= i < k && RemovedBy(changes[i], q)
    }

    ghost predicate RemovedBy(c: Change, q: Path) {
      if c.kind == Delete then c.path <= q else c.path < q && !DirAt(new_, c.path)
    }

    /** What unpacking the entry of `q` leaves there. */
    ghost function Installed(q: Path): Meta
      requires Exists(new_, q)
    {
      var h := FileHeader(q, MetaAt(new_, q).value, clock);
      if DirAt(old_, q) && DirAt(new_, q) then MergedMeta(MetaAt(old_, q).value, h) else NewMeta(h)
    }

    ghost function Expected(k: nat, q: Path): Option<Meta>
      requires k <= |changes|
    {
      if Gone(k, q) then None
      else if Lists(changes[..k], q) && Exists(new_, q) then Some(Installed(q))
      else MetaAt(old_, q)
    }

    ghost predicate Reached(k: nat, t: Node)
      requires k <= |changes|
    {
      forall q :: MetaAt(t, q) == Expected(k, q)
    }
  }

  lemma ListsPrefix(changes: seq<Change>, k: nat, q: Path)
    requires k < |changes|
    ensures Lists(changes[..k + 1], q) <==> Lists(changes[..k], q) || changes[k].path == q
  {
    assert changes[..k + 1] == changes[..k] + [changes[k]];
    ConcatLists(changes[..k], [changes[k]], q);
    if changes[k].path == q {
      assert [changes[k]][0].path == q;
    }
  }

  /** In sorted order a directory's entry is reached before anything below it. */
  lemma AncestorEarlier(run: Run, i: nat, j: nat)
    requires run.Good() && i < |run.changes| && j < |run.changes|
    requires run.changes[i].path < run.changes[j].path
    ensures i < j
  {
    EntryIs(run.changes, run.old_, run.new_, j);
    AncestorIsLess(run.changes[i].path, run.changes[j].path);
  }

  lemma NotYetListed(run: Run, k: nat, q: Path)
    requires run.Good() && k < |run.changes| && run.changes[k].path <= q
    ensures !Lists(run.changes[..k], q)
  {
    if Lists(run.changes[..k], q) {
      var i :| 0 <= i < k && run.changes[..k][i].path == q;
      if run.changes[k].path < q {
        AncestorEarlier(run, k, i);
      }
    }
  }

  /** Nothing at or above an entry's path has been removed when its turn comes. */
  lemma NotGone(run: Run, k: nat, r: Path)
    requires run.Good() && k < |run.changes| && r <= run.changes[k].path
    ensures !run.Gone(k, r)
  {
    hide IsDiff, TwoTrees, DirAt, MetaAt;
    EntryIs(run.changes, run.old_, run.new_, k);
    forall i | 0 <= i < k ensures !run.RemovedBy(run.changes[i], r) {
      EntryIs(run.changes, run.old_, run.new_, i);
      DistinctPaths(run, i, k);
      DirExists(run.new_, run.changes[i].path);
    }
  }

  lemma DistinctPaths(run: Run, i: nat, j: nat)
    requires run.Good() && i < j < |run.changes|
    ensures run.changes[i].path != run.changes[j].path
  {
  }

  lemma DirExists(t: Node, p: Path)
    ensures DirAt(t, p) ==> Exists(t, p)
  {
  }

  /** When an entry's turn comes, everything above it is a directory. */
  lemma AncestorsAreDirs(run: Run, k: nat, r: Path)
    requires run.Good() && k < |run.changes| && r < run.changes[k].path
    ensures run.Expected(k, r).Some? && run.Expected(k, r).value.stat.ftype == Directory
  {
    EntryIs(run.changes, run.old_, run.new_, k);
    assert DirAt(run.new_, r);
    NotGone(run, k, r);
    if r == [] {
      assert DirAt(run.old_, r);
    } else {
      AncestorListed(run, k, r);
    }
  }

  lemma AncestorListed(run: Run, k: nat, r: Path)
    requires run.Good() && k < |run.changes| && [] < r < run.changes[k].path
    ensures Lists(run.changes[..k], r)
  {
    assert Lists(run.changes, r);
    var j :| 0 <= j < |run.changes| && run.changes[j].path == r;
    AncestorEarlier(run, j, k);
    assert run.changes[..k][j].path == r;
  }

  /** Nothing has happened at an entry's own path yet. */
  lemma ExpectedHere(run: Run, k: nat)
    requires run.Good() && k < |run.changes|
    ensures run.Expected(k, run.changes[k].path) == MetaAt(run.old_, run.changes[k].path)
  {
    NotYetListed(run, k, run.changes[k].path);
    NotGone(run, k, run.changes[k].path);
  }

  /** What the k-th entry changes about the expected tree. */
  lemma ExpectedNext(run: Run, k: nat, q: Path)
    requires run.Good() && k < |run.changes|
    ensures var c := run.changes[k];
            var was, now := run.Expected(k, q), run.Expected(k + 1, q);
            if c.kind == Delete then
              now == if c.path <= q then None else was
            else
              && Exists(run.new_, c.path)
              && (q == c.path ==> now == Some(run.Installed(q)))
              && (c.path < q && !DirAt(run.new_, c.path) ==> now == None)
              && (c.path < q && DirAt(run.new_, c.path) ==> now == was)
              && (c.path < q && !DirAt(run.old_, c.path) ==> was == None)
              && (!(c.path <= q) ==> now == was)
  {
    hide IsDiff;
    var c := run.changes[k];
    EntryIs(run.changes, run.old_, run.new_, k);
    ListsPrefix(run.changes, k, q);
    assert run.Gone(k + 1, q) <==> run.Gone(k, q) || run.RemovedBy(c, q);
    if c.path <= q {
      NotYetListed(run, k, q);
    }
    if q == c.path && c.kind != Delete {
      NotGone(run, k, q);
    }
    if c.path < q && !DirAt(run.old_, c.path) && Exists(run.old_, q) {
      WfAt(run.old_, q);
    }
  }

  // ----- one entry

  ghost function EntryHeader(run: Run, k: nat): Header
    requires run.Good() && k < |run.changes|
  {
    EntryIs(run.changes, run.old_, run.new_, k);
    var c := run.changes[k];
    if c.kind == Delete then Whiteout(c.path, run.now)
    else FileHeader(c.path, MetaAt(run.new_, c.path).value, run.clock)
  }

  lemma EntryOfIs(run: Run, k: nat)
    requires run.Good() && k < |run.changes|
    ensures EntryOf(run.new_, run.changes[k], run.clock, run.now) == [EntryHeader(run, k)]
  {
    EntryIs(run.changes, run.old_, run.new_, k);
    LstatBelowDirs(run.new_, run.changes[k].path);
  }

  lemma {:induction false} LayerOfIs(run: Run, k: nat)
    requires run.Good() && k <= |run.changes|
    ensures var layer := LayerOf(run.new_, run.changes[..k], run.clock, run.now);
            |layer| == k && forall i :: 0 <= i < k ==> layer[i] == EntryHeader(run, i)
  {
    hide EntryOf, EntryHeader, IsDiff, TwoTrees;
    if k > 0 {
      LayerOfIs(run, k - 1);
      EntryOfIs(run, k - 1);
      assert run.changes[..k][..k - 1] == run.changes[..k - 1];
    }
  }

  /** The changed symlinks that createTarFile refuses. */
  ghost predicate Escaping(run: Run, c: Change) {
    && c.kind != Delete && c.path != [] && Exists(run.new_, c.path)
    && MetaAt(run.new_, c.path).value.stat.ftype == Symlink
    && LinkEscapes(run.dest, c.path, MetaAt(run.new_, c.path).value.data)
  }

  lemma LstatInPlace(run: Run, k: nat, t: Node)
    requires run.Good() && k < |run.changes| && run.Reached(k, t)
    ensures var p := run.changes[k].path;
            && p != []
            && Lstat(t, p) == (if Exists(run.old_, p) then Lstat(t, p) else NotExist)
            && (Exists(run.old_, p) <==> Lstat(t, p).Found?)
            && (Exists(run.old_, p) ==> Lstat(t, p).node.meta == MetaAt(run.old_, p).value)
            && MetaAt(t, p) == MetaAt(run.old_, p)
            && DirsAbove(t, p)
  {
    var p := run.changes[k].path;
    EntryIs(run.changes, run.old_, run.new_, k);
    forall r | r < p ensures DirAt(t, r) {
      AncestorsAreDirs(run, k, r);
      assert MetaAt(t, r) == run.Expected(k, r);
    }
    ExpectedHere(run, k);
    assert MetaAt(t, p) == run.Expected(k, p);
    LstatBelowDirs(t, p);
  }

  lemma StepDelete(run: Run, k: nat, s: State) returns (t: State)
    requires run.Good() && k < |run.changes| && run.Reached(k, s.root)
    requires run.changes[k].kind == Delete
    ensures Step(run.dest, s, EntryHeader(run, k)) == (t, None)
    ensures run.Reached(k + 1, t.root) && t.dirs == s.dirs
  {
    hide Step, IsDiff, TwoTrees, Lstat, MetaAt;
    var c, h := run.changes[k], EntryHeader(run, k);
    EntryIs(run.changes, run.old_, run.new_, k);
    LstatInPlace(run, k, s.root);
    WhiteoutStep(run.dest, s, c.path, run.now);
    t := s.(root := Remove(s.root, c.path));
    forall q ensures MetaAt(t.root, q) == run.Expected(k + 1, q) {
      RemoveAt(s.root, c.path, q);
      assert MetaAt(s.root, q) == run.Expected(k, q);
      ExpectedNext(run, k, q);
    }
  }

  lemma StepFile(run: Run, k: nat, s: State) returns (t: State)
    requires run.Good() && k < |run.changes| && run.Reached(k, s.root)
    requires run.changes[k].kind != Delete && !Escaping(run, run.changes[k])
    ensures Step(run.dest, s, EntryHeader(run, k)) == (t, None)
    ensures run.Reached(k + 1, t.root)
    ensures t.dirs == if DirAt(run.new_, run.changes[k].path) then s.dirs + [EntryHeader(run, k)] else s.dirs
  {
    hide Step, IsDiff, TwoTrees, Lstat, ApplyEntry, LinkEscapes;
    var c, h := run.changes[k], EntryHeader(run, k);
    EntryIs(run.changes, run.old_, run.new_, k);
    NodeIsWf(run, c.path);
    LstatInPlace(run, k, s.root);
    EntryStep(run.dest, s, h);
    ApplyEntryPlaces(run.dest, s.(size := s.size + h.size), h);
    t := State(Placed(s.root, h), s.unpacked + {h.name},
               if h.etype.DirEntry? then s.dirs + [h] else s.dirs, s.size + h.size);
    forall q ensures MetaAt(t.root, q) == run.Expected(k + 1, q) {
      PlacedIsExpected(run, k, s.root, q);
    }
  }

  lemma NodeIsWf(run: Run, p: Path)
    requires run.Good() && Exists(run.new_, p)
    ensures WfMeta(MetaAt(run.new_, p).value)
  {
    WfAt(run.new_, p);
  }

  lemma PlacedIsExpected(run: Run, k: nat, t: Node, q: Path)
    requires run.Good() && k < |run.changes| && run.Reached(k, t) && run.changes[k].kind != Delete
    ensures run.changes[k].path != [] && MetaAt(Placed(t, EntryHeader(run, k)), q) == run.Expected(k + 1, q)
  {
    hide Step, IsDiff, TwoTrees, Lstat, MergedMeta, NewMeta, Placed;
    var c, h := run.changes[k], EntryHeader(run, k);
    EntryIs(run.changes, run.old_, run.new_, k);
    NodeIsWf(run, c.path);
    LstatInPlace(run, k, t);
    PlacedAt(t, h, q);
    assert MetaAt(t, q) == run.Expected(k, q);
    ExpectedNext(run, k, q);
    assert h.etype.DirEntry? <==> DirAt(run.new_, c.path);
  }

  /** A refused symlink stops the loop; what it replaced is gone by then. */
  lemma StepEscaping(run: Run, k: nat, s: State)
    requires run.Good() && k < |run.changes| && run.Reached(k, s.root)
    requires Escaping(run, run.changes[k])
    ensures Step(run.dest, s, EntryHeader(run, k)).1 == Some(Breakout)
  {
    hide Step, IsDiff, TwoTrees, LinkEscapes;
    var c, h := run.changes[k], EntryHeader(run, k);
    EntryIs(run.changes, run.old_, run.new_, k);
    LstatInPlace(run, k, s.root);
    EntryStep(run.dest, s, h);
    RemoveAllBelowDirs(s.root, c.path);
  }

  // ----- the whole layer

  ghost predicate IsLayer(run: Run, layer: seq<Header>)
    requires run.Good()
  {
    |layer| == |run.changes| && forall i :: 0 <= i < |layer| ==> layer[i] == EntryHeader(run, i)
  }

  /** The listed directories of the new tree, and no others, have their times set at the end. */
  ghost predicate DirHeaders(run: Run, k: nat, dirs: seq<Header>)
    requires k <= |run.changes|
  {
    && (forall h :: h in dirs ==>
          && DirAt(run.new_, h.name) && Lists(run.changes[..k], h.name)
          && h.mtim == run.clock.Stored(MetaAt(run.new_, h.name).value.stat.mtim))
    && (forall q :: Lists(run.changes[..k], q) && DirAt(run.new_, q) ==> Headed(dirs, q))
  }

  ghost predicate Headed(dirs: seq<Header>, q: Path) {
    exists h :: h in dirs && h.name == q
  }

  lemma MoreHeaders(run: Run, k: nat, dirs: seq<Header>, more: seq<Header>)
    requires run.Good() && k < |run.changes| && DirHeaders(run, k, dirs)
    requires more == if DirAt(run.new_, run.changes[k].path) then dirs + [EntryHeader(run, k)] else dirs
    ensures DirHeaders(run, k + 1, more)
  {
    hide IsDiff, TwoTrees, DirAt;
    EntryIs(run.changes, run.old_, run.new_, k);
    var c := run.changes[k];
    DirExists(run.new_, c.path);
    forall q ensures Lists(run.changes[..k + 1], q) <==> Lists(run.changes[..k], q) || c.path == q {
      ListsPrefix(run.changes, k, q);
    }
    assert forall h :: h in more ==> h in dirs || h == EntryHeader(run, k);
    forall q | Lists(run.changes[..k + 1], q) && DirAt(run.new_, q) ensures Headed(more, q) {
      if Lists(run.changes[..k], q) {
        assert Headed(dirs, q);
        var h :| h in dirs && h.name == q;
        assert h in more;
      } else {
        assert more[|dirs|].name == q && more[|dirs|] in more;
      }
    }
  }

  /** What the last header for a directory says, if the directory was listed. */
  ghost function TimeSet(run: Run, q: Path): Option<Timespec> {
    if DirAt(run.new_, q) && Changed(run, q) then Some(run.clock.Stored(MetaAt(run.new_, q).value.stat.mtim)) else None
  }

  lemma {:induction false} LastTimeIs(dirs: seq<Header>, q: Path)
    ensures LastTime(dirs, q).Some? <==> Headed(dirs, q)
    ensures LastTime(dirs, q).Some? ==> exists h :: h in dirs && h.name == q && LastTime(dirs, q) == Some(h.mtim)
  {
    if dirs != [] {
      var rest, last := dirs[..|dirs| - 1], dirs[|dirs| - 1];
      LastTimeIs(rest, q);
      assert dirs == rest + [last];
      assert last in dirs && forall h :: h in rest ==> h in dirs;
    }
  }

  lemma TimesSet(run: Run, dirs: seq<Header>, q: Path)
    requires DirHeaders(run, |run.changes|, dirs)
    ensures LastTime(dirs, q) == TimeSet(run, q)
  {
    hide DirAt;
    assert run.changes[..|run.changes|] == run.changes;
    LastTimeIs(dirs, q);
  }

  lemma {:induction false} ReplayFrom(run: Run, layer: seq<Header>, k: nat, s: State) returns (t: State)
    requires run.Good() && IsLayer(run, layer) && k <= |layer|
    requires run.Reached(k, s.root) && DirHeaders(run, k, s.dirs)
    requires forall i :: k <= i < |layer| ==> !Escaping(run, run.changes[i])
    ensures Replay(run.dest, s, layer[k..]) == (t, None)
    ensures run.Reached(|run.changes|, t.root) && DirHeaders(run, |run.changes|, t.dirs)
    decreases |layer| - k
  {
    hide Step, IsDiff, TwoTrees, Escaping, DirAt, DirHeaders;
    if k == |layer| {
      t := s;
    } else {
      assert layer[k..][0] == layer[k] && layer[k..][1..] == layer[k + 1..];
      if run.changes[k].kind == Delete {
        t := StepDelete(run, k, s);
        DeletedIsNoDir(run, k);
      } else {
        t := StepFile(run, k, s);
      }
      MoreHeaders(run, k, s.dirs, t.dirs);
      t := ReplayFrom(run, layer, k + 1, t);
    }
  }

  lemma DeletedIsNoDir(run: Run, k: nat)
    requires run.Good() && k < |run.changes| && run.changes[k].kind == Delete
    ensures !DirAt(run.new_, run.changes[k].path)
  {
    EntryIs(run.changes, run.old_, run.new_, k);
  }

  lemma {:induction false} ReplayRefused(run: Run, layer: seq<Header>, k: nat, s: State)
    requires run.Good() && IsLayer(run, layer) && k <= |layer|
    requires run.Reached(k, s.root)
    requires exists i :: k <= i < |layer| && Escaping(run, run.changes[i])
    ensures Replay(run.dest, s, layer[k..]).1 == Some(Breakout)
    decreases |layer| - k
  {
    hide Step, IsDiff, TwoTrees, Escaping;
    assert layer[k..][0] == layer[k] && layer[k..][1..] == layer[k + 1..];
    if Escaping(run, run.changes[k]) {
      StepEscaping(run, k, s);
    } else {
      var t;
      if run.changes[k].kind == Delete {
        t := StepDelete(run, k, s);
      } else {
        t := StepFile(run, k, s);
      }
      ReplayRefused(run, layer, k + 1, t);
    }
  }

  lemma ReachedStart(run: Run)
    ensures run.Reached(0, run.old_)
  {
    assert run.changes[..0] == [];
  }

  // ----- the tree at the end

  lemma ListedAt(run: Run, q: Path) returns (i: nat)
    requires Lists(run.changes, q)
    ensures i < |run.changes| && run.changes[i].path == q
  {
    i :| 0 <= i < |run.changes| && run.changes[i].path == q;
  }

  lemma UnlistedFacts(run: Run, q: Path)
    requires run.Good() && q != [] && !Lists(run.changes, q)
    ensures Exists(run.new_, q) ==>
              Exists(run.old_, q) && !MetaDiffers(MetaAt(run.old_, q).value, MetaAt(run.new_, q).value)
    ensures Exists(run.old_, q) && !Exists(run.new_, q) ==> !DirAt(run.new_, Parent(q))
  {
    hide KindAt, TwoTrees;
    EntryMeaningAt(run.old_, run.new_, q);
    assert [] + q == q;
  }

  lemma NothingGone(run: Run, q: Path)
    requires run.Good() && Exists(run.new_, q)
    ensures !run.Gone(|run.changes|, q)
  {
    hide IsDiff;
    WfAt(run.new_, q);
    forall i | 0 <= i < |run.changes| ensures !run.RemovedBy(run.changes[i], q) {
      EntryIs(run.changes, run.old_, run.new_, i);
      if run.changes[i].path <= q {
        ExistsUpward(run.new_, run.changes[i].path, q);
      }
    }
  }

  /** Everything of the old tree that is not in the new one has been removed. */
  lemma {:induction false} GoneEventually(run: Run, q: Path)
    requires run.Good() && Exists(run.old_, q) && !Exists(run.new_, q)
    ensures run.Gone(|run.changes|, q)
    decreases |q|
  {
    hide IsDiff;
    WfAt(run.old_, q);
    var p := Parent(q);
    assert p < q && DirAt(run.old_, p);
    if Lists(run.changes, q) {
      var i := ListedAt(run, q);
      EntryIs(run.changes, run.old_, run.new_, i);
      assert run.RemovedBy(run.changes[i], q);
    } else {
      UnlistedFacts(run, q);
      if Exists(run.new_, p) {
        if !Lists(run.changes, p) {
          UnlistedFacts(run, p);
        }
        var i := ListedAt(run, p);
        EntryIs(run.changes, run.old_, run.new_, i);
        assert run.RemovedBy(run.changes[i], q);
      } else {
        GoneEventually(run, p);
        var i :| 0 <= i < |run.changes| && run.RemovedBy(run.changes[i], p);
        assert run.RemovedBy(run.changes[i], q);
      }
    }
  }

  ghost predicate Changed(run: Run, q: Path) {
    Lists(run.changes, q)
  }

  /** The final tree, path by path. */
  ghost function FinalMeta(run: Run, q: Path): Option<Meta> {
    if !Exists(run.new_, q) then None
    else if Changed(run, q) then Some(run.Installed(q))
    else MetaAt(run.old_, q)
  }

  lemma FinalTree(run: Run, t: Node, q: Path)
    requires run.Good() && run.Reached(|run.changes|, t)
    ensures MetaAt(t, q) == FinalMeta(run, q)
  {
    hide IsDiff;
    var n := |run.changes|;
    assert run.changes[..n] == run.changes;
    assert MetaAt(t, q) == run.Expected(n, q);
    if Exists(run.new_, q) {
      NothingGone(run, q);
    } else if Exists(run.old_, q) {
      GoneEventually(run, q);
    }
  }

  /** The unpacked tree is the expected one, with the times of listed directories set at the end. */
  lemma UnpackedRun(run: Run, layer: seq<Header>) returns (t: Node)
    requires run.Good() && IsLayer(run, layer)
    requires forall i :: 0 <= i < |layer| ==> !Escaping(run, run.changes[i])
    ensures var (root, size, err) := Unpacked(run.dest, run.old_, layer);
            root == t && err == None
    ensures forall q :: SameExceptDirTime(FinalMeta(run, q), MetaAt(t, q))
    ensures forall q :: MetaAt(t, q) == WithTime(FinalMeta(run, q), TimeSet(run, q))
  {
    hide IsDiff, Escaping, Step, DirHeaders, WithTime, LastTime, TimeSet;
    ReachedStart(run);
    NoHeaders(run);
    var s := ReplayFrom(run, layer, 0, State(run.old_, {}, [], 0));
    assert layer[0..] == layer;
    HeadersAreDirs(run, s.dirs);
    forall h | h in s.dirs ensures DirAt(s.root, h.name) && DirsAbove(s.root, h.name) {
      NewDirsAreDirs(run, s.root, h.name);
      WfAt(run.new_, h.name);
      forall r | r < h.name ensures DirAt(s.root, r) {
        NewDirsAreDirs(run, s.root, r);
      }
    }
    t := DirTimes(s.root, s.dirs);
    forall q
      ensures SameExceptDirTime(FinalMeta(run, q), MetaAt(t, q))
      ensures MetaAt(t, q) == WithTime(FinalMeta(run, q), TimeSet(run, q))
    {
      FinalTree(run, s.root, q);
      TimesSet(run, s.dirs, q);
      assert SameExceptDirTime(MetaAt(s.root, q), MetaAt(t, q));
    }
  }

  lemma NoHeaders(run: Run)
    ensures DirHeaders(run, 0, [])
  {
    assert run.changes[..0] == [];
  }

  lemma HeadersAreDirs(run: Run, dirs: seq<Header>)
    requires DirHeaders(run, |run.changes|, dirs)
    ensures forall h :: h in dirs ==> DirAt(run.new_, h.name)
  {
  }

  /** The node that ends up at a path of the new tree has the new node's type. */
  lemma FinalType(run: Run, q: Path)
    requires run.Good() && Exists(run.new_, q)
    ensures FinalMeta(run, q).Some?
    ensures FinalMeta(run, q).value.stat.ftype == MetaAt(run.new_, q).value.stat.ftype
  {
    hide IsDiff;
    WfAt(run.new_, q);
    if Changed(run, q) {
    } else if q != [] {
      UnlistedFacts(run, q);
    }
  }

  lemma NewDirsAreDirs(run: Run, t: Node, q: Path)
    requires run.Good() && run.Reached(|run.changes|, t) && DirAt(run.new_, q)
    ensures DirAt(t, q)
  {
    hide IsDiff;
    FinalTree(run, t, q);
    FinalType(run, q);
  }

  // ----- the theorems

  /** A symlink of the new tree that the layer carries and createTarFile refuses. */
  ghost predicate RefusedLink(new_: Node, dest: Path, c: Change) {
    && c.kind != Delete && c.path != []
    && MetaAt(new_, c.path).Some?
    && MetaAt(new_, c.path).value.stat.ftype == Symlink
    && LinkEscapes(dest, c.path, MetaAt(new_, c.path).value.data)
  }

  ghost function Rebuilt(old_: Node, new_: Node, changes: seq<Change>, clock: TarClock, now: Timespec, dest: Path)
    : (Node, int, Option<LayerError>)
  {
    Unpacked(dest, old_, LayerOf(new_, SortByPath(changes), clock, now))
  }

  lemma RunOf(old_: Node, new_: Node, changes: seq<Change>, clock: TarClock, now: Timespec, dest: Path)
    returns (run: Run)
    requires TwoTrees(old_, new_)
    requires Covers(changes, FullInfo(new_), Some(FullInfo(old_)), true, [], {})
    ensures run == Run(old_, new_, SortByPath(changes), clock, now, dest) && run.Good()
    ensures IsLayer(run, LayerOf(new_, SortByPath(changes), clock, now))
    ensures forall q :: Changed(run, q) <==> Lists(changes, q)
  {
    hide Covers, TwoTrees, IsDiff, SortByPath, LayerOf, EntryHeader;
    SortedDiff(changes, old_, new_);
    run := Run(old_, new_, SortByPath(changes), clock, now, dest);
    LayerOfIs(run, |run.changes|);
    assert run.changes[..|run.changes|] == run.changes;
    forall q ensures Changed(run, q) <==> Lists(changes, q) {
      SortLists(changes, q);
    }
  }

  lemma SortLists(changes: seq<Change>, q: Path)
    ensures Lists(SortByPath(changes), q) <==> Lists(changes, q)
  {
    var s := SortByPath(changes);
    if Lists(s, q) {
      var i :| 0 <= i < |s| && s[i].path == q;
      assert s[i] in multiset(changes);
    }
    if Lists(changes, q) {
      var i :| 0 <= i < |changes| && changes[i].path == q;
      assert changes[i] in multiset(s);
    }
  }

  /** Unpacking the exported difference succeeds exactly when it carries no refused symlink. */
  lemma AppliesIffNoRefusedLink(old_: Node, new_: Node, changes: seq<Change>, clock: TarClock, now: Timespec,
                                dest: Path)
    requires TwoTrees(old_, new_)
    requires Covers(changes, FullInfo(new_), Some(FullInfo(old_)), true, [], {})
    ensures var err := Rebuilt(old_, new_, changes, clock, now, dest).2;
            && (err == None <==> forall c :: c in changes ==> !RefusedLink(new_, dest, c))
            && (err == None || err == Some(Breakout))
  {
    hide Covers, Unpacked, TwoTrees, IsLayer, RefusedLink, IsDiff, SortByPath, LayerOf, Escaping;
    var run := RunOf(old_, new_, changes, clock, now, dest);
    var layer := LayerOf(new_, SortByPath(changes), clock, now);
    SortMembers(changes);
    RefusedIsEscaping(run);
    LayerLength(run, layer);
    if c :| c in changes && RefusedLink(new_, dest, c) {
      assert c in run.changes;
      var i :| 0 <= i < |run.changes| && run.changes[i] == c;
      RefusedRun(run, layer, i);
    } else {
      forall i | 0 <= i < |layer| ensures !Escaping(run, run.changes[i]) {
        assert run.changes[i] in run.changes;
      }
      var t := UnpackedRun(run, layer);
    }
  }

  lemma SortMembers(changes: seq<Change>)
    ensures forall c :: c in changes <==> c in SortByPath(changes)
  {
    assert forall c :: c in changes <==> c in multiset(changes);
    assert forall c :: c in SortByPath(changes) <==> c in multiset(SortByPath(changes));
  }

  /** Refusal needs a ".." in the target: links that only go down are always unpacked. */
  lemma DownwardLinkNotRefused(dest: Path, name: Path, target: string)
    requires name != [] && ".." !in SplitSlash(target)
    ensures !LinkEscapes(dest, name, target)
  {
    var cleaned := CleanOnto(dest + Parent(name), SplitSlash(target));
    CleanOntoGrows(dest + Parent(name), SplitSlash(target));
    assert dest <= cleaned;
    if dest < cleaned {
      RenderConcat(dest, cleaned[|dest|..]);
      assert dest + cleaned[|dest|..] == cleaned;
      var tail := cleaned[0] + Render(cleaned[1..]);
      assert Render(cleaned) == "/" + tail;
      assert PathString(dest) <= PathString(cleaned);
    } else {
      assert dest == cleaned;
    }
  }

  lemma LayerLength(run: Run, layer: seq<Header>)
    requires run.Good() && IsLayer(run, layer)
    ensures |layer| == |run.changes|
  {
  }

  lemma RefusedIsEscaping(run: Run)
    ensures forall c :: RefusedLink(run.new_, run.dest, c) <==> Escaping(run, c)
  {
  }

  lemma RefusedRun(run: Run, layer: seq<Header>, i: nat)
    requires run.Good() && IsLayer(run, layer) && i < |layer| && Escaping(run, run.changes[i])
    ensures Unpacked(run.dest, run.old_, layer).2 == Some(Breakout)
  {
    hide IsDiff, TwoTrees, IsLayer, Escaping;
    ReachedStart(run);
    assert layer[0..] == layer;
    ReplayRefused(run, layer, 0, State(run.old_, {}, [], 0));
  }

  /** Whenever it succeeds, the result has exactly the new tree's paths and types. */
  lemma SamePathsAndTypes(old_: Node, new_: Node, changes: seq<Change>, clock: TarClock, now: Timespec, dest: Path,
                          q: Path)
    requires TwoTrees(old_, new_)
    requires Covers(changes, FullInfo(new_), Some(FullInfo(old_)), true, [], {})
    requires Rebuilt(old_, new_, changes, clock, now, dest).2 == None
    ensures var t := Rebuilt(old_, new_, changes, clock, now, dest).0;
            && (Exists(t, q) <==> Exists(new_, q))
            && (Exists(new_, q) ==> MetaAt(t, q).value.stat.ftype == MetaAt(new_, q).value.stat.ftype)
  {
    hide Covers, Rebuilt, TwoTrees;
    var run := RebuiltRun(old_, new_, changes, clock, now, dest, q);
    if Exists(new_, q) {
      FinalType(run, q);
    }
  }

  lemma RebuiltRun(old_: Node, new_: Node, changes: seq<Change>, clock: TarClock, now: Timespec, dest: Path, q: Path)
    returns (run: Run)
    requires TwoTrees(old_, new_)
    requires Covers(changes, FullInfo(new_), Some(FullInfo(old_)), true, [], {})
    requires Rebuilt(old_, new_, changes, clock, now, dest).2 == None
    ensures run == Run(old_, new_, SortByPath(changes), clock, now, dest) && run.Good()
    ensures Changed(run, q) <==> Lists(changes, q)
    ensures SameExceptDirTime(FinalMeta(run, q), MetaAt(Rebuilt(old_, new_, changes, clock, now, dest).0, q))
    ensures MetaAt(Rebuilt(old_, new_, changes, clock, now, dest).0, q) == WithTime(FinalMeta(run, q), TimeSet(run, q))
  {
    hide Covers, TwoTrees, Unpacked, SameExceptDirTime, IsLayer, Escaping, WithTime, TimeSet;
    run := RunOf(old_, new_, changes, clock, now, dest);
    var layer := LayerOf(new_, SortByPath(changes), clock, now);
    LayerLength(run, layer);
    if exists i :: 0 <= i < |layer| && Escaping(run, run.changes[i]) {
      var i :| 0 <= i < |layer| && Escaping(run, run.changes[i]);
      RefusedRun(run, layer, i);
    } else {
      var t := UnpackedRun(run, layer);
    }
  }

  /** Whether the second a file was modified in survives the archive and the call that sets it: for a
      symlink the nanoseconds have to fit 64 bits, for a file it is the range of Chtimes. */
  predicate SecondSurvives(clock: TarClock, ftype: FileType, t: Timespec) {
    && (clock == Rounded ==> t.nsec < 500_000_000)
    && (if ftype == Symlink then FitsInt64(clock.Stored(t))
        else
          && 0 <= t.sec
          && (t.sec < MAX_SECONDS || (t.sec == MAX_SECONDS && (clock != Exact || t.nsec <= MAX_NANOSECONDS))))
  }

  /** A symlink's time comes back in its own second exactly when it survives. */
  lemma LinkTimeSurvivesIff(clock: TarClock, t: Timespec)
    requires 0 <= t.nsec < 1_000_000_000
    ensures SameFsTimeSpec(LinkTime(clock.Stored(t)), t) <==> SecondSurvives(clock, Symlink, t)
  {
    var s := clock.Stored(t);
    var n := Nanoseconds(s);
    var w := (n + TWO_TO_63) % TWO_TO_64 - TWO_TO_63;
    if FitsInt64(s) {
      assert w == n && LinkTime(s) == s;
    } else if s != ZERO_TIME {
      assert w <= n - TWO_TO_64 || n + TWO_TO_64 <= w;
      assert LinkTime(s).sec != t.sec;
    }
  }

  /** Comparing the result with the new tree again finds a stat difference at a path exactly when
      the path was in the list, is no directory and has a time the archive cannot carry. */
  lemma SameStatIff(old_: Node, new_: Node, changes: seq<Change>, clock: TarClock, now: Timespec, dest: Path, q: Path)
    requires TwoTrees(old_, new_)
    requires Covers(changes, FullInfo(new_), Some(FullInfo(old_)), true, [], {})
    requires Rebuilt(old_, new_, changes, clock, now, dest).2 == None
    requires q != [] && Exists(new_, q)
    ensures var t := Rebuilt(old_, new_, changes, clock, now, dest).0;
            var want := MetaAt(new_, q).value.stat;
            && Exists(t, q)
            && (StatDifferent(MetaAt(t, q).value.stat, want)
                <==> Lists(changes, q) && want.ftype != Directory && !SecondSurvives(clock, want.ftype, want.mtim))
  {
    hide Covers, Rebuilt, IsDiff, SameExceptDirTime;
    var run := RebuiltRun(old_, new_, changes, clock, now, dest, q);
    var t := Rebuilt(old_, new_, changes, clock, now, dest).0;
    WfAt(new_, q);
    FinalType(run, q);
    DirTimeIgnored(FinalMeta(run, q), MetaAt(t, q), MetaAt(new_, q).value);
    if Changed(run, q) {
      InstalledStat(run, q);
    } else {
      UnlistedFacts(run, q);
    }
  }

  lemma DirTimeIgnored(a: Option<Meta>, b: Option<Meta>, want: Meta)
    requires SameExceptDirTime(a, b) && a.Some? && a.value.stat.ftype == want.stat.ftype
    ensures b.Some? && a.value.capability == b.value.capability && a.value.data == b.value.data
    ensures StatDifferent(a.value.stat, want.stat) <==> StatDifferent(b.value.stat, want.stat)
    ensures a.value.stat.ftype == b.value.stat.ftype
  {
  }

  lemma InstalledStat(run: Run, q: Path)
    requires run.Good() && Exists(run.new_, q)
    ensures var want := MetaAt(run.new_, q).value.stat;
            StatDifferent(run.Installed(q).stat, want)
            <==> want.ftype != Directory && !SecondSurvives(run.clock, want.ftype, want.mtim)
  {
    hide IsDiff, LinkTime, FitsInt64;
    WfAt(run.new_, q);
    LinkTimeSurvivesIff(run.clock, MetaAt(run.new_, q).value.stat.mtim);
    if DirAt(run.old_, q) {
      WfAt(run.old_, q);
    }
  }

  /** The capability attribute is the new one, except that a directory in both trees never loses its own. */
  lemma SameCapabilityIff(old_: Node, new_: Node, changes: seq<Change>, clock: TarClock, now: Timespec, dest: Path,
                          q: Path)
    requires TwoTrees(old_, new_)
    requires Covers(changes, FullInfo(new_), Some(FullInfo(old_)), true, [], {})
    requires Rebuilt(old_, new_, changes, clock, now, dest).2 == None
    requires q != [] && Exists(new_, q)
    ensures var t := Rebuilt(old_, new_, changes, clock, now, dest).0;
            && Exists(t, q)
            && (MetaAt(t, q).value.capability == MetaAt(new_, q).value.capability
                <==> !(DirAt(old_, q) && DirAt(new_, q)
                       && MetaAt(new_, q).value.capability == "" && MetaAt(old_, q).value.capability != ""))
  {
    hide Covers, Rebuilt, IsDiff, SameExceptDirTime;
    var run := RebuiltRun(old_, new_, changes, clock, now, dest, q);
    var t := Rebuilt(old_, new_, changes, clock, now, dest).0;
    FinalType(run, q);
    DirTimeIgnored(FinalMeta(run, q), MetaAt(t, q), MetaAt(new_, q).value);
    if !Changed(run, q) {
      UnlistedFacts(run, q);
    }
  }

  /** Contents and link targets: new where the list has an entry, untouched everywhere else. */
  lemma ContentsFollowList(old_: Node, new_: Node, changes: seq<Change>, clock: TarClock, now: Timespec, dest: Path,
                           q: Path)
    requires TwoTrees(old_, new_)
    requires Covers(changes, FullInfo(new_), Some(FullInfo(old_)), true, [], {})
    requires Rebuilt(old_, new_, changes, clock, now, dest).2 == None
    requires q != [] && Exists(new_, q)
    ensures var t := Rebuilt(old_, new_, changes, clock, now, dest).0;
            && Exists(t, q)
            && (if Lists(changes, q) then MetaAt(t, q).value.data == MetaAt(new_, q).value.data
                else Exists(old_, q) && MetaAt(t, q).value.data == MetaAt(old_, q).value.data)
  {
    hide Covers, Rebuilt, IsDiff, SameExceptDirTime;
    var run := RebuiltRun(old_, new_, changes, clock, now, dest, q);
    var t := Rebuilt(old_, new_, changes, clock, now, dest).0;
    WfAt(new_, q);
    FinalType(run, q);
    DirTimeIgnored(FinalMeta(run, q), MetaAt(t, q), MetaAt(new_, q).value);
    if Changed(run, q) {
      if DirAt(old_, q) {
        WfAt(old_, q);
      }
    } else {
      UnlistedFacts(run, q);
    }
  }
}
