/**
  Writing a layer: ExportChanges sorts a change list by path and turns every entry into
  a tar header, a deletion into a whiteout.
 */
module LayerExport {
  import opened Wrappers
  import opened Text
  import opened FsTree
  import opened Changes

  datatype EntryType = DirEntry | RegEntry | SymlinkEntry | CharEntry

  /** A tar header together with the contents that follow it. `data` is a link's target for a symlink. */
  datatype Header = Header(name: Path, etype: EntryType, perm: nat, uid: int, gid: int, size: int,
                           mtim: Timespec, data: string, capability: string, rdev: int)

  /** What the tar writer does to a time stamp: keep it, or drop or round away the nanoseconds. */
  datatype TarClock = Exact | Truncated | Rounded {
    function Stored(t: Timespec): Timespec {
      match this
      case Exact => t
      case Truncated => Timespec(t.sec, 0)
      case Rounded => Timespec(if t.nsec >= 500_000_000 then t.sec + 1 else t.sec, 0)
    }
  }

  function TypeOf(ftype: FileType): EntryType {
    match ftype
    case Directory => DirEntry
    case Symlink => SymlinkEntry
    case Char => CharEntry
    case _ => RegEntry
  }

  /** FileInfoHeader and the capability attribute. */
  function FileHeader(name: Path, m: Meta, clock: TarClock): Header {
    var size := if m.stat.ftype == Regular then m.stat.size else 0;
    Header(name, TypeOf(m.stat.ftype), m.stat.perm, m.stat.uid, m.stat.gid, size,
           clock.Stored(m.stat.mtim), m.data, m.capability, m.stat.rdev)
  }

  /** The empty regular file that stands for the deletion of `path`. */
  function Whiteout(path: Path, now: Timespec): Header
    requires path != []
  {
    Header(Parent(path) + [WHITEOUT_PREFIX + Base(path)], RegEntry, 0, 0, 0, 0, now, "", "", 0)
  }

  /** What one change adds to the archive; a file that is gone is skipped. */
  function EntryOf(dir: Node, c: Change, clock: TarClock, now: Timespec): seq<Header> {
    if c.kind == Delete then
      if c.path == [] then [] else [Whiteout(c.path, now)]
    else
      match Lstat(dir, c.path)
      case Found(node) => [FileHeader(c.path, node.meta, clock)]
      case _ => []
  }

  function LayerOf(dir: Node, changes: seq<Change>, clock: TarClock, now: Timespec): seq<Header> {
    if changes == [] then []
    else LayerOf(dir, changes[..|changes| - 1], clock, now) + EntryOf(dir, changes[|changes| - 1], clock, now)
  }

  // ----- sort.Sort(changesByPath(...))

  predicate PathLess(a: Change, b: Change) {
    Less(PathString(a.path), PathString(b.path))
  }

  function InsertSorted(c: Change, s: seq<Change>): (r: seq<Change>)
    ensures multiset(r) == multiset(s) + multiset{c}
  {
    if s == [] || !PathLess(s[0], c) then [c] + s
    else
      assert s == [s[0]] + s[1..];
      [s[0]] + InsertSorted(c, s[1..])
  }

  function SortByPath(s: seq<Change>): (r: seq<Change>)
    ensures multiset(r) == multiset(s)
  {
    if s == [] then []
    else
      assert s == [s[0]] + s[1..];
      InsertSorted(s[0], SortByPath(s[1..]))
  }

  ghost predicate Sorted(s: seq<Change>) {
    forall i, j :: 0 <= i < j < |s| ==> !PathLess(s[j], s[i])
  }

  lemma {:induction false} InsertKeepsSorted(c: Change, s: seq<Change>)
    requires Sorted(s)
    ensures Sorted(InsertSorted(c, s))
  {
    var r := InsertSorted(c, s);
    if s == [] {
    } else if !PathLess(s[0], c) {
      forall j | 0 <= j < |s| ensures !PathLess(s[j], c) {
        NotLessTransitive(s[j], s[0], c);
      }
    } else {
      InsertKeepsSorted(c, s[1..]);
      var t := InsertSorted(c, s[1..]);
      forall j | 0 <= j < |t| ensures !PathLess(t[j], s[0]) {
        assert t[j] in multiset(t);
        assert t[j] in s[1..] || t[j] == c;
        LessTransitive2(s[0], c);
      }
    }
  }

  lemma LessTransitive2(a: Change, b: Change)
    requires PathLess(a, b)
    ensures !PathLess(b, a)
  {
    if PathLess(b, a) {
      LessTransitive(PathString(a.path), PathString(b.path), PathString(a.path));
      LessIrreflexive(PathString(a.path));
    }
  }

  lemma NotLessTransitive(a: Change, b: Change, c: Change)
    requires a == b || !PathLess(a, b)
    requires !PathLess(b, c)
    ensures !PathLess(a, c)
  {
    var x, y, z := PathString(a.path), PathString(b.path), PathString(c.path);
    LessTotal(x, y);
    LessTotal(y, z);
    if PathLess(a, c) {
      if Less(z, y) {
        LessTransitive(x, z, y);
      }
    }
  }

  lemma {:induction false} SortIsSorted(s: seq<Change>)
    ensures Sorted(SortByPath(s))
  {
    if s != [] {
      SortIsSorted(s[1..]);
      InsertKeepsSorted(s[0], SortByPath(s[1..]));
    }
  }

  ghost predicate ValidPaths(s: seq<Change>) {
    forall c :: c in s ==> ValidPath(c.path)
  }

  /** The first element of a sorted list is its least path, and only one element has it. */
  lemma SameFirst(s: seq<Change>, t: seq<Change>)
    requires multiset(s) == multiset(t) && s != [] && t != [] && Sorted(s) && Sorted(t)
    requires Distinct(s) && ValidPaths(s)
    ensures s[0] == t[0]
  {
    assert s[0] in multiset(t) && t[0] in multiset(s);
    var i :| 0 <= i < |t| && t[i] == s[0];
    var j :| 0 <= j < |s| && s[j] == t[0];
    assert j > 0 ==> !PathLess(t[0], s[0]);
    assert i > 0 ==> !PathLess(s[0], t[0]);
    LessTotal(PathString(s[0].path), PathString(s[j].path));
    if PathString(s[0].path) == PathString(s[j].path) {
      PathStringInjective(s[0].path, s[j].path);
    }
  }

  lemma TailMultiset(s: seq<Change>)
    requires s != []
    ensures multiset(s) == multiset{s[0]} + multiset(s[1..])
    ensures multiset(s[1..]) == multiset(s) - multiset{s[0]}
    ensures s == [s[0]] + s[1..]
  {
    assert s == [s[0]] + s[1..];
  }

  lemma TailSorted(s: seq<Change>)
    requires s != [] && Sorted(s)
    ensures Sorted(s[1..])
  {
  }

  /** With distinct paths there is only one sorted order, whatever the sorting algorithm
      and whatever order the maps were iterated in. */
  lemma {:induction false} SortedUnique(s: seq<Change>, t: seq<Change>)
    requires multiset(s) == multiset(t) && Sorted(s) && Sorted(t)
    requires Distinct(s) && ValidPaths(s)
    ensures s == t
  {
    hide Sorted, PathLess;
    assert |multiset(s)| == |multiset(t)|;
    if s != [] {
      SameFirst(s, t);
      TailSorted(s);
      TailSorted(t);
      TailMultiset(s);
      TailMultiset(t);
      SortedUnique(s[1..], t[1..]);
    }
  }

  method ExportChanges(dir: Node, changes: seq<Change>, clock: TarClock, now: Timespec)
    returns (layer: seq<Header>)
    ensures layer == LayerOf(dir, SortByPath(changes), clock, now)
  {
    var sorted := SortByPath(changes);
    layer := [];
    for i := 0 to |sorted|
      invariant layer == LayerOf(dir, sorted[..i], clock, now)
    {
      assert sorted[..i + 1][..i] == sorted[..i];
      layer := layer + EntryOf(dir, sorted[i], clock, now);
    }
    assert sorted[..|sorted|] == sorted;
  }

  // ----- sorting keeps what the diff promised

  lemma PermutationMembers(s: seq<Change>, t: seq<Change>)
    requires multiset(s) == multiset(t)
    ensures forall c :: c in s <==> c in t
  {
    assert forall c :: c in s <==> c in multiset(s);
    assert forall c :: c in t <==> c in multiset(t);
  }

  lemma PermutationLists(s: seq<Change>, t: seq<Change>, q: Path)
    requires (forall c :: c in s ==> c in t) && Lists(s, q)
    ensures Lists(t, q)
  {
    var i :| 0 <= i < |s| && s[i].path == q;
    assert s[i] in t;
  }

  lemma SortKeepsCover(changes: seq<Change>, info: FileInfo, oldInfo: FileInfo)
    requires Covers(changes, info, Some(oldInfo), true, [], {})
    ensures var s := SortByPath(changes);
            && OnlyEntries(s, info, Some(oldInfo), true, [], {})
            && AllEntries(s, info, Some(oldInfo), true, [], {})
            && Distinct(s) && Sorted(s)
  {
    hide KindAt, SortByPath, Sorted, Lists, ParentsFirst, Distinct;
    var s := SortByPath(changes);
    SortIsSorted(changes);
    PermutationMembers(changes, s);
    forall i | 0 <= i < |s|
      ensures [] < s[i].path && KindAt(info, Some(oldInfo), true, s[i].path[0..]) == Some(s[i].kind)
    {
      assert s[i] in changes;
    }
    forall q | q != [] && KindAt(info, Some(oldInfo), true, q).Some? ensures Lists(s, [] + q) {
      PermutationLists(changes, s, [] + q);
    }
    PermutationDistinct(changes, s);
  }

  lemma PermutationDistinct(s: seq<Change>, t: seq<Change>)
    requires multiset(s) == multiset(t) && Distinct(s)
    ensures Distinct(t)
  {
    forall i, j | 0 <= i < j < |t| ensures t[i].path != t[j].path {
      if t[i].path == t[j].path {
        assert t[i] in multiset(s) && t[j] in multiset(s);
        assert t[i] == t[j];
        assert t == t[..i] + [t[i]] + t[i + 1..j] + [t[j]] + t[j + 1..];
        assert multiset(t)[t[i]] >= 2;
        DistinctCount(s, t[i]);
      }
    }
  }

  lemma {:induction false} DistinctCount(s: seq<Change>, c: Change)
    requires Distinct(s)
    ensures multiset(s)[c] <= 1
  {
    if s != [] {
      assert s == [s[0]] + s[1..];
      DistinctCount(s[1..], c);
      if c == s[0] {
        assert c !in s[1..];
      }
    }
  }

  /** Two runs of the comparison that iterate their maps differently still export the same layer. */
  lemma LayerIndependentOfMapOrder(one: seq<Change>, two: seq<Change>, new_: Node, info: FileInfo, oldInfo: FileInfo,
                                   clock: TarClock, now: Timespec)
    requires Covers(one, info, Some(oldInfo), true, [], {}) && Covers(two, info, Some(oldInfo), true, [], {})
    requires ValidPaths(one)
    ensures LayerOf(new_, SortByPath(one), clock, now) == LayerOf(new_, SortByPath(two), clock, now)
  {
    SameEntries(one, two, info, oldInfo);
    SortIsSorted(one);
    SortIsSorted(two);
    PermutationDistinct(one, SortByPath(one));
    assert forall c :: c in SortByPath(one) ==> c in multiset(one);
    SortedUnique(SortByPath(one), SortByPath(two));
  }

  lemma SameEntries(one: seq<Change>, two: seq<Change>, info: FileInfo, oldInfo: FileInfo)
    requires Covers(one, info, Some(oldInfo), true, [], {}) && Covers(two, info, Some(oldInfo), true, [], {})
    ensures multiset(one) == multiset(two)
  {
    hide KindAt;
    forall c ensures multiset(one)[c] == multiset(two)[c] {
      DistinctCount(one, c);
      DistinctCount(two, c);
      if c in one {
        Carried(one, two, info, oldInfo, c);
      }
      if c in two {
        Carried(two, one, info, oldInfo, c);
      }
    }
  }

  lemma Carried(one: seq<Change>, two: seq<Change>, info: FileInfo, oldInfo: FileInfo, c: Change)
    requires Covers(one, info, Some(oldInfo), true, [], {}) && Covers(two, info, Some(oldInfo), true, [], {})
    requires c in one
    ensures c in two
  {
    hide KindAt;
    var i :| 0 <= i < |one| && one[i] == c;
    var q := c.path[0..];
    assert q == c.path;
    assert Lists(two, [] + q);
    var j :| 0 <= j < |two| && two[j].path == [] + q;
    assert two[j].path[0..] == q;
  }
}
