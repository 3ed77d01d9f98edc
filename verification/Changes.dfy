/**
  Comparing two file trees: FileInfo.addChanges builds a list of additions,
  modifications and deletions in one recursive pass over maps iterated in no
  particular order, inserting a directory's entry in front of its contents afterwards.
 */
module Changes {
  import opened Wrappers
  import opened Text
  import opened FsTree

  datatype ChangeKind = Modify | Add | Delete

  datatype Change = Change(path: Path, kind: ChangeKind)

  /** FileInfo, with the parent link replaced by the path the traversal carries. */
  datatype FileInfo = FileInfo(stat: Stat, capability: string, children: map<string, FileInfo>)

  /** Equal seconds, and equal nanoseconds unless either clock has none. */
  predicate SameFsTimeSpec(a: Timespec, b: Timespec) {
    a.sec == b.sec && (a.nsec == b.nsec || a.nsec == 0 || b.nsec == 0)
  }

  predicate StatDifferent(old_: Stat, new_: Stat) {
    || old_.ftype != new_.ftype
    || old_.perm != new_.perm
    || old_.uid != new_.uid
    || old_.gid != new_.gid
    || old_.rdev != new_.rdev
    || (!old_.ftype.DirBit() && (!SameFsTimeSpec(old_.mtim, new_.mtim) || old_.size != new_.size))
  }

  predicate Differs(old_: FileInfo, new_: FileInfo) {
    StatDifferent(old_.stat, new_.stat) || old_.capability != new_.capability
  }

  /** The root has no stat and counts as a directory. */
  predicate IsDir(info: FileInfo, path: Path) {
    path == [] || info.stat.ftype.DirBit()
  }

  /** FileInfo.LookUp. */
  function LookUp(info: FileInfo, path: Path): Option<FileInfo> {
    if path == [] then Some(info)
    else if path[0] in info.children then LookUp(info.children[path[0]], path[1..])
    else None
  }

  /** Only directories have children. */
  ghost predicate WfInfo(info: FileInfo, path: Path) {
    && (!IsDir(info, path) ==> info.children == map[])
    && (forall k :: k in info.children ==> WfInfo(info.children[k], path + [k]))
  }

  // ----- what the list has to contain

  function OldChild(oldInfo: Option<FileInfo>, dir: bool, name: string): Option<FileInfo> {
    if dir && oldInfo.Some? && name in oldInfo.value.children then Some(oldInfo.value.children[name]) else None
  }

  /** Something strictly below this node was added, changed or deleted. */
  ghost predicate Touched(info: FileInfo, oldInfo: Option<FileInfo>, dir: bool)
    decreases info, 1
  {
    || (exists k :: k in info.children && ChildTouched(info, oldInfo, dir, k))
    || (dir && oldInfo.Some? && exists k :: k in oldInfo.value.children && k !in info.children)
  }

  ghost predicate ChildTouched(info: FileInfo, oldInfo: Option<FileInfo>, dir: bool, name: string)
    requires name in info.children
    decreases info, 0
  {
    var was := OldChild(oldInfo, dir, name);
    var child := info.children[name];
    was.None? || Differs(was.value, child) || Touched(child, was, child.stat.ftype.DirBit())
  }

  /** The entry that belongs to the path `q`, relative to a node and strictly below it. */
  ghost function KindAt(info: FileInfo, oldInfo: Option<FileInfo>, dir: bool, q: Path): Option<ChangeKind>
    requires q != []
    decreases q
  {
    var was := OldChild(oldInfo, dir, q[0]);
    if q[0] in info.children then
      var child := info.children[q[0]];
      if |q| > 1 then KindAt(child, was, child.stat.ftype.DirBit(), q[1..])
      else if was.None? then Some(Add)
      else if Differs(was.value, child) then Some(Modify)
      else if child.stat.ftype.DirBit() && Touched(child, was, true) then Some(Modify)
      else None
    else if |q| == 1 && was.Some? then Some(Delete)
    else None
  }

  ghost predicate Lists(d: seq<Change>, path: Path) {
    exists i :: 0 <= i < |d| && d[i].path == path
  }

  ghost predicate Distinct(d: seq<Change>) {
    forall i, j :: 0 <= i < j < |d| ==> d[i].path != d[j].path
  }

  /** Every directory strictly between `path` and an entry has its own entry earlier in the list. */
  ghost predicate ParentsFirst(d: seq<Change>, path: Path) {
    forall i, r :: 0 <= i < |d| && path < r < d[i].path ==> Lists(d[..i], r)
  }

  ghost predicate OnlyEntries(d: seq<Change>, info: FileInfo, oldInfo: Option<FileInfo>, dir: bool,
                              path: Path, todo: set<string>)
  {
    forall i :: 0 <= i < |d| ==>
      && path < d[i].path
      && d[i].path[|path|] !in todo
      && KindAt(info, oldInfo, dir, d[i].path[|path|..]) == Some(d[i].kind)
  }

  ghost predicate AllEntries(d: seq<Change>, info: FileInfo, oldInfo: Option<FileInfo>, dir: bool,
                             path: Path, todo: set<string>)
  {
    forall q :: q != [] && q[0] !in todo && KindAt(info, oldInfo, dir, q).Some? ==> Lists(d, path + q)
  }

  /** `d` has exactly the entries of the paths below `path` whose first name is not in `todo`,
      each once, with parents in front. */
  ghost predicate Covers(d: seq<Change>, info: FileInfo, oldInfo: Option<FileInfo>, dir: bool,
                         path: Path, todo: set<string>)
  {
    && OnlyEntries(d, info, oldInfo, dir, path, todo)
    && AllEntries(d, info, oldInfo, dir, path, todo)
    && Distinct(d)
    && ParentsFirst(d, path)
  }

  /** The entry the node itself gets: in front of its contents, unless the caller made it already. */
  ghost function SelfEntry(info: FileInfo, oldInfo: Option<FileInfo>, path: Path, flagged: bool): seq<Change> {
    if oldInfo.None? then [Change(path, Add)]
    else if path != [] && IsDir(info, path) && !flagged && Touched(info, oldInfo, true) then [Change(path, Modify)]
    else []
  }

  lemma {:induction false} TouchedWitness(info: FileInfo, oldInfo: Option<FileInfo>, dir: bool) returns (q: Path)
    requires Touched(info, oldInfo, dir)
    ensures q != [] && KindAt(info, oldInfo, dir, q).Some?
    decreases info
  {
    if dir && oldInfo.Some? && exists k :: k in oldInfo.value.children && k !in info.children {
      var k :| k in oldInfo.value.children && k !in info.children;
      q := [k];
    } else {
      var k :| k in info.children && ChildTouched(info, oldInfo, dir, k);
      var was, child := OldChild(oldInfo, dir, k), info.children[k];
      if was.None? || Differs(was.value, child) {
        q := [k];
      } else {
        var rest := TouchedWitness(child, was, child.stat.ftype.DirBit());
        q := [k] + rest;
        assert q[1..] == rest;
      }
    }
  }

  lemma {:induction false} EntryMeansTouched(info: FileInfo, oldInfo: Option<FileInfo>, dir: bool, q: Path)
    requires q != [] && KindAt(info, oldInfo, dir, q).Some?
    ensures Touched(info, oldInfo, dir)
    decreases q
  {
    if q[0] in info.children && |q| > 1 {
      var child := info.children[q[0]];
      EntryMeansTouched(child, OldChild(oldInfo, dir, q[0]), child.stat.ftype.DirBit(), q[1..]);
    }
  }

  lemma CoversTouched(d: seq<Change>, info: FileInfo, oldInfo: Option<FileInfo>, dir: bool, path: Path)
    requires Covers(d, info, oldInfo, dir, path, {})
    ensures d != [] <==> Touched(info, oldInfo, dir)
  {
    if d != [] {
      EntryMeansTouched(info, oldInfo, dir, d[0].path[|path|..]);
    }
    if Touched(info, oldInfo, dir) {
      var q := TouchedWitness(info, oldInfo, dir);
      assert Lists(d, path + q);
    }
  }

  // ----- how the list grows

  lemma ConcatLists(d: seq<Change>, e: seq<Change>, r: Path)
    ensures Lists(d + e, r) <==> Lists(d, r) || Lists(e, r)
  {
    if Lists(d, r) {
      var i :| 0 <= i < |d| && d[i].path == r;
      assert (d + e)[i].path == r;
    }
    if Lists(e, r) {
      var i :| 0 <= i < |e| && e[i].path == r;
      assert (d + e)[|d| + i].path == r;
    }
  }

  /** Blocks below different names can be appended to one another. */
  lemma ParentsFirstConcat(d: seq<Change>, e: seq<Change>, path: Path)
    requires ParentsFirst(d, path) && ParentsFirst(e, path)
    ensures ParentsFirst(d + e, path)
  {
    forall i, r | 0 <= i < |d + e| && path < r < (d + e)[i].path ensures Lists((d + e)[..i], r) {
      if i < |d| {
        assert (d + e)[..i] == d[..i];
      } else {
        assert Lists(e[..i - |d|], r);
        assert (d + e)[..i] == d + e[..i - |d|];
        ConcatLists(d, e[..i - |d|], r);
      }
    }
  }

  /** An entry for a node in front of what lies below it. */
  lemma ParentsFirstHead(head: Change, e: seq<Change>, path: Path, name: string)
    requires head.path == path + [name] && ParentsFirst(e, path + [name])
    requires forall i :: 0 <= i < |e| ==> path + [name] < e[i].path
    ensures ParentsFirst([head] + e, path)
  {
    var d := [head] + e;
    forall i, r | 0 <= i < |d| && path < r < d[i].path ensures Lists(d[..i], r) {
      if i > 0 {
        assert d[i] == e[i - 1] && path + [name] < e[i - 1].path;
        if r == path + [name] {
          assert d[..i][0].path == r;
        } else {
          assert path + [name] < r;
          assert Lists(e[..i - 1], r);
          assert d[..i] == [head] + e[..i - 1];
          ConcatLists([head], e[..i - 1], r);
        }
      }
    }
  }

  ghost function ChildBlock(strict: seq<Change>, info: FileInfo, oldInfo: Option<FileInfo>, dir: bool,
                            path: Path, name: string): seq<Change>
  {
    var kind := KindAt(info, oldInfo, dir, [name]);
    (if kind.Some? then [Change(path + [name], kind.value)] else []) + strict
  }

  /** What was appended for one child: its own entry and the ones below it. */
  ghost predicate BelowChild(strict: seq<Change>, info: FileInfo, oldInfo: Option<FileInfo>, dir: bool,
                             path: Path, name: string)
  {
    && name in info.children
    && (var child := info.children[name];
        Covers(strict, child, OldChild(oldInfo, dir, name), child.stat.ftype.DirBit(), path + [name], {}))
    && (strict != [] ==> KindAt(info, oldInfo, dir, [name]).Some?)
  }

  lemma ChildBlockOnly(strict: seq<Change>, info: FileInfo, oldInfo: Option<FileInfo>, dir: bool,
                       path: Path, name: string)
    requires BelowChild(strict, info, oldInfo, dir, path, name)
    ensures var e := ChildBlock(strict, info, oldInfo, dir, path, name);
            && Distinct(e)
            && forall i :: 0 <= i < |e| ==> path + [name] <= e[i].path
                                            && KindAt(info, oldInfo, dir, e[i].path[|path|..]) == Some(e[i].kind)
  {
    var e := ChildBlock(strict, info, oldInfo, dir, path, name);
    var h := |e| - |strict|;
    forall i | 0 <= i < |e|
      ensures path + [name] <= e[i].path
      ensures KindAt(info, oldInfo, dir, e[i].path[|path|..]) == Some(e[i].kind)
    {
      if i < h {
        assert e[i].path[|path|..] == [name];
      } else {
        var c := strict[i - h];
        assert e[i] == c && path + [name] < c.path;
        var q := c.path[|path|..];
        assert q[0] == name && q[1..] == c.path[|path + [name]|..];
      }
    }
  }

  lemma ChildBlockAll(strict: seq<Change>, info: FileInfo, oldInfo: Option<FileInfo>, dir: bool,
                      path: Path, name: string, q: Path)
    requires BelowChild(strict, info, oldInfo, dir, path, name)
    requires q != [] && q[0] == name && KindAt(info, oldInfo, dir, q).Some?
    ensures Lists(ChildBlock(strict, info, oldInfo, dir, path, name), path + q)
  {
    var e := ChildBlock(strict, info, oldInfo, dir, path, name);
    var child := info.children[name];
    if |q| == 1 {
      assert q == [name] && e[0].path == path + q;
    } else {
      assert KindAt(child, OldChild(oldInfo, dir, name), child.stat.ftype.DirBit(), q[1..]).Some?;
      assert Lists(strict, path + [name] + q[1..]);
      assert path + q == path + [name] + q[1..];
      ConcatLists(e[..|e| - |strict|], strict, path + q);
      assert e == e[..|e| - |strict|] + strict;
    }
  }

  lemma OnlyConcat(d: seq<Change>, e: seq<Change>, info: FileInfo, oldInfo: Option<FileInfo>, dir: bool,
                   path: Path, todo: set<string>, name: string)
    requires OnlyEntries(d, info, oldInfo, dir, path, todo) && name in todo
    requires forall i :: 0 <= i < |e| ==> path + [name] <= e[i].path
                                          && KindAt(info, oldInfo, dir, e[i].path[|path|..]) == Some(e[i].kind)
    ensures OnlyEntries(d + e, info, oldInfo, dir, path, todo - {name})
    ensures Distinct(d) && Distinct(e) ==> Distinct(d + e)
  {
    hide KindAt;
    assert forall i :: 0 <= i < |e| ==> path < e[i].path && e[i].path[|path|] == name;
  }

  lemma AllConcat(d: seq<Change>, e: seq<Change>, info: FileInfo, oldInfo: Option<FileInfo>, dir: bool,
                  path: Path, todo: set<string>, name: string)
    requires AllEntries(d, info, oldInfo, dir, path, todo)
    requires forall q :: q != [] && q[0] == name && KindAt(info, oldInfo, dir, q).Some? ==> Lists(e, path + q)
    ensures AllEntries(d + e, info, oldInfo, dir, path, todo - {name})
  {
    hide KindAt, Lists;
    forall q | q != [] && q[0] !in todo - {name} && KindAt(info, oldInfo, dir, q).Some?
      ensures Lists(d + e, path + q)
    {
      ConcatLists(d, e, path + q);
    }
  }

  lemma ParentsFirstBlock(strict: seq<Change>, info: FileInfo, oldInfo: Option<FileInfo>, dir: bool,
                          path: Path, name: string)
    requires BelowChild(strict, info, oldInfo, dir, path, name)
    ensures ParentsFirst(ChildBlock(strict, info, oldInfo, dir, path, name), path)
  {
    hide KindAt, ParentsFirst;
    var e := ChildBlock(strict, info, oldInfo, dir, path, name);
    if |e| > |strict| {
      ParentsFirstHead(e[0], strict, path, name);
    } else {
      NothingParentsFirst(path);
    }
  }

  lemma NothingParentsFirst(path: Path)
    ensures ParentsFirst([], path)
  {
  }

  lemma CoversChild(d: seq<Change>, strict: seq<Change>, info: FileInfo, oldInfo: Option<FileInfo>, dir: bool,
                    path: Path, todo: set<string>, name: string)
    requires Covers(d, info, oldInfo, dir, path, todo) && name in todo
    requires BelowChild(strict, info, oldInfo, dir, path, name)
    ensures Covers(d + ChildBlock(strict, info, oldInfo, dir, path, name), info, oldInfo, dir, path, todo - {name})
  {
    hide KindAt, OnlyEntries, AllEntries, Distinct, ParentsFirst, Lists, BelowChild, ChildBlock;
    var e := ChildBlock(strict, info, oldInfo, dir, path, name);
    ChildBlockOnly(strict, info, oldInfo, dir, path, name);
    OnlyConcat(d, e, info, oldInfo, dir, path, todo, name);
    ParentsFirstBlock(strict, info, oldInfo, dir, path, name);
    ParentsFirstConcat(d, e, path);
    forall q | q != [] && q[0] == name && KindAt(info, oldInfo, dir, q).Some? ensures Lists(e, path + q) {
      ChildBlockAll(strict, info, oldInfo, dir, path, name, q);
    }
    AllConcat(d, e, info, oldInfo, dir, path, todo, name);
  }

  lemma CoversDelete(d: seq<Change>, info: FileInfo, oldInfo: Option<FileInfo>, dir: bool,
                     path: Path, todo: set<string>, name: string)
    requires Covers(d, info, oldInfo, dir, path, todo)
    requires name in todo && name !in info.children && OldChild(oldInfo, dir, name).Some?
    ensures Covers(d + [Change(path + [name], Delete)], info, oldInfo, dir, path, todo - {name})
  {
    var c := Change(path + [name], Delete);
    assert c.path[|path|..] == [name];
    assert ParentsFirst([c], path);
    ParentsFirstConcat(d, [c], path);
    forall q | q != [] && q[0] !in todo - {name} && KindAt(info, oldInfo, dir, q).Some?
      ensures Lists(d + [c], path + q)
    {
      if q[0] == name {
        assert q == [name];
        assert [c][0].path == path + q;
      }
      ConcatLists(d, [c], path + q);
    }
  }

  // ----- the traversal

  /** The list has grown from `start` by the entries of the names already visited. */
  ghost predicate Grown(changes: seq<Change>, start: seq<Change>, info: FileInfo, oldInfo: Option<FileInfo>,
                        dir: bool, path: Path, todo: set<string>)
  {
    start <= changes && Covers(changes[|start|..], info, oldInfo, dir, path, todo)
  }

  /** `after` is `before` with what addChanges appends for this node. */
  ghost predicate Appended(before: seq<Change>, after: seq<Change>, info: FileInfo, oldInfo: Option<FileInfo>,
                           path: Path, flagged: bool)
  {
    Grown(after, before + SelfEntry(info, oldInfo, path, flagged), info, oldInfo, IsDir(info, path), path, {})
  }

  lemma Reassociate(a: seq<Change>, b: seq<Change>, c: seq<Change>, d: seq<Change>)
    ensures (a + b) + c + d == a + (b + (c + d))
    ensures ((a + b) + c + d)[|a|..] == b + (c + d)
  {
  }

  /** The entry a child gets is made by its parent when the two differ, and by itself otherwise. */
  lemma ChildHead(strict: seq<Change>, info: FileInfo, oldInfo: Option<FileInfo>, dir: bool, path: Path, name: string,
                  flagged: bool)
    requires name in info.children && WfInfo(info.children[name], path + [name])
    requires var was := OldChild(oldInfo, dir, name);
             flagged == (was.Some? && Differs(was.value, info.children[name]))
    requires var child := info.children[name];
             Covers(strict, child, OldChild(oldInfo, dir, name), child.stat.ftype.DirBit(), path + [name], {})
    ensures BelowChild(strict, info, oldInfo, dir, path, name)
    ensures ChildBlock(strict, info, oldInfo, dir, path, name)
         == (if flagged then [Change(path + [name], Modify)] else [])
            + SelfEntry(info.children[name], OldChild(oldInfo, dir, name), path + [name], flagged) + strict
  {
    hide Covers;
    var child := info.children[name];
    CoversTouched(strict, child, OldChild(oldInfo, dir, name), child.stat.ftype.DirBit(), path + [name]);
  }

  lemma GrownByChild(was: seq<Change>, before: seq<Change>, after: seq<Change>, start: seq<Change>,
                     info: FileInfo, oldInfo: Option<FileInfo>, dir: bool,
                     path: Path, todo: set<string>, name: string)
    requires Grown(was, start, info, oldInfo, dir, path, todo)
    requires name in todo && name in info.children && WfInfo(info.children[name], path + [name])
    requires var child := info.children[name];
             var oldChild := OldChild(oldInfo, dir, name);
             var flagged := oldChild.Some? && Differs(oldChild.value, child);
             && before == (if flagged then was + [Change(path + [name], Modify)] else was)
             && Appended(before, after, child, oldChild, path + [name], flagged)
    ensures Grown(after, start, info, oldInfo, dir, path, todo - {name})
  {
    hide Covers, KindAt, SelfEntry, ChildBlock, BelowChild, WfInfo, OldChild, Differs;
    var child := info.children[name];
    var oldChild := OldChild(oldInfo, dir, name);
    var flagged := oldChild.Some? && Differs(oldChild.value, child);
    var self := SelfEntry(child, oldChild, path + [name], flagged);
    var strict := after[|before + self|..];
    ChildHead(strict, info, oldInfo, dir, path, name, flagged);
    CoversChild(was[|start|..], strict, info, oldInfo, dir, path, todo, name);
    var own := if flagged then [Change(path + [name], Modify)] else [];
    assert before == was + own;
    Reassociate(start, was[|start|..], own + self, strict);
    assert after == was + (own + self) + strict;
    assert was == start + was[|start|..];
  }

  lemma GrownByNothing(start: seq<Change>, info: FileInfo, oldInfo: Option<FileInfo>, dir: bool,
                       path: Path, todo: set<string>)
    requires todo >= info.children.Keys
    requires dir && oldInfo.Some? ==> todo >= oldInfo.value.children.Keys
    ensures Grown(start, start, info, oldInfo, dir, path, todo)
  {
    assert start[|start|..] == [];
  }

  lemma GrownByDelete(was: seq<Change>, start: seq<Change>, info: FileInfo, oldInfo: Option<FileInfo>, dir: bool,
                      path: Path, todo: set<string>, name: string)
    requires Grown(was, start, info, oldInfo, dir, path, todo)
    requires name in todo && name !in info.children && OldChild(oldInfo, dir, name).Some?
    ensures Grown(was + [Change(path + [name], Delete)], start, info, oldInfo, dir, path, todo - {name})
  {
    var after := was + [Change(path + [name], Delete)];
    CoversDelete(was[|start|..], info, oldInfo, dir, path, todo, name);
    assert after[|start|..] == was[|start|..] + [Change(path + [name], Delete)];
  }

  /** Growing a list by one and copying its tail up inserts without disturbing the order of the rest. */
  lemma ShiftedIn(was: seq<Change>, at: nat, c: Change)
    requires at < |was|
    ensures var grown := was + [c];
            var shifted := grown[..at + 1] + grown[at..|was|];
            |grown| == |was| + 1 && |shifted| == |was| + 1 && shifted[at := c] == was[..at] + [c] + was[at..]
  {
    var grown := was + [c];
    assert grown[..at + 1] == was[..at] + [was[at]] && grown[at..|was|] == was[at..];
  }

  /** `oldChildren` holds what the copied map still has: the old children not yet matched by a name. */
  ghost predicate Pending(info: FileInfo, oldInfo: Option<FileInfo>, dir: bool,
                          names: set<string>, oldChildren: map<string, FileInfo>)
  {
    && (forall k :: k in names ==>
          OldChild(oldInfo, dir, k) == if k in oldChildren then Some(oldChildren[k]) else None)
    && (forall k :: k in oldChildren ==>
          OldChild(oldInfo, dir, k).Some? && (k in names || k !in info.children))
  }

  lemma PendingStart(info: FileInfo, oldInfo: Option<FileInfo>, dir: bool, oldChildren: map<string, FileInfo>)
    requires oldChildren == if oldInfo.Some? && dir then oldInfo.value.children else map[]
    ensures Pending(info, oldInfo, dir, info.children.Keys, oldChildren)
  {
  }

  lemma PendingStep(info: FileInfo, oldInfo: Option<FileInfo>, dir: bool,
                    names: set<string>, oldChildren: map<string, FileInfo>, name: string)
    requires Pending(info, oldInfo, dir, names, oldChildren) && name in names
    ensures Pending(info, oldInfo, dir, names - {name}, oldChildren - {name})
    ensures OldChild(oldInfo, dir, name) == if name in oldChildren then Some(oldChildren[name]) else None
    ensures names + oldChildren.Keys - {name} == (names - {name}) + (oldChildren - {name}).Keys
  {
    assert (oldChildren - {name}).Keys == oldChildren.Keys - {name};
  }

  lemma PendingDeletes(info: FileInfo, oldInfo: Option<FileInfo>, dir: bool, oldChildren: map<string, FileInfo>)
    requires Pending(info, oldInfo, dir, {}, oldChildren)
    ensures forall k :: k in oldChildren ==> OldChild(oldInfo, dir, k).Some? && k !in info.children
  {
  }

  /** A directory's own entry, shifted in below the entries made since `before`. */
  lemma GrownToAppended(before: seq<Change>, start: seq<Change>, was: seq<Change>, after: seq<Change>,
                        info: FileInfo, oldInfo: Option<FileInfo>, path: Path, flagged: bool)
    requires start == if oldInfo.None? then before + [Change(path, Add)] else before
    requires Grown(was, start, info, oldInfo, IsDir(info, path), path, {})
    requires after == if oldInfo.Some? && |was| > |before| && IsDir(info, path) && !flagged && path != []
                      then before + [Change(path, Modify)] + was[|before|..] else was
    ensures Appended(before, after, info, oldInfo, path, flagged)
  {
    CoversTouched(was[|start|..], info, oldInfo, IsDir(info, path), path);
    assert was[|start|..] != [] <==> |was| > |start|;
    var self := SelfEntry(info, oldInfo, path, flagged);
    assert after[|before + self|..] == was[|start|..];
  }

  /** Flags have been set at or below `path` only. */
  ghost predicate FlaggedBelow(before: set<Path>, after: set<Path>, path: Path) {
    before <= after && forall r :: r in after ==> r in before || path <= r
  }

  /** No flag is set at or below the children of `path` with these names. */
  ghost predicate Unflagged(added: set<Path>, path: Path, names: set<string>) {
    forall r :: r in added && path < r ==> r[|path|] !in names
  }

  lemma FlaggedStep(start: set<Path>, was: set<Path>, added: set<Path>, path: Path, names: set<string>, name: string)
    requires FlaggedBelow(start, was, path) && Unflagged(was, path, names)
    requires FlaggedBelow(was, added, path + [name])
    ensures FlaggedBelow(start, added, path) && Unflagged(added, path, names - {name})
    ensures path in added <==> path in was
  {
  }

  lemma UnflaggedName(added: set<Path>, path: Path, names: set<string>, name: string)
    requires Unflagged(added, path, names) && name in names
    ensures Unflagged(added, path, {name})
  {
  }

  lemma FlaggedSelf(start: set<Path>, path: Path, names: set<string>)
    requires Unflagged(start, path, names)
    ensures Unflagged(start + {path}, path, names) && FlaggedBelow(start, start + {path}, path)
    ensures FlaggedBelow(start, start, path)
  {
  }

  /** The shared change list and the nodes whose `added` flag is set, by path. */
  class Differ {
    var changes: seq<Change>
    var added: set<Path>

    constructor ()
      ensures changes == [] && added == {}
    {
      changes, added := [], {};
    }

    /** Appends this node's entry, if it gets one, and then one entry for every change below it. */
    method AddChanges(info: FileInfo, oldInfo: Option<FileInfo>, path: Path)
      requires WfInfo(info, path)
      requires Unflagged(added, path, info.children.Keys)
      modifies this
      ensures Appended(old(changes), changes, info, oldInfo, path, path in old(added))
      ensures FlaggedBelow(old(added), added, path)
      decreases info, 1
    {
      hide *;
      var sizeAtEntry := |changes|;
      ghost var dir := IsDir(info, path);
      if oldInfo.None? {
        changes := changes + [Change(path, Add)];
        added := added + {path};
      }
      ghost var start := changes;
      ghost var startAdded := added;
      FlaggedSelf(old(added), path, info.children.Keys);

      var oldChildren: map<string, FileInfo> := map[];
      if oldInfo.Some? && IsDir(info, path) {
        oldChildren := oldInfo.value.children;
      }
      PendingStart(info, oldInfo, dir, oldChildren);
      GrownByNothing(start, info, oldInfo, dir, path, info.children.Keys + oldChildren.Keys);

      var names := info.children.Keys;
      while names != {}
        invariant names <= info.children.Keys
        invariant Pending(info, oldInfo, dir, names, oldChildren)
        invariant start <= changes && Grown(changes, start, info, oldInfo, dir, path, names + oldChildren.Keys)
        invariant FlaggedBelow(old(added), added, path) && (path in added <==> path in startAdded)
        invariant Unflagged(added, path, names)
        decreases |names|
      {
        var name :| name in names;
        ghost var addedThen := added;
        PendingStep(info, oldInfo, dir, names, oldChildren, name);
        UnflaggedName(added, path, names, name);
        VisitChild(info, oldInfo, path, name, oldChildren, start, names + oldChildren.Keys);
        FlaggedStep(old(added), addedThen, added, path, names, name);
        oldChildren := oldChildren - {name};
        names := names - {name};
      }
      PendingDeletes(info, oldInfo, dir, oldChildren);
      assert {} + oldChildren.Keys == oldChildren.Keys;
      AddDeletes(info, oldInfo, path, oldChildren, start);

      RecordDirectory(info, oldInfo, path, sizeAtEntry, old(changes), start, path in old(added));
    }

    /** A directory with changes inside gets an entry in front of them, even when it is unchanged itself. */
    method RecordDirectory(info: FileInfo, oldInfo: Option<FileInfo>, path: Path, sizeAtEntry: nat,
                           ghost before: seq<Change>, ghost start: seq<Change>, ghost flagged: bool)
      requires sizeAtEntry == |before| && (path in added <==> oldInfo.None? || flagged)
      requires start == if oldInfo.None? then before + [Change(path, Add)] else before
      requires start <= changes && Grown(changes, start, info, oldInfo, IsDir(info, path), path, {})
      modifies this`changes
      ensures Appended(before, changes, info, oldInfo, path, flagged)
    {
      hide *;
      ghost var was := changes;
      if |changes| > sizeAtEntry && IsDir(info, path) && path !in added && path != [] {
        InsertAt(sizeAtEntry, Change(path, Modify));
        assert was[..sizeAtEntry] == before;
      }
      GrownToAppended(before, start, was, changes, info, oldInfo, path, flagged);
    }

    /** What is left in the copied map was not found in the new tree. */
    method AddDeletes(info: FileInfo, oldInfo: Option<FileInfo>, path: Path,
                      oldChildren: map<string, FileInfo>, ghost start: seq<Change>)
      requires forall k :: k in oldChildren ==>
                 OldChild(oldInfo, IsDir(info, path), k).Some? && k !in info.children
      requires start <= changes
      requires Grown(changes, start, info, oldInfo, IsDir(info, path), path, oldChildren.Keys)
      modifies this`changes
      ensures start <= changes
      ensures Grown(changes, start, info, oldInfo, IsDir(info, path), path, {})
    {
      hide *;
      ghost var dir := IsDir(info, path);
      var names := oldChildren.Keys;
      while names != {}
        invariant names <= oldChildren.Keys && start <= changes
        invariant Grown(changes, start, info, oldInfo, dir, path, names)
        decreases |names|
      {
        var name :| name in names;
        GrownByDelete(changes, start, info, oldInfo, dir, path, names, name);
        changes := changes + [Change(path + [name], Delete)];
        names := names - {name};
      }
    }

    /** Grow the list by one, copy the entries from `at` on up by one, and overwrite the gap. */
    method InsertAt(at: nat, change: Change)
      requires at < |changes|
      modifies this`changes
      ensures changes == old(changes)[..at] + [change] + old(changes)[at..]
    {
      ShiftedIn(changes, at, change);
      changes := changes + [change];
      changes := changes[..at + 1] + changes[at..|changes| - 1];
      changes := changes[at := change];
    }

    /** One child: its own difference first, then everything below it. */
    method VisitChild(info: FileInfo, oldInfo: Option<FileInfo>, path: Path, name: string,
                      oldChildren: map<string, FileInfo>, ghost start: seq<Change>, ghost todo: set<string>)
      requires WfInfo(info, path) && name in info.children && name in todo
      requires OldChild(oldInfo, IsDir(info, path), name) ==
               if name in oldChildren then Some(oldChildren[name]) else None
      requires Grown(changes, start, info, oldInfo, IsDir(info, path), path, todo)
      requires Unflagged(added, path, {name})
      modifies this
      ensures start <= changes
      ensures Grown(changes, start, info, oldInfo, IsDir(info, path), path, todo - {name})
      ensures FlaggedBelow(old(added), added, path + [name])
      decreases info, 0
    {
      hide Covers, Appended, SelfEntry;
      ghost var was := changes;
      var child := info.children[name];
      var childPath := path + [name];
      assert childPath !in added by {
        assert path < childPath && childPath[|path|] == name;
      }
      var oldChild := if name in oldChildren then Some(oldChildren[name]) else None;
      if oldChild.Some? && Differs(oldChild.value, child) {
        changes := changes + [Change(childPath, Modify)];
        added := added + {childPath};
      }
      assert childPath in added <==> oldChild.Some? && Differs(oldChild.value, child);
      ghost var before := changes;
      AddChanges(child, oldChild, childPath);
      GrownByChild(was, before, changes, start, info, oldInfo, IsDir(info, path), path, todo, name);
    }
  }

  // ----- what the finished list says

  /** FileInfo.Changes on two roots. */
  method ChangesBetween(newRoot: FileInfo, oldRoot: FileInfo) returns (changes: seq<Change>)
    requires WfInfo(newRoot, [])
    ensures Covers(changes, newRoot, Some(oldRoot), true, [], {})
  {
    var differ := new Differ();
    differ.AddChanges(newRoot, Some(oldRoot), []);
    changes := differ.changes;
    assert changes == changes[|[] + SelfEntry(newRoot, Some(oldRoot), [], false)|..];
  }

  function LookUpOld(oldInfo: Option<FileInfo>, q: Path): Option<FileInfo> {
    if oldInfo.Some? then LookUp(oldInfo.value, q) else None
  }

  lemma LookUpName(info: FileInfo, name: string)
    ensures LookUp(info, [name]) == if name in info.children then Some(info.children[name]) else None
  {
    assert [name][1..] == [];
  }

  /** A path's entry depends on what the two trees hold at that path, not on the traversal. */
  lemma {:induction false} EntryMeaning(info: FileInfo, oldInfo: Option<FileInfo>, path: Path, q: Path)
    requires WfInfo(info, path) && q != []
    ensures var dir := IsDir(info, path);
            var now, was := LookUp(info, q), LookUpOld(oldInfo, q);
            var holder := LookUp(info, Parent(q));
            var kind := KindAt(info, oldInfo, dir, q);
            && (kind == Some(Add) <==> now.Some? && was.None?)
            && (kind == Some(Delete) <==>
                now.None? && was.Some? && holder.Some? && IsDir(holder.value, path + Parent(q)))
            && (kind == Some(Modify) <==>
                && now.Some? && was.Some?
                && (Differs(was.value, now.value)
                    || (now.value.stat.ftype.DirBit() && Touched(now.value, was, true))))
    decreases q
  {
    var dir := IsDir(info, path);
    assert q[0] in info.children ==> dir;
    if oldInfo.Some? {
      LookUpName(oldInfo.value, q[0]);
    }
    assert dir ==> OldChild(oldInfo, dir, q[0]) == LookUpOld(oldInfo, [q[0]]);
    if |q| == 1 {
      assert q == [q[0]] && Parent(q) == [] && path + [] == path;
    } else if q[0] in info.children {
      var child := info.children[q[0]];
      EntryMeaning(child, OldChild(oldInfo, dir, q[0]), path + [q[0]], q[1..]);
      assert Parent(q)[1..] == Parent(q[1..]);
      assert path + [q[0]] + Parent(q[1..]) == path + Parent(q);
      assert LookUpOld(oldInfo, q) == LookUpOld(OldChild(oldInfo, dir, q[0]), q[1..]);
    } else {
      assert Parent(q) != [] && Parent(q)[0] == q[0];
    }
  }

  /** The trees have the same paths and no difference in stat or capability below the root. */
  ghost predicate SameTrees(info: FileInfo, oldInfo: FileInfo) {
    forall q :: q != [] ==>
      && (LookUp(info, q).Some? <==> LookUp(oldInfo, q).Some?)
      && (LookUp(info, q).Some? ==> !Differs(LookUp(oldInfo, q).value, LookUp(info, q).value))
  }

  lemma {:induction false} WfInfoAt(info: FileInfo, path: Path, q: Path)
    requires WfInfo(info, path) && LookUp(info, q).Some?
    ensures WfInfo(LookUp(info, q).value, path + q)
  {
    if q == [] {
      assert path + [] == path;
    } else {
      WfInfoAt(info.children[q[0]], path + [q[0]], q[1..]);
      assert path + [q[0]] + q[1..] == path + q;
    }
  }

  lemma {:induction false} LookUpParent(info: FileInfo, q: Path)
    requires q != [] && LookUp(info, q).Some?
    ensures LookUp(info, Parent(q)).Some?
    ensures Base(q) in LookUp(info, Parent(q)).value.children
  {
    if |q| > 1 {
      LookUpParent(info.children[q[0]], q[1..]);
      assert Parent(q)[1..] == Parent(q[1..]);
    }
  }

  /** Without any entry, the paths and attributes agree all the way down to `q`. */
  lemma {:induction false} NoEntryNoDifference(info: FileInfo, oldInfo: FileInfo, q: Path)
    requires WfInfo(info, []) && WfInfo(oldInfo, []) && q != []
    requires forall r :: r != [] ==> KindAt(info, Some(oldInfo), true, r).None?
    ensures LookUp(info, q).Some? <==> LookUp(oldInfo, q).Some?
    ensures LookUp(info, q).Some? ==> !Differs(LookUp(oldInfo, q).value, LookUp(info, q).value)
    decreases |q|
  {
    EntryMeaning(info, Some(oldInfo), [], q);
    assert KindAt(info, Some(oldInfo), true, q).None?;
    var parent := Parent(q);
    assert [] + parent == parent;
    if LookUp(oldInfo, q).Some? {
      LookUpParent(oldInfo, q);
      WfInfoAt(oldInfo, [], parent);
      if parent != [] {
        NoEntryNoDifference(info, oldInfo, parent);
      }
    }
  }

  /** The list is empty exactly when nothing differs. */
  lemma EmptyIffSame(changes: seq<Change>, info: FileInfo, oldInfo: FileInfo)
    requires WfInfo(info, []) && WfInfo(oldInfo, [])
    requires Covers(changes, info, Some(oldInfo), true, [], {})
    ensures changes == [] <==> SameTrees(info, oldInfo)
  {
    if changes == [] {
      forall r | r != [] ensures KindAt(info, Some(oldInfo), true, r).None? {
        assert !Lists(changes, [] + r);
      }
      forall q | q != []
        ensures LookUp(info, q).Some? <==> LookUp(oldInfo, q).Some?
        ensures LookUp(info, q).Some? ==> !Differs(LookUp(oldInfo, q).value, LookUp(info, q).value)
      {
        NoEntryNoDifference(info, oldInfo, q);
      }
    }
    if SameTrees(info, oldInfo) {
      SameNotTouched(info, oldInfo, []);
      CoversTouched(changes, info, Some(oldInfo), true, []);
    }
  }

  lemma {:induction false} SameNotTouched(info: FileInfo, oldInfo: FileInfo, path: Path)
    requires WfInfo(info, path) && SameTrees(info, oldInfo)
    ensures !Touched(info, Some(oldInfo), IsDir(info, path))
    decreases info
  {
    var dir := IsDir(info, path);
    forall k | k in info.children ensures !ChildTouched(info, Some(oldInfo), dir, k) {
      assert LookUp(info, [k]).Some?;
      assert k in oldInfo.children && dir;
      assert LookUp(info, [k]) == Some(info.children[k]) && LookUp(oldInfo, [k]) == Some(oldInfo.children[k]);
      var child, was := info.children[k], oldInfo.children[k];
      forall q | q != []
        ensures LookUp(child, q).Some? <==> LookUp(was, q).Some?
        ensures LookUp(child, q).Some? ==> !Differs(LookUp(was, q).value, LookUp(child, q).value)
      {
        assert ([k] + q)[1..] == q;
        assert LookUp(info, [k] + q) == LookUp(child, q);
        assert LookUp(oldInfo, [k] + q) == LookUp(was, q);
      }
      SameNotTouched(child, was, path + [k]);
    }
    forall k | k in oldInfo.children ensures k in info.children {
      assert LookUp(oldInfo, [k]).Some?;
    }
  }

  /** Every entry is preceded by entries for all its ancestors below the root. */
  lemma AncestorsPrecede(changes: seq<Change>, info: FileInfo, oldInfo: FileInfo, i: nat, ancestor: Path)
    requires Covers(changes, info, Some(oldInfo), true, [], {})
    requires i < |changes| && [] < ancestor < changes[i].path
    ensures exists j :: 0 <= j < i && changes[j].path == ancestor
  {
    assert Lists(changes[..i], ancestor);
    var j :| 0 <= j < i && changes[..i][j].path == ancestor;
    assert changes[j].path == ancestor;
  }
}
