/** Reading a directory tree into the form that is compared: everything below the root, unpruned. */
module Collect {
  import opened Wrappers
  import opened Text
  import opened FsTree
  import opened SortedNames
  import opened Changes

  /** What collectFileInfo builds for a directory tree. */
  function FullInfo(t: Node): FileInfo {
    FileInfo(t.meta.stat, t.meta.capability, map k | k in t.children :: FullInfo(t.children[k]))
  }

  predicate MetaDiffers(old_: Meta, new_: Meta) {
    StatDifferent(old_.stat, new_.stat) || old_.capability != new_.capability
  }

  lemma {:induction false} FullInfoLookUp(t: Node, q: Path)
    ensures LookUp(FullInfo(t), q).Some? <==> Exists(t, q)
    ensures Exists(t, q) ==>
              && LookUp(FullInfo(t), q).value.stat == MetaAt(t, q).value.stat
              && LookUp(FullInfo(t), q).value.capability == MetaAt(t, q).value.capability
  {
    if q != [] && q[0] in t.children {
      FullInfoLookUp(t.children[q[0]], q[1..]);
    }
  }

  lemma {:induction false} FullInfoWf(t: Node, path: Path)
    requires Wf(t) && (path == [] ==> t.IsDir())
    ensures WfInfo(FullInfo(t), path)
    decreases t
  {
    assert FullInfo(t).children.Keys == t.children.Keys;
    forall k | k in t.children ensures WfInfo(FullInfo(t).children[k], path + [k]) {
      FullInfoWf(t.children[k], path + [k]);
    }
  }

  // ----- recording a tree node by node

  function PutInfo(root: FileInfo, p: Path, info: FileInfo): FileInfo {
    if p == [] then info
    else if p[0] in root.children then
      root.(children := root.children[p[0] := PutInfo(root.children[p[0]], p[1..], info)])
    else if |p| == 1 then root.(children := root.children[p[0] := info])
    else root
  }

  lemma {:induction false} PutInfoLookUp(root: FileInfo, p: Path, info: FileInfo)
    requires p == [] || LookUp(root, Parent(p)).Some?
    ensures LookUp(PutInfo(root, p, info), p) == Some(info)
  {
    if p != [] {
      if |p| > 1 {
        assert Parent(p)[0] == p[0] && Parent(p)[1..] == Parent(p[1..]);
      }
      if p[0] in root.children {
        PutInfoLookUp(root.children[p[0]], p[1..], info);
      }
    }
  }

  /** Putting a node and then a child into it is putting the node with the child. */
  lemma {:induction false} PutInfoChild(root: FileInfo, p: Path, info: FileInfo, name: string, child: FileInfo)
    requires p == [] || LookUp(root, Parent(p)).Some?
    ensures PutInfo(PutInfo(root, p, info), p + [name], child)
         == PutInfo(root, p, info.(children := info.children[name := child]))
  {
    if p == [] {
      assert [] + [name] == [name] && [name][1..] == [];
    } else {
      assert (p + [name])[1..] == p[1..] + [name];
      if |p| > 1 {
        assert Parent(p)[0] == p[0] && Parent(p)[1..] == Parent(p[1..]);
      }
      if p[0] in root.children {
        PutInfoChild(root.children[p[0]], p[1..], info, name, child);
      } else {
        assert p[1..] == [] && p[1..] + [name] == [name] && [name][1..] == [];
        var done := info.(children := info.children[name := child]);
        assert PutInfo(info, [name], child) == done;
        assert root.children[p[0] := info][p[0] := done] == root.children[p[0] := done];
      }
    }
  }

  datatype WalkError = NoParent

  function Only<T>(all: map<string, T>, names: seq<string>): map<string, T> {
    map k | k in all && k in names :: all[k]
  }

  function Bare(n: Node): FileInfo {
    FileInfo(n.meta.stat, n.meta.capability, map[])
  }

  /** The root after a directory and some of its names have been walked. */
  ghost function Partly(root: FileInfo, path: Path, dir: Node, names: seq<string>): FileInfo {
    PutInfo(root, path, Bare(dir).(children := Only(FullInfo(dir).children, names)))
  }

  /** The root under construction. The attributes of the root itself are never compared. */
  class InfoCollector {
    var root: FileInfo

    constructor (dir: Node)
      ensures root == Bare(dir)
    {
      root := Bare(dir);
    }

    /** The walk function: record one file under its parent, which has to be there. */
    method Visit(path: Path, n: Node) returns (err: Option<WalkError>)
      modifies this
      ensures err.Some? <==> path != [] && LookUp(old(root), Parent(path)).None?
      ensures root == if path == [] || err.Some? then old(root) else PutInfo(old(root), path, Bare(n))
    {
      if path == [] {
        return None;
      }
      if LookUp(root, Parent(path)).None? {
        return Some(NoParent);
      }
      root := PutInfo(root, path, Bare(n));
      return None;
    }

    /** The lexical walk: the file first, then what is below it in name order. No parent is ever missing. */
    method Walk(path: Path, n: Node) returns (err: Option<WalkError>)
      requires Wf(n)
      requires if path == [] then root == Bare(n) else LookUp(root, Parent(path)).Some?
      modifies this
      ensures err == None
      ensures root == PutInfo(old(root), path, FullInfo(n))
      decreases n
    {
      hide PutInfo, LookUp, FullInfo, Partly, Wf, Increasing, Only;
      ghost var start := root;
      err := Visit(path, n);
      if err.Some? {
        return err;
      }
      WfChildren(n);
      if !n.IsDir() {
        FullInfoLeaf(n);
        PutAtRoot(start, Bare(n));
        return None;
      }
      PartlyStart(start, path, n);
      var names := Listing(n.children.Keys);
      for next := 0 to |names|
        invariant root == Partly(start, path, n, names[..next])
      {
        var name := names[next];
        PartlyReady(start, path, n, names[..next], name);
        err := Walk(path + [name], n.children[name]);
        if err.Some? {
          return err;
        }
        PartlyStep(start, path, n, names, next);
      }
      assert names[..|names|] == names;
      PartlyAll(start, path, n, names);
      return None;
    }
  }

  lemma WfChildren(n: Node)
    requires Wf(n)
    ensures !n.IsDir() ==> n.children == map[]
    ensures forall k :: k in n.children ==> Wf(n.children[k])
  {
  }

  lemma FullInfoLeaf(n: Node)
    requires n.children == map[]
    ensures FullInfo(n) == Bare(n)
  {
  }

  lemma PutAtRoot(root: FileInfo, info: FileInfo)
    ensures PutInfo(root, [], info) == info
  {
  }

  lemma PartlyStart(root: FileInfo, path: Path, dir: Node)
    requires path == [] ==> root == Bare(dir)
    ensures Partly(root, path, dir, []) == if path == [] then root else PutInfo(root, path, Bare(dir))
  {
    assert Only(FullInfo(dir).children, []) == map[];
  }

  lemma PartlyReady(root: FileInfo, path: Path, dir: Node, names: seq<string>, name: string)
    requires path == [] || LookUp(root, Parent(path)).Some?
    ensures Parent(path + [name]) == path && LookUp(Partly(root, path, dir, names), path).Some?
  {
    PutInfoLookUp(root, path, Bare(dir).(children := Only(FullInfo(dir).children, names)));
  }

  /** Walking one more name records that child with everything below it. */
  lemma PartlyStep(root: FileInfo, path: Path, dir: Node, names: seq<string>, next: nat)
    requires path == [] || LookUp(root, Parent(path)).Some?
    requires next < |names| && names[next] in dir.children
    ensures PutInfo(Partly(root, path, dir, names[..next]), path + [names[next]], FullInfo(dir.children[names[next]]))
         == Partly(root, path, dir, names[..next + 1])
  {
    var name, all := names[next], FullInfo(dir).children;
    var some := Only(all, names[..next]);
    assert Only(all, names[..next + 1]) == some[name := all[name]];
    PutInfoChild(root, path, Bare(dir).(children := some), name, all[name]);
  }

  lemma PartlyAll(root: FileInfo, path: Path, dir: Node, names: seq<string>)
    requires forall k :: k in dir.children ==> k in names
    ensures Partly(root, path, dir, names) == PutInfo(root, path, FullInfo(dir))
  {
    assert Only(FullInfo(dir).children, names) == FullInfo(dir).children;
  }

  /** collectFileInfo: no error, and every path of the tree is found with its attributes, and no other path. */
  method CollectFileInfo(t: Node) returns (root: FileInfo, err: Option<WalkError>)
    requires Wf(t)
    ensures err == None && root == FullInfo(t)
    ensures forall q :: LookUp(root, q).Some? <==> Exists(t, q)
    ensures forall q :: Exists(t, q) ==>
              && LookUp(root, q).value.stat == MetaAt(t, q).value.stat
              && LookUp(root, q).value.capability == MetaAt(t, q).value.capability
  {
    hide LookUp, FullInfo, PutInfo;
    var collector := new InfoCollector(t);
    err := collector.Walk([], t);
    root := collector.root;
    PutAtRoot(Bare(t), FullInfo(t));
    forall q ensures LookUp(FullInfo(t), q).Some? <==> Exists(t, q) {
      FullInfoLookUp(t, q);
    }
    forall q | Exists(t, q)
      ensures LookUp(FullInfo(t), q).value.stat == MetaAt(t, q).value.stat
      ensures LookUp(FullInfo(t), q).value.capability == MetaAt(t, q).value.capability
    {
      FullInfoLookUp(t, q);
    }
  }
}
