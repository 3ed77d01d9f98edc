/**
  The in-memory file system the archive code works on: a tree of named nodes, each
  with the stat fields and extended attributes the code reads.
 */
module FsTree {
  import opened Wrappers
  import opened Text

  datatype Timespec = Timespec(sec: int, nsec: int)

  datatype FileType = Fifo | Char | Directory | Block | Regular | Symlink | Socket {
    /** The S_IFMT nibble of the mode word. */
    function Code(): nat {
      match this
      case Fifo => 1
      case Char => 2
      case Directory => 4
      case Block => 6
      case Regular => 8
      case Symlink => 10
      case Socket => 12
    }

    /** `mode & S_IFDIR != 0`: one bit, which block devices and sockets have as well. */
    predicate DirBit() {
      Code() / 4 % 2 == 1
    }
  }

  /** system.StatT, with the mode word split into its type and its low twelve bits. */
  datatype Stat = Stat(ftype: FileType, perm: nat, uid: int, gid: int, rdev: int, size: int, mtim: Timespec)

  /** `data` is a regular file's contents or a symlink's target; an absent capability is "". */
  datatype Meta = Meta(stat: Stat, capability: string, data: string, overlayOpaque: bool)

  datatype Node = Node(meta: Meta, children: map<string, Node>) {
    predicate IsDir() {
      meta.stat.ftype == Directory
    }
  }

  /** What lstat(2) of a path answers. A symlink on the way is followed by the real call;
      the model stops there. */
  datatype Lookup = Found(node: Node) | NotExist | NotDirectory | ThroughSymlink

  function Lstat(t: Node, p: Path): Lookup {
    if p == [] then Found(t)
    else if t.meta.stat.ftype == Symlink then ThroughSymlink
    else if !t.IsDir() then NotDirectory
    else if p[0] in t.children then Lstat(t.children[p[0]], p[1..])
    else NotExist
  }

  /** The attributes found by descending through child maps alone. */
  function MetaAt(t: Node, p: Path): Option<Meta> {
    if p == [] then Some(t.meta)
    else if p[0] in t.children then MetaAt(t.children[p[0]], p[1..])
    else None
  }

  predicate Exists(t: Node, p: Path) {
    MetaAt(t, p).Some?
  }

  predicate DirAt(t: Node, p: Path) {
    var m := MetaAt(t, p);
    m.Some? && m.value.stat.ftype == Directory
  }

  /** Every proper ancestor of `p` is a directory. */
  ghost predicate DirsAbove(t: Node, p: Path) {
    forall r :: r < p ==> DirAt(t, r)
  }

  /** Put `n` at `p`, replacing what is there; nothing happens when p's parent is missing. */
  function Put(t: Node, p: Path, n: Node): Node {
    if p == [] then n
    else if p[0] in t.children then t.(children := t.children[p[0] := Put(t.children[p[0]], p[1..], n)])
    else if |p| == 1 then t.(children := t.children[p[0] := n])
    else t
  }

  /** os.RemoveAll of a path below the root. */
  function Remove(t: Node, p: Path): Node
    requires p != []
  {
    if p[0] !in t.children then t
    else if |p| == 1 then t.(children := t.children - {p[0]})
    else t.(children := t.children[p[0] := Remove(t.children[p[0]], p[1..])])
  }

  /** Change the attributes of the node at `p` and keep its children. */
  function SetMeta(t: Node, p: Path, m: Meta): Node {
    if p == [] then t.(meta := m)
    else if p[0] in t.children then t.(children := t.children[p[0] := SetMeta(t.children[p[0]], p[1..], m)])
    else t
  }

  // ----- what the updates do to every path

  lemma {:induction false} PutAt(t: Node, p: Path, n: Node, q: Path)
    requires p == [] || Exists(t, Parent(p))
    ensures MetaAt(Put(t, p, n), q) == if p <= q then MetaAt(n, q[|p|..]) else MetaAt(t, q)
  {
    if p != [] && q != [] && p[0] == q[0] {
      if |p| > 1 {
        assert Parent(p)[0] == p[0] && Parent(p)[1..] == Parent(p[1..]);
      }
      if p[0] in t.children {
        PutAt(t.children[p[0]], p[1..], n, q[1..]);
        assert p <= q <==> p[1..] <= q[1..];
        if p <= q {
          assert q[1..][|p[1..]|..] == q[|p|..];
        }
      } else {
        assert p <= q && q[1..] == q[|p|..];
      }
    }
  }

  /** Putting a node and then a child into it is putting the node with the child. */
  lemma {:induction false} PutChild(t: Node, p: Path, n: Node, name: string, child: Node)
    requires p == [] || Exists(t, Parent(p))
    ensures Put(Put(t, p, n), p + [name], child) == Put(t, p, n.(children := n.children[name := child]))
  {
    if p == [] {
      assert [] + [name] == [name] && [name][1..] == [];
    } else {
      assert (p + [name])[1..] == p[1..] + [name];
      if |p| > 1 {
        assert Parent(p)[0] == p[0] && Parent(p)[1..] == Parent(p[1..]);
      }
      if p[0] in t.children {
        PutChild(t.children[p[0]], p[1..], n, name, child);
      } else {
        assert p[1..] == [] && p[1..] + [name] == [name] && [name][1..] == [];
        var done := n.(children := n.children[name := child]);
        assert Put(n, [name], child) == done;
        assert t.children[p[0] := n][p[0] := done] == t.children[p[0] := done];
      }
    }
  }

  /** Changing the attributes of a node just put is putting it with them. */
  lemma {:induction false} PutSetMeta(t: Node, p: Path, n: Node, m: Meta)
    requires p == [] || Exists(t, Parent(p))
    ensures SetMeta(Put(t, p, n), p, m) == Put(t, p, n.(meta := m))
  {
    if p != [] {
      if |p| > 1 {
        assert Parent(p)[0] == p[0] && Parent(p)[1..] == Parent(p[1..]);
      }
      if p[0] in t.children {
        PutSetMeta(t.children[p[0]], p[1..], n, m);
      } else {
        assert p[1..] == [];
        assert t.children[p[0] := n][p[0] := n.(meta := m)] == t.children[p[0] := n.(meta := m)];
      }
    }
  }

  /** Giving a node the attributes it has changes nothing. */
  lemma {:induction false} SetSameMeta(t: Node, p: Path)
    requires Exists(t, p)
    ensures SetMeta(t, p, MetaAt(t, p).value) == t
  {
    if p != [] {
      SetSameMeta(t.children[p[0]], p[1..]);
      assert t.children[p[0] := t.children[p[0]]] == t.children;
    }
  }

  lemma {:induction false} RemoveAt(t: Node, p: Path, q: Path)
    requires p != []
    ensures MetaAt(Remove(t, p), q) == if p <= q then None else MetaAt(t, q)
  {
    if p[0] in t.children && q != [] && p[0] == q[0] && |p| > 1 {
      RemoveAt(t.children[p[0]], p[1..], q[1..]);
      assert p <= q <==> p[1..] <= q[1..];
    }
  }

  lemma {:induction false} SetMetaAt(t: Node, p: Path, m: Meta, q: Path)
    requires Exists(t, p)
    ensures MetaAt(SetMeta(t, p, m), q) == if p == q then Some(m) else MetaAt(t, q)
  {
    if p != [] && q != [] && p[0] == q[0] {
      SetMetaAt(t.children[p[0]], p[1..], m, q[1..]);
      assert p == [p[0]] + p[1..] && q == [q[0]] + q[1..];
    }
  }

  lemma ChildAt(t: Node, name: string)
    ensures MetaAt(t, [name]) == if name in t.children then Some(t.children[name].meta) else None
  {
    assert [name][1..] == [];
  }

  /** A path exists only below paths that exist. */
  lemma {:induction false} ExistsUpward(t: Node, p: Path, q: Path)
    requires p <= q && Exists(t, q)
    ensures Exists(t, p)
  {
    if p != [] {
      ExistsUpward(t.children[p[0]], p[1..], q[1..]);
    }
  }

  /** Below directories only, lstat(2) agrees with descending through the child maps. */
  lemma {:induction false} LstatBelowDirs(t: Node, p: Path)
    requires DirsAbove(t, p)
    ensures Lstat(t, p) == NotExist || Lstat(t, p).Found?
    ensures Lstat(t, p).Found? <==> Exists(t, p)
    ensures Lstat(t, p).Found? ==> MetaAt(t, p) == Some(Lstat(t, p).node.meta)
  {
    if p != [] {
      assert DirAt(t, []);
      if p[0] in t.children {
        forall r | r < p[1..] ensures DirAt(t.children[p[0]], r) {
          assert DirAt(t, [p[0]] + r) && ([p[0]] + r)[1..] == r;
        }
        LstatBelowDirs(t.children[p[0]], p[1..]);
      }
    }
  }

  /** Two trees with the same attributes at every path are the same tree. */
  lemma {:induction false} Extensional(t: Node, u: Node)
    requires forall q :: MetaAt(t, q) == MetaAt(u, q)
    ensures t == u
    decreases t
  {
    assert MetaAt(t, []) == MetaAt(u, []);
    forall k | k in t.children || k in u.children
      ensures k in t.children && k in u.children && t.children[k] == u.children[k]
    {
      assert MetaAt(t, [k]) == MetaAt(u, [k]);
      assert MetaAt(t, [k]).Some? <==> k in t.children;
      assert MetaAt(u, [k]).Some? <==> k in u.children;
      forall q ensures MetaAt(t.children[k], q) == MetaAt(u.children[k], q) {
        assert MetaAt(t, [k] + q) == MetaAt(u, [k] + q);
        assert ([k] + q)[1..] == q;
      }
      Extensional(t.children[k], u.children[k]);
    }
    assert t.children == u.children;
  }

  // ----- well-formed trees

  /** What a Linux file system guarantees about a directory, a regular file or a symlink. */
  predicate WfMeta(m: Meta) {
    && m.stat.ftype in {Directory, Regular, Symlink}
    && m.stat.perm < 4096
    && m.stat.rdev == 0
    && 0 <= m.stat.mtim.nsec < 1_000_000_000
    && (m.stat.ftype != Directory ==> m.stat.size == |m.data|)
    && (m.stat.ftype == Symlink ==> m.stat.perm == 511)
    && (m.stat.ftype == Directory ==> m.data == "")
  }

  const WHITEOUT_PREFIX := ".wh."
  const WHITEOUT_META_PREFIX := ".wh..wh."
  const WHITEOUT_OPAQUE_DIR := ".wh..wh..opq"

  /** A file name outside the namespace that layer archives reserve. */
  predicate OrdinaryName(name: string) {
    ValidName(name) && !HasPrefix(name, WHITEOUT_PREFIX)
  }

  /** A tree of directories, regular files and symlinks with ordinary names. */
  ghost predicate Wf(t: Node) {
    && WfMeta(t.meta)
    && (!t.IsDir() ==> t.children == map[])
    && (forall k :: k in t.children ==> OrdinaryName(k) && Wf(t.children[k]))
  }

  lemma {:induction false} WfAt(t: Node, p: Path)
    requires Wf(t) && Exists(t, p)
    ensures WfMeta(MetaAt(t, p).value)
    ensures forall i :: 0 <= i < |p| ==> OrdinaryName(p[i])
    ensures DirsAbove(t, p)
  {
    if p != [] {
      WfAt(t.children[p[0]], p[1..]);
      forall r | r < p ensures DirAt(t, r) {
        if r != [] {
          assert r[1..] < p[1..];
          assert DirAt(t.children[p[0]], r[1..]);
        }
      }
      forall i | 0 <= i < |p| ensures OrdinaryName(p[i]) {
        if i > 0 {
          assert p[i] == p[1..][i - 1];
        }
      }
    }
  }
}
