/** What an opaque whiteout leaves in its directory, and when that is this layer's own files. */
module OpaqueWhiteouts {
  import opened Wrappers
  import opened Text
  import opened FsTree
  import opened LayerExport
  import opened LayerUnpack
  import opened LayerSteps

  /** Everything from just below `dir` down to `dir + q` was unpacked by this layer. */
  ghost predicate UnpackedDownTo(unpacked: set<Path>, dir: Path, q: Path) {
    forall r :: [] < r <= q ==> dir + r in unpacked
  }

  lemma {:induction false} KeepUnpackedAt(t: Node, at: Path, unpacked: set<Path>, q: Path)
    ensures MetaAt(KeepUnpacked(t, at, unpacked), q)
         == if UnpackedDownTo(unpacked, at, q) then MetaAt(t, q) else None
    decreases q
  {
    if q != [] {
      var k := q[0];
      assert q == [k] + q[1..];
      assert UnpackedDownTo(unpacked, at, q) <==>
             at + [k] in unpacked && UnpackedDownTo(unpacked, at + [k], q[1..]) by {
        PeelFirst(unpacked, at, q);
      }
      if k in t.children {
        KeepUnpackedAt(t.children[k], at + [k], unpacked, q[1..]);
      }
    }
  }

  lemma PeelFirst(unpacked: set<Path>, at: Path, q: Path)
    requires q != []
    ensures UnpackedDownTo(unpacked, at, q) <==>
            at + [q[0]] in unpacked && UnpackedDownTo(unpacked, at + [q[0]], q[1..])
  {
    var k := q[0];
    if UnpackedDownTo(unpacked, at, q) {
      assert [] < [k] <= q;
      forall r | [] < r <= q[1..] ensures at + [k] + r in unpacked {
        assert [] < [k] + r <= q;
        assert at + ([k] + r) == at + [k] + r;
      }
    }
    if at + [k] in unpacked && UnpackedDownTo(unpacked, at + [k], q[1..]) {
      forall r | [] < r <= q ensures at + r in unpacked {
        if r == [k] {
        } else {
          assert [] < r[1..] <= q[1..];
          assert at + [k] + r[1..] == at + r;
        }
      }
    }
  }

  function OpaqueHeader(dir: Path): Header {
    Header(dir + [WHITEOUT_OPAQUE_DIR], RegEntry, 0, 0, 0, 0, Timespec(0, 0), "", "", 0)
  }

  /** One opaque entry for an existing directory: below it a path survives exactly when it and all
      directories between were unpacked by this layer; nothing changes anywhere else. */
  lemma OpaqueStep(dest: Path, s: State, dir: Path) returns (t: State)
    requires DirAt(s.root, dir) && DirsAbove(s.root, dir)
    requires forall i :: 0 <= i < |dir| ==> OrdinaryName(dir[i])
    ensures Step(dest, s, OpaqueHeader(dir)) == (t, None)
    ensures forall q :: MetaAt(t.root, dir + q)
                     == if UnpackedDownTo(s.unpacked, dir, q) then MetaAt(s.root, dir + q) else None
    ensures forall p :: !(dir <= p) ==> MetaAt(t.root, p) == MetaAt(s.root, p)
    ensures t.unpacked == s.unpacked
  {
    hide UnpackedDownTo, MkdirAll, ApplyEntry, KeepUnpacked, Put, MetaAt, DirAt;
    var name := dir + [WHITEOUT_OPAQUE_DIR];
    assert Parent(name) == dir && Base(name) == WHITEOUT_OPAQUE_DIR;
    LstatBelowDirs(s.root, dir);
    ChildrenAt(s.root, dir);
    var node := Lstat(s.root, dir).node;
    var kept := KeepUnpacked(node, dir, s.unpacked);
    OpaqueName(dir);
    t := s.(root := Put(s.root, dir, kept));
    assert EnsureParent(s.root, name, MADE_DIR) == Ok(s.root);
    if dir != [] {
      assert DirAt(s.root, Parent(dir));
      DirIsThere(s.root, Parent(dir));
    }
    forall p ensures MetaAt(t.root, p) == if dir <= p then MetaAt(kept, p[|dir|..]) else MetaAt(s.root, p) {
      PutAt(s.root, dir, kept, p);
    }
    forall q ensures MetaAt(t.root, dir + q)
                  == if UnpackedDownTo(s.unpacked, dir, q) then MetaAt(s.root, dir + q) else None
    {
      assert (dir + q)[|dir|..] == q;
      KeepUnpackedAt(node, dir, s.unpacked, q);
      assert MetaAt(s.root, dir + q) == MetaAt(node, q);
    }
  }

  lemma OpaqueName(dir: Path)
    requires forall i :: 0 <= i < |dir| ==> OrdinaryName(dir[i])
    ensures var name := dir + [WHITEOUT_OPAQUE_DIR];
            ".." !in name && !IsAufsMetadata(name) && IsWhiteout(name)
  {
    var name := dir + [WHITEOUT_OPAQUE_DIR];
    assert WHITEOUT_META_PREFIX == WHITEOUT_PREFIX + WHITEOUT_PREFIX;
    assert WHITEOUT_PREFIX <= WHITEOUT_OPAQUE_DIR;
    assert dir == [] ==> name == [WHITEOUT_OPAQUE_DIR];
    assert dir != [] ==> name[0] == dir[0];
  }

  lemma {:induction false} ChildrenAt(t: Node, p: Path)
    requires DirAt(t, p) && DirsAbove(t, p)
    ensures Lstat(t, p).Found? && Lstat(t, p).node.IsDir()
    ensures forall q :: MetaAt(t, p + q) == MetaAt(Lstat(t, p).node, q)
  {
    LstatBelowDirs(t, p);
    if p == [] {
      assert forall q: Path :: p + q == q;
    } else {
      var child := t.children[p[0]];
      forall r | r < p[1..] ensures DirAt(child, r) {
        assert DirAt(t, [p[0]] + r) && ([p[0]] + r)[1..] == r;
      }
      ChildrenAt(child, p[1..]);
      assert DirAt(t, []);
      forall q ensures MetaAt(t, p + q) == MetaAt(Lstat(t, p).node, q) {
        assert (p + q)[1..] == p[1..] + q;
      }
    }
  }

  /** Below `dir`, exactly this layer's own entries are left. */
  ghost predicate KeepsExactlyOwn(before: Node, after: Node, unpacked: set<Path>, dir: Path) {
    forall q :: q != [] ==> (Exists(after, dir + q) <==> Exists(before, dir + q) && dir + q in unpacked)
  }

  /** Every directory below `dir` that holds something unpacked was itself an entry of the layer. */
  ghost predicate HoldersUnpacked(before: Node, unpacked: set<Path>, dir: Path) {
    forall q, r :: [] < r < q && Exists(before, dir + q) && dir + q in unpacked ==> dir + r in unpacked
  }

  lemma OpaqueKeepsOwnIff(dest: Path, s: State, dir: Path)
    requires DirAt(s.root, dir) && DirsAbove(s.root, dir)
    requires forall i :: 0 <= i < |dir| ==> OrdinaryName(dir[i])
    ensures var after := Step(dest, s, OpaqueHeader(dir)).0;
            KeepsExactlyOwn(s.root, after.root, s.unpacked, dir) <==> HoldersUnpacked(s.root, s.unpacked, dir)
  {
    hide *;
    var t := OpaqueStep(dest, s, dir);
    forall q ensures Exists(t.root, dir + q) <==> Exists(s.root, dir + q) && UnpackedDownTo(s.unpacked, dir, q) {
      Survives(s.root, t.root, s.unpacked, dir, q);
    }
    KeepsIffHolders(s.root, t.root, s.unpacked, dir);
  }

  lemma Survives(before: Node, after: Node, unpacked: set<Path>, dir: Path, q: Path)
    requires MetaAt(after, dir + q) == if UnpackedDownTo(unpacked, dir, q) then MetaAt(before, dir + q) else None
    ensures Exists(after, dir + q) <==> Exists(before, dir + q) && UnpackedDownTo(unpacked, dir, q)
  {
  }

  lemma KeepsIffHolders(before: Node, after: Node, unpacked: set<Path>, dir: Path)
    requires forall q :: Exists(after, dir + q) <==> Exists(before, dir + q) && UnpackedDownTo(unpacked, dir, q)
    ensures KeepsExactlyOwn(before, after, unpacked, dir) <==> HoldersUnpacked(before, unpacked, dir)
  {
    hide MetaAt, Exists;
    if HoldersUnpacked(before, unpacked, dir) {
      forall q | q != [] ensures Exists(after, dir + q) <==> Exists(before, dir + q) && dir + q in unpacked {
        assert [] < q <= q;
        if Exists(before, dir + q) && dir + q in unpacked {
          forall r | [] < r <= q ensures dir + r in unpacked {
            assert r == q || r < q;
          }
        }
      }
    }
    if KeepsExactlyOwn(before, after, unpacked, dir) {
      forall q, r | [] < r < q && Exists(before, dir + q) && dir + q in unpacked ensures dir + r in unpacked {
        assert Exists(after, dir + q);
        assert UnpackedDownTo(unpacked, dir, q);
      }
    }
  }

  // ----- layers that list their directories

  predicate IsFileEntry(name: Path) {
    !IsAufsMetadata(name) && !IsWhiteout(name)
  }

  const DIR := Meta(Stat(Directory, 493, 0, 0, 0, 0, Timespec(0, 0)), "", "", false)

  /** A directory made on the way is not an entry: a later opaque whiteout removes it, with the
      layer's own file in it. */
  lemma DroppedFileExample(dest: Path)
    ensures var begin := State(Node(DIR, map[]), {}, [], 0);
            var file := Header(["b", "f"], RegEntry, 420, 0, 0, 0, Timespec(0, 0), "", "", 0);
            var (s, e) := Step(dest, begin, file);
            var (t, e2) := Step(dest, s, OpaqueHeader([]));
            e == None && Exists(s.root, file.name) && e2 == None && !Exists(t.root, file.name)
  {
    var begin := State(Node(DIR, map[]), {}, [], 0);
    var file := Header(["b", "f"], RegEntry, 420, 0, 0, 0, Timespec(0, 0), "", "", 0);
    hide Step;
    FirstFile(dest, begin, file);
    var s := Step(dest, begin, file).0;
    var t := OpaqueStep(dest, s, []);
    assert [] + file.name == file.name;
    assert [] < ["b"] <= file.name && [] + ["b"] != file.name;
    assert !UnpackedDownTo(s.unpacked, [], file.name);
  }

  lemma FirstFile(dest: Path, begin: State, file: Header)
    requires begin == State(Node(DIR, map[]), {}, [], 0)
    requires file == Header(["b", "f"], RegEntry, 420, 0, 0, 0, Timespec(0, 0), "", "", 0)
    ensures var (s, e) := Step(dest, begin, file);
            e == None && s.unpacked == {file.name} && Exists(s.root, file.name) && DirAt(s.root, [])
  {
    hide Lstat, MkdirAll, ApplyEntry, Placed, EnsureParent;
    var holder := Node(DIR, map["b" := Node(MADE_DIR, map[])]);
    HolderMade(begin.root, holder);
    HolderFacts(holder, Node(MADE_DIR, map[]));
    assert !IsAufsMetadata(file.name) && !IsWhiteout(file.name);
    ApplyEntryPlaces(dest, State(holder, {}, [], 0), file);
    PlacedAt(holder, file, file.name);
    PlacedAt(holder, file, []);
  }

  lemma HolderMade(root: Node, holder: Node)
    requires root == Node(DIR, map[]) && holder == Node(DIR, map["b" := Node(MADE_DIR, map[])])
    ensures EnsureParent(root, ["b", "f"], MADE_DIR) == Ok(holder)
  {
    var made := Node(MADE_DIR, map[]);
    assert Parent(["b", "f"]) == ["b"] && ["b"][1..] == [];
    assert MkdirAll(made, [], MADE_DIR) == Ok(made);
    assert root.children["b" := made] == holder.children;
  }

  lemma HolderFacts(holder: Node, made: Node)
    requires made == Node(MADE_DIR, map[]) && holder == Node(DIR, map["b" := made])
    ensures DirsAbove(holder, ["b", "f"])
  {
    forall r: Path | r < ["b", "f"] ensures DirAt(holder, r) {
      assert r == [] || r == ["b"];
      assert ["b"][1..] == [];
    }
  }

  /** Every file entry comes after entries for all the directories above it. */
  ghost predicate ListsDirs(known: set<Path>, layer: seq<Header>)
    decreases |layer|
  {
    layer == [] ||
    (var name := layer[0].name;
     && (IsFileEntry(name) ==> forall r :: [] < r < name ==> r in known)
     && ListsDirs(if IsFileEntry(name) then known + {name} else known, layer[1..]))
  }

  ghost predicate Closed(unpacked: set<Path>) {
    forall p, r :: p in unpacked && [] < r < p ==> r in unpacked
  }

  /** Such a layer meets the condition of every opaque whiteout in it. */
  lemma {:induction false} ListedDirsSuffice(dest: Path, s: State, layer: seq<Header>, dir: Path)
    requires Closed(s.unpacked) && ListsDirs(s.unpacked, layer)
    ensures var t := Replay(dest, s, layer).0;
            Closed(t.unpacked) && HoldersUnpacked(t.root, t.unpacked, dir)
    decreases |layer|
  {
    if layer == [] {
      ClosedHolds(s.root, s.unpacked, dir);
    } else {
      StepUnpacked(dest, s, layer[0]);
      var (t, e) := Step(dest, s, layer[0]);
      if e.Some? {
        ClosedHolds(t.root, t.unpacked, dir);
      } else {
        ListedDirsSuffice(dest, t, layer[1..], dir);
      }
    }
  }

  lemma StepUnpacked(dest: Path, s: State, h: Header)
    requires Closed(s.unpacked) && (IsFileEntry(h.name) ==> forall r :: [] < r < h.name ==> r in s.unpacked)
    ensures var (t, e) := Step(dest, s, h);
            && Closed(t.unpacked)
            && (e.Some? ==> t.unpacked == s.unpacked)
            && (e.None? ==> t.unpacked == if IsFileEntry(h.name) then s.unpacked + {h.name} else s.unpacked)
  {
    hide Lstat, EnsureParent, RemoveAll, Install;
    assert Closed(s.unpacked + {h.name}) || !IsFileEntry(h.name);
  }

  lemma ClosedHolds(root: Node, unpacked: set<Path>, dir: Path)
    requires Closed(unpacked)
    ensures HoldersUnpacked(root, unpacked, dir)
  {
    forall q, r | [] < r < q && Exists(root, dir + q) && dir + q in unpacked ensures dir + r in unpacked {
      assert dir + r < dir + q;
    }
  }
}
