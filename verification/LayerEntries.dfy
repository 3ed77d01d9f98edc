/**
  What one entry of a layer does to any destination when UnpackLayer applies it, path by path, and what
  every layer that is applied to the end satisfies. Nothing is assumed of the destination.
 */
module LayerEntries {
  import opened Wrappers
  import opened Text
  import opened FsTree
  import opened LayerExport
  import opened LayerUnpack
  import opened LayerSteps

  /** Turns of the loop for names that are neither whiteouts nor bookkeeping. */
  lemma StepIsApply(dest: Path, s: State, h: Header)
    requires h.name != [] && ".." !in h.name && !(".wh." <= Base(h.name)) && !(".wh..wh." <= h.name[0])
    requires EnsureParent(s.root, h.name, MADE_DIR).Ok?
    ensures Step(dest, s, h)
         == ApplyEntry(dest, s.(root := EnsureParent(s.root, h.name, MADE_DIR).value, size := s.size + h.size), h)
  {
    hide Lstat, EnsureParent, ApplyEntry;
  }

  lemma ParentMade(dest: Path, s: State, h: Header)
    requires h.name != [] && Step(dest, s, h).1 == None
    ensures ".." !in h.name && EnsureParent(s.root, h.name, MADE_DIR).Ok?
  {
    hide Lstat, EnsureParent, ApplyEntry, ApplyWhiteout;
  }

  /** An ordinary entry: a directory over a directory sets its attributes and keeps everything below it; any
      other entry takes the place of whatever was there; missing directories on the way are made with mode
      0600; and nothing else changes. */
  lemma EntryEffect(dest: Path, s: State, h: Header, q: Path)
    requires h.name != [] && !(".wh." <= Base(h.name)) && !(".wh..wh." <= h.name[0])
    requires Step(dest, s, h).1 == None
    ensures var merged := h.etype.DirEntry? && DirAt(s.root, h.name);
            MetaAt(Step(dest, s, h).0.root, q) ==
              if q == h.name then
                Some(if merged then
                       var was := MetaAt(s.root, q).value;
                       was.(stat := was.stat.(perm := h.perm, uid := h.uid, gid := h.gid, mtim := ClampTime(h.mtim)),
                            capability := if h.capability == "" then was.capability else h.capability)
                     else NewMeta(h))
              else if h.name < q then if merged then MetaAt(s.root, q) else None
              else if q < h.name && !Exists(s.root, q) then
                Some(Meta(Stat(Directory, 384, 0, 0, 0, 0, CREATED_AT), "", "", false))
              else MetaAt(s.root, q)
    ensures var t := Step(dest, s, h).0;
            && t.size == s.size + h.size && t.unpacked == s.unpacked + {h.name}
            && t.dirs == if h.etype.DirEntry? then s.dirs + [h] else s.dirs
  {
    hide Lstat, EnsureParent, ApplyEntry, NewMeta, Placed, LinkEscapes;
    ParentMade(dest, s, h);
    var parented := EnsureParent(s.root, h.name, MADE_DIR).value;
    var u := s.(root := parented, size := s.size + h.size);
    StepIsApply(dest, s, h);
    ApplyNeedsPlace(dest, u, h);
    ParentsThere(s.root, h.name, MADE_DIR);
    ApplyEntryPlaces(dest, u, h);
    PlacedAt(parented, h, q);
    Above(s.root, parented, h.name, MADE_DIR, q);
  }

  /** A whiteout for `base`: that is gone with everything below it, missing directories on the way are made,
      and nothing else changes. */
  lemma WhiteoutEffect(dest: Path, s: State, h: Header, base: string, q: Path)
    requires h.name != [] && Base(h.name) == ".wh." + base && !(".wh..wh." <= Base(h.name))
    requires !(".wh..wh." <= h.name[0]) && Step(dest, s, h).1 == None
    ensures MetaAt(Step(dest, s, h).0.root, q) ==
              if Parent(h.name) + [base] <= q then None
              else if q < h.name && !Exists(s.root, q) then
                Some(Meta(Stat(Directory, 384, 0, 0, 0, 0, CREATED_AT), "", "", false))
              else MetaAt(s.root, q)
    ensures Step(dest, s, h).0 == s.(root := Step(dest, s, h).0.root, size := s.size + h.size)
  {
    hide Lstat, EnsureParent, MetaAt, ApplyEntry;
    ParentMade(dest, s, h);
    var parented := EnsureParent(s.root, h.name, MADE_DIR).value;
    var p := Parent(h.name) + [base];
    WhiteoutRemoves(dest, s, parented, h, base);
    ParentsThere(s.root, h.name, MADE_DIR);
    RemovedPlace(s.root, parented, h.name, base);
    Above(s.root, parented, h.name, MADE_DIR, q);
    RemoveAllAt(parented, p, q);
  }

  lemma WhiteoutRemoves(dest: Path, s: State, parented: Node, h: Header, base: string)
    requires h.name != [] && Base(h.name) == ".wh." + base && !(".wh..wh." <= Base(h.name))
    requires !(".wh..wh." <= h.name[0]) && Step(dest, s, h).1 == None
    requires EnsureParent(s.root, h.name, MADE_DIR) == Ok(parented)
    ensures RemoveAll(parented, Parent(h.name) + [base]) == Ok(Step(dest, s, h).0.root)
    ensures Step(dest, s, h).0 == s.(root := Step(dest, s, h).0.root, size := s.size + h.size)
  {
    hide Lstat, EnsureParent, ApplyEntry, RemoveAll;
    assert Base(h.name)[4..] == base;
    assert ".wh." <= Base(h.name);
    assert ".wh..wh." <= WHITEOUT_OPAQUE_DIR;
  }

  lemma RemovedPlace(root: Node, parented: Node, name: Path, base: string)
    requires name != [] && EnsureParent(root, name, MADE_DIR) == Ok(parented)
    requires RemoveAll(parented, Parent(name) + [base]).Ok?
    ensures DirsAbove(parented, name)
  {
    var p := Parent(name) + [base];
    assert Parent(p) == Parent(name) && p != [];
    assert Lstat(parented, p).Found? || Lstat(parented, p).NotExist?;
    hide Lstat, MkdirAll;
    if Lstat(root, Parent(name)).NotExist? {
      forall r | r < name ensures DirAt(parented, r) {
        MkdirAllAt(root, Parent(name), MADE_DIR, r);
        assert r <= Parent(name);
      }
    } else {
      FoundOrNot(parented, p);
      SameParentDirs(parented, p, name);
    }
  }

  lemma RemoveAllAt(t: Node, p: Path, q: Path)
    requires p != [] && RemoveAll(t, p).Ok?
    requires DirsAbove(t, p)
    ensures MetaAt(RemoveAll(t, p).value, q) == if p <= q then None else MetaAt(t, q)
  {
    RemoveAllBelowDirs(t, p);
    RemoveAt(t, p, q);
  }

  /** AUFS bookkeeping at the top level is counted and otherwise passed over. */
  lemma BookkeepingPassedOver(dest: Path, s: State, h: Header)
    requires h.name != [] && ".wh..wh." <= h.name[0] && h.name != [".wh..wh..opq"]
    requires ".." !in h.name && DirsAbove(s.root, h.name)
    ensures Step(dest, s, h) == (s.(size := s.size + h.size), None)
  {
    hide Lstat, EnsureParent, ApplyEntry, ApplyWhiteout;
    ParentFound(s.root, h.name, MADE_DIR);
  }

  /** A layer that is applied to the end has no name with ".." in it. */
  lemma {:induction false} NamesStayInside(dest: Path, s: State, layer: seq<Header>)
    requires Replay(dest, s, layer).1 == None
    ensures forall h :: h in layer ==> ".." !in h.name
    decreases |layer|
  {
    hide EnsureParent, ApplyEntry, ApplyWhiteout;
    if layer != [] {
      NamesStayInside(dest, Step(dest, s, layer[0]).0, layer[1..]);
      assert layer == [layer[0]] + layer[1..];
    }
  }

  /** The whiteout that export writes for a path is named after it. */
  lemma WhiteoutIsNamed(path: Path, now: Timespec)
    requires path != []
    ensures Whiteout(path, now).name == Parent(path) + [".wh." + Base(path)]
    ensures Whiteout(path, now).size == 0 && Whiteout(path, now).etype == RegEntry
  {
  }

  /** A name that leaves the destination stops the loop before anything changes. */
  lemma OutsideNames(dest: Path, s: State, h: Header)
    requires ".." in h.name && h.name != [".."]
    ensures Step(dest, s, h) == (s, Some(Breakout))
  {
  }

  /** The attributes of a file made from scratch: those of the header; a symlink has all permissions, a file
      has its contents, and a time the system does not take becomes the epoch. */
  lemma MadeFrom(h: Header)
    ensures var m := NewMeta(h);
            && m.stat.uid == h.uid && m.stat.gid == h.gid && m.capability == h.capability && !m.overlayOpaque
            && (h.etype == DirEntry ==> m.stat.ftype == Directory && m.stat.perm == h.perm && m.data == "")
            && (h.etype == RegEntry ==> m.stat.ftype == Regular && m.stat.perm == h.perm && m.data == h.data)
            && (h.etype == CharEntry ==> m.stat.ftype == Char && m.stat.perm == h.perm && m.stat.rdev == h.rdev)
            && (h.etype == SymlinkEntry ==> m.stat.ftype == Symlink && m.stat.perm == 511 && m.data == h.data)
            && (h.etype != CharEntry ==> m.stat.rdev == 0) && m.stat.size == |m.data|
            && (h.etype != SymlinkEntry ==> m.stat.mtim == h.mtim || m.stat.mtim == Timespec(0, 0))
            && (h.etype == SymlinkEntry && h.mtim == Timespec(-62_135_596_800, 0) ==> m.stat.mtim == CREATED_AT)
  {
  }
}
