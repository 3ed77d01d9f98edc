/**
  What one archive entry does to any destination when Unpack writes it with the overlay converter, path
  by path. Nothing is assumed of the destination.
 */
module OverlayEntries {
  import opened Wrappers
  import opened Text
  import opened FsTree
  import opened LayerExport
  import opened LayerUnpack
  import opened LayerSteps
  import opened Overlay

  // ----- ordinary entries

  lemma StepIsApply(dest: Path, root: Node, dirs: seq<Header>, h: Header)
    requires h.name != [] && ".." !in h.name && !(".wh." <= Base(h.name))
    requires EnsureParent(root, h.name, MADE_OWNED).Ok?
    ensures var s := State(EnsureParent(root, h.name, MADE_OWNED).value, {}, dirs, 0);
            var (after, e) := ApplyEntry(dest, s, h);
            UnpackStep(dest, root, dirs, h) == (after.root, after.dirs, e)
  {
    hide Lstat, EnsureParent, RemoveAll, Install;
    assert ".wh." <= WHITEOUT_OPAQUE_DIR;
  }

  /** An entry that is written: over a directory, a directory sets its attributes and keeps everything below
      it; any other entry takes the place of whatever was there with everything below that; missing
      directories on the way are made; and nothing else changes. */
  lemma EntryEffect(dest: Path, root: Node, dirs: seq<Header>, h: Header, q: Path)
    requires h.name != [] && !(".wh." <= Base(h.name)) && UnpackStep(dest, root, dirs, h).2 == None
    ensures var merged := h.etype.DirEntry? && DirAt(root, h.name);
            MetaAt(UnpackStep(dest, root, dirs, h).0, q) ==
              if q == h.name then
                Some(if merged then
                       var was := MetaAt(root, q).value;
                       was.(stat := was.stat.(perm := h.perm, uid := h.uid, gid := h.gid, mtim := ClampTime(h.mtim)),
                            capability := if h.capability == "" then was.capability else h.capability)
                     else NewMeta(h))
              else if h.name < q then if merged then MetaAt(root, q) else None
              else if q < h.name && !Exists(root, q) then
                Some(Meta(Stat(Directory, 511, 0, 0, 0, 0, CREATED_AT), "", "", false))
              else MetaAt(root, q)
    ensures UnpackStep(dest, root, dirs, h).1 == if h.etype.DirEntry? then dirs + [h] else dirs
    ensures forall r :: r < h.name && Exists(root, r) ==> DirAt(root, r)
  {
    hide Lstat, EnsureParent, ApplyEntry, NewMeta, Placed, LinkEscapes;
    ParentMade(dest, root, dirs, h);
    var parented := EnsureParent(root, h.name, MADE_OWNED).value;
    var s := State(parented, {}, dirs, 0);
    StepIsApply(dest, root, dirs, h);
    ApplyNeedsPlace(dest, s, h);
    ParentsThere(root, h.name, MADE_OWNED);
    ApplyEntryPlaces(dest, s, h);
    PlacedAt(parented, h, q);
    Above(root, parented, h.name, MADE_OWNED, q);
  }

  lemma ParentMade(dest: Path, root: Node, dirs: seq<Header>, h: Header)
    requires h.name != [] && UnpackStep(dest, root, dirs, h).2 == None
    ensures ".." !in h.name && EnsureParent(root, h.name, MADE_OWNED).Ok?
  {
    hide Lstat, EnsureParent;
  }

  /** Below existing directories an ordinary entry is always written, unless it is a refused link. */
  lemma EntryCannotFail(dest: Path, root: Node, dirs: seq<Header>, h: Header)
    requires h.name != [] && ".." !in h.name && !(".wh." <= Base(h.name)) && DirsAbove(root, h.name)
    ensures UnpackStep(dest, root, dirs, h).2 == None
       <==> (h.etype.SymlinkEntry? ==> !LinkEscapes(dest, h.name, h.data))
  {
    hide Lstat, EnsureParent, ApplyEntry, LinkEscapes;
    ParentFound(root, h.name, MADE_OWNED);
    StepIsApply(dest, root, dirs, h);
    var s := State(root, {}, dirs, 0);
    if h.etype.SymlinkEntry? && LinkEscapes(dest, h.name, h.data) {
      if ApplyEntry(dest, s, h).1 == None {
        ApplyNeedsPlace(dest, s, h);
      }
    } else {
      ApplyEntryPlaces(dest, s, h);
    }
  }

  // ----- whiteouts

  /** What is at the whiteout's own path goes away first, unless both are directories. */
  function Freed(parented: Node, h: Header): Node
    requires h.name != []
  {
    if Lstat(parented, h.name).Found? && !(Lstat(parented, h.name).node.IsDir() && h.etype.DirEntry?)
    then Remove(parented, h.name) else parented
  }

  lemma WhiteoutConverts(dest: Path, root: Node, dirs: seq<Header>, h: Header)
    requires h.name != [] && ".wh." <= Base(h.name) && UnpackStep(dest, root, dirs, h).2 == None
    ensures ".." !in h.name && EnsureParent(root, h.name, MADE_OWNED).Ok?
    ensures var free := Freed(EnsureParent(root, h.name, MADE_OWNED).value, h);
            ConvertRead(free, h) == Some(Ok(UnpackStep(dest, root, dirs, h).0))
            && UnpackStep(dest, root, dirs, h).1 == dirs
  {
    hide Lstat, EnsureParent;
  }

  lemma FreedAt(parented: Node, h: Header, q: Path)
    requires h.name != []
    ensures Freed(parented, h) != parented ==> DirsAbove(parented, h.name) && Exists(parented, h.name)
    ensures MetaAt(Freed(parented, h), q) ==
              if Lstat(parented, h.name).Found? && h.name <= q && !(DirAt(parented, h.name) && h.etype.DirEntry?)
              then None else MetaAt(parented, q)
  {
    if Lstat(parented, h.name).Found? {
      FoundBelowDirs(parented, h.name);
      RemoveAt(parented, h.name, q);
    }
  }

  /** A whiteout for `base` that is taken in: where nothing may have been, there is now a 0/0 device with the
      entry's owner. What was at the whiteout's own path is gone, missing directories are made, and
      nothing else changes. */
  lemma WhiteoutEffect(dest: Path, root: Node, dirs: seq<Header>, h: Header, base: string, q: Path)
    requires h.name != [] && Base(h.name) == ".wh." + base && Base(h.name) != ".wh..wh..opq"
    requires UnpackStep(dest, root, dirs, h).2 == None
    ensures var p := Parent(h.name) + [base];
            && !Exists(root, p)
            && MetaAt(UnpackStep(dest, root, dirs, h).0, q) ==
                 if q == p then Some(Meta(Stat(Char, 0, h.uid, h.gid, 0, 0, CREATED_AT), "", "", false))
                 else if q < h.name && !Exists(root, q) then
                   Some(Meta(Stat(Directory, 511, 0, 0, 0, 0, CREATED_AT), "", "", false))
                 else if h.name <= q && !(h.etype.DirEntry? && DirAt(root, h.name)) then None
                 else MetaAt(root, q)
    ensures UnpackStep(dest, root, dirs, h).1 == dirs
  {
    hide Lstat, EnsureParent, UnpackStep, ConvertRead, Freed, MetaAt, DirAt;
    WhiteoutConverts(dest, root, dirs, h);
    var parented := EnsureParent(root, h.name, MADE_OWNED).value;
    var free := Freed(parented, h);
    var p := Parent(h.name) + [base];
    DevicePlace(root, parented, free, h, base);
    ParentsThere(root, h.name, MADE_OWNED);
    Above(root, parented, h.name, MADE_OWNED, p);
    Above(root, parented, h.name, MADE_OWNED, q);
    Above(root, parented, h.name, MADE_OWNED, h.name);
    SameDir(root, parented, h.name);
    PutAt(free, p, Node(DeviceMeta(h), map[]), q);
    FreedBelow(parented, h, p, q);
    DeviceOnly(h, p, q);
  }

  lemma DevicePlace(root: Node, parented: Node, free: Node, h: Header, base: string)
    requires h.name != [] && Base(h.name) == ".wh." + base && Base(h.name) != ".wh..wh..opq"
    requires EnsureParent(root, h.name, MADE_OWNED) == Ok(parented) && free == Freed(parented, h)
    requires ConvertRead(free, h).Some? && ConvertRead(free, h).value.Ok?
    ensures var p := Parent(h.name) + [base];
            && p != [] && Parent(p) == Parent(h.name) && p != h.name && !(h.name <= p) && !(p <= h.name)
            && ConvertRead(free, h) == Some(Ok(Put(free, p, Node(DeviceMeta(h), map[]))))
            && DirsAbove(parented, h.name) && !Exists(parented, p) && Exists(free, Parent(p))
  {
    hide EnsureParent, DirAt, MetaAt;
    var p := Parent(h.name) + [base];
    assert Base(h.name)[4..] == base && Base(h.name)[..4] == ".wh.";
    assert Base(p) == base && |base| < |Base(h.name)|;
    assert Lstat(free, p).NotExist?;
    hide Lstat, ConvertRead;
    FreedAt(parented, h, Parent(p));
    FreedAt(parented, h, p);
    if free == parented {
      PlaceIsBelowDirs(root, parented, h.name, base);
    }
    SameParentDirs(parented, h.name, p);
    BelowDirsFree(parented, free, h, p);
    LstatBelowDirs(free, p);
    assert DirAt(parented, Parent(p));
    DirIsThere(parented, Parent(p));
  }

  lemma PlaceIsBelowDirs(root: Node, parented: Node, name: Path, base: string)
    requires name != [] && EnsureParent(root, name, MADE_OWNED) == Ok(parented)
    requires Lstat(parented, Parent(name) + [base]).NotExist?
    ensures DirsAbove(parented, name)
  {
    var p := Parent(name) + [base];
    assert Parent(p) == Parent(name);
    hide Lstat, MkdirAll;
    if Lstat(root, Parent(name)).NotExist? {
      forall r | r < name ensures DirAt(parented, r) {
        MkdirAllAt(root, Parent(name), MADE_OWNED, r);
        assert r <= Parent(name);
      }
    } else {
      FoundOrNot(parented, p);
      SameParentDirs(parented, p, name);
    }
  }

  lemma BelowDirsFree(parented: Node, free: Node, h: Header, p: Path)
    requires h.name != [] && p != [] && free == Freed(parented, h) && DirsAbove(parented, p)
    requires Parent(p) == Parent(h.name)
    ensures DirsAbove(free, p)
  {
    hide Freed, Lstat;
    forall r | r < p ensures DirAt(free, r) {
      FreedAt(parented, h, r);
      assert DirAt(parented, r) && r <= Parent(p) && !(h.name <= r);
    }
  }

  lemma SameDir(root: Node, parented: Node, name: Path)
    requires MetaAt(parented, name) == MetaAt(root, name)
    ensures DirAt(parented, name) <==> DirAt(root, name)
  {
  }

  lemma FreedBelow(parented: Node, h: Header, p: Path, q: Path)
    requires h.name != [] && DirsAbove(parented, h.name) && !Exists(parented, p) && !(h.name <= p)
    ensures MetaAt(Freed(parented, h), q) ==
              if h.name <= q && !(DirAt(parented, h.name) && h.etype.DirEntry?) then None else MetaAt(parented, q)
    ensures p < q ==> MetaAt(Freed(parented, h), q) == None && MetaAt(parented, q) == None
  {
    FreedAt(parented, h, q);
    LstatBelowDirs(parented, h.name);
    if h.name <= q && Exists(parented, q) {
      ExistsUpward(parented, h.name, q);
    }
    if p < q && Exists(parented, q) {
      ExistsUpward(parented, p, q);
    }
  }

  lemma DeviceOnly(h: Header, p: Path, q: Path)
    ensures p <= q ==>
              MetaAt(Node(DeviceMeta(h), map[]), q[|p|..])
              == if p == q then Some(Meta(Stat(Char, 0, h.uid, h.gid, 0, 0, CREATED_AT), "", "", false)) else None
  {
  }

  /** An opaque marker that is taken in sets its directory's flag, and nothing else changes but what a
      whiteout changes anyway. */
  lemma OpaqueEffect(dest: Path, root: Node, dirs: seq<Header>, h: Header, q: Path)
    requires h.name != [] && Base(h.name) == ".wh..wh..opq" && UnpackStep(dest, root, dirs, h).2 == None
    ensures var was := if Exists(root, q) then MetaAt(root, q).value
                       else Meta(Stat(Directory, 511, 0, 0, 0, 0, CREATED_AT), "", "", false);
            MetaAt(UnpackStep(dest, root, dirs, h).0, q) ==
              if q == Parent(h.name) then Some(was.(overlayOpaque := true))
              else if q < h.name then Some(was)
              else if h.name <= q && !(h.etype.DirEntry? && DirAt(root, h.name)) && DirsAbove(root, h.name) then None
              else MetaAt(root, q)
    ensures UnpackStep(dest, root, dirs, h).1 == dirs
  {
    hide Lstat, EnsureParent, UnpackStep, ConvertRead, Freed, MetaAt, DirAt;
    WhiteoutPrefixed(h);
    WhiteoutConverts(dest, root, dirs, h);
    var parented := EnsureParent(root, h.name, MADE_OWNED).value;
    var free := Freed(parented, h);
    var dir := Parent(h.name);
    MarkedDir(parented, free, h);
    ParentsThere(root, h.name, MADE_OWNED);
    SetMetaAt(free, dir, MetaAt(free, dir).value.(overlayOpaque := true), q);
    OpaqueAbove(root, parented, h, q);
    FreedAt(parented, h, q);
    FreedAt(parented, h, dir);
    assert !(h.name <= dir);
  }

  lemma WhiteoutPrefixed(h: Header)
    requires h.name != [] && Base(h.name) == ".wh..wh..opq"
    ensures ".wh." <= Base(h.name)
  {
  }

  lemma MarkedDir(parented: Node, free: Node, h: Header)
    requires h.name != [] && Base(h.name) == ".wh..wh..opq" && free == Freed(parented, h)
    requires ConvertRead(free, h).Some? && ConvertRead(free, h).value.Ok?
    ensures var dir := Parent(h.name);
            Exists(free, dir)
            && ConvertRead(free, h) == Some(Ok(SetMeta(free, dir, MetaAt(free, dir).value.(overlayOpaque := true))))
            && (forall r :: r < dir ==> DirAt(parented, r)) && Exists(parented, dir)
  {
    var dir := Parent(h.name);
    hide Freed, MetaAt, DirAt;
    FoundBelowDirs(free, dir);
    forall r | r <= dir ensures MetaAt(free, r) == MetaAt(parented, r) {
      FreedAt(parented, h, r);
      assert !(h.name <= r);
    }
    SameDirs(free, parented, dir);
  }

  lemma SameDirs(t: Node, u: Node, p: Path)
    requires DirsAbove(t, p) && forall r :: r <= p ==> MetaAt(t, r) == MetaAt(u, r)
    ensures DirsAbove(u, p)
  {
    forall r | r < p ensures DirAt(u, r) {
      assert DirAt(t, r) && MetaAt(t, r) == MetaAt(u, r);
    }
  }

  lemma OpaqueAbove(root: Node, parented: Node, h: Header, q: Path)
    requires h.name != [] && Exists(parented, Parent(h.name))
    requires forall r :: r < Parent(h.name) ==> DirAt(parented, r)
    requires forall r :: MetaAt(parented, r) ==
               if Exists(root, r) then MetaAt(root, r)
               else if Lstat(root, Parent(h.name)).NotExist? && r < h.name then Some(MADE_OWNED) else None
    ensures q < h.name ==> MetaAt(parented, q) == if Exists(root, q) then MetaAt(root, q) else Some(MADE_OWNED)
    ensures !(q < h.name) ==> MetaAt(parented, q) == MetaAt(root, q)
    ensures Lstat(parented, h.name).Found? ==> DirsAbove(root, h.name) && DirAt(parented, h.name) == DirAt(root, h.name)
    ensures h.name <= q && Exists(root, q) && DirsAbove(root, h.name) ==> Lstat(parented, h.name).Found?
  {
    hide Lstat;
    if q < h.name && !Exists(root, q) {
      assert q == Parent(h.name) || q < Parent(h.name);
      assert q < Parent(h.name) ==> DirAt(parented, q);
      DirIsThere(parented, q);
      assert Exists(parented, q);
    }
    if Lstat(parented, h.name).Found? {
      FoundBelowDirs(parented, h.name);
      AllAbove(root, h.name);
      forall r | r < h.name ensures DirAt(root, r) {
        assert DirAt(parented, r) && Exists(root, r) && MetaAt(parented, r) == MetaAt(root, r);
      }
    }
    if h.name <= q && Exists(root, q) && DirsAbove(root, h.name) {
      ExistsUpward(root, h.name, q);
      forall r | r < h.name ensures DirAt(parented, r) {
        assert DirAt(root, r) && Exists(root, r);
      }
      LstatBelowDirs(parented, h.name);
    }
  }

  lemma AllAbove(t: Node, p: Path)
    requires Exists(t, p)
    ensures forall r :: r < p ==> Exists(t, r)
  {
    forall r | r < p ensures Exists(t, r) {
      ExistsUpward(t, r, p);
    }
  }

  // ----- the options, and whole archives

  /** The entries whose name, written as a text, does not begin with an excluded one. */
  function NotExcluded(patterns: seq<string>, layer: seq<Header>): (kept: seq<Header>) {
    if layer == [] then []
    else
      (if exists e :: e in patterns && e <= (if layer[0].name == [] then "." else Join(layer[0].name, '/')) then []
       else [layer[0]])
      + NotExcluded(patterns, layer[1..])
  }

  /** Excluding entries is unpacking an archive without them. */
  lemma {:induction false} ExcludedLeftOut(options: UnpackOptions, dest: Path, root: Node, dirs: seq<Header>,
                                           layer: seq<Header>)
    ensures OptionAll(options, dest, root, dirs, layer)
         == OptionAll(options.(excludePatterns := []), dest, root, dirs, NotExcluded(options.excludePatterns, layer))
    decreases |layer|
  {
    hide UnpackStep, Lstat, Join;
    if layer != [] {
      var h, kept := layer[0], NotExcluded(options.excludePatterns, layer[1..]);
      var (t, ds, e) := OptionStep(options, dest, root, dirs, h);
      ExcludedLeftOut(options, dest, t, ds, layer[1..]);
      if !Excluded(options, h) {
        assert NotExcluded(options.excludePatterns, layer) == [h] + kept;
        assert ([h] + kept)[1..] == kept;
        assert OptionStep(options.(excludePatterns := []), dest, root, dirs, h) == (t, ds, e);
      } else {
        assert NotExcluded(options.excludePatterns, layer) == kept;
      }
    }
  }

  /** An archive that is unpacked has no name with ".." in it, but for excluded ones. */
  lemma {:induction false} NamesStayInside(options: UnpackOptions, dest: Path, root: Node, dirs: seq<Header>,
                                           layer: seq<Header>)
    requires OptionAll(options, dest, root, dirs, layer).2 == None
    ensures forall h :: h in NotExcluded(options.excludePatterns, layer) ==> ".." !in h.name
    decreases |layer|
  {
    hide Lstat, Join, EnsureParent, ConvertRead, Install, RemoveAll;
    if layer != [] {
      var (t, ds, e) := OptionStep(options, dest, root, dirs, layer[0]);
      NamesStayInside(options, dest, t, ds, layer[1..]);
    }
  }

  /** With NoOverwriteDirNonDir, an entry is refused, and changes nothing, when a directory stands where it is
      none or the other way round. */
  lemma OverwriteRefusedIff(options: UnpackOptions, dest: Path, root: Node, dirs: seq<Header>, h: Header)
    requires options.excludePatterns == [] && ".." !in h.name && DirsAbove(root, h.name)
    ensures OptionStep(options, dest, root, dirs, h) == (root, dirs, Some(WouldOverwrite))
       <==> && options.noOverwriteDirNonDir && Exists(root, h.name)
            && (DirAt(root, h.name) <==> h.etype != DirEntry)
  {
    hide EnsureParent, ConvertRead, RemoveAll, Install, UnpackStep;
    LstatBelowDirs(root, h.name);
    NeverOverwriting(dest, root, dirs, h);
  }

  lemma NeverOverwriting(dest: Path, root: Node, dirs: seq<Header>, h: Header)
    ensures UnpackStep(dest, root, dirs, h).2 != Some(WouldOverwrite)
  {
    hide Lstat;
    if h.name != [] && Lstat(root, Parent(h.name)).NotExist? {
      MkdirErrors(root, Parent(h.name), MADE_OWNED);
    }
  }

  lemma {:induction false} MkdirErrors(t: Node, p: Path, made: Meta)
    ensures MkdirAll(t, p, made).Err? ==> MkdirAll(t, p, made).error in {OutsideModel, NotADirectory}
    decreases |p|
  {
    if p != [] {
      var child := if p[0] in t.children then t.children[p[0]] else Node(made, map[]);
      MkdirErrors(child, p[1..], made);
    }
  }

  // ----- what is written

  /** A 0/0 device is written as an empty file of mode 0600 with the whiteout name, an opaque directory is
      followed by an empty marker inside it with its owner and permissions, and anything else is written
      as it is. */
  lemma HeadersWritten(p: Path, m: Meta, clock: TarClock)
    requires p != []
    ensures var h, written := FileHeader(p, m, clock), Converted(FileHeader(p, m, clock), m);
            && (m.stat.ftype == Char && m.stat.rdev == 0 ==>
                  |written| == 1 && written[0].name == Parent(p) + [".wh." + Base(p)]
                  && written[0].etype == RegEntry && written[0].perm == 384 && written[0].size == 0
                  && written[0].uid == m.stat.uid && written[0].gid == m.stat.gid && written[0].mtim == h.mtim)
            && (m.stat.ftype == Directory && m.overlayOpaque ==>
                  |written| == 2 && written[0] == h && written[1].name == p + [".wh..wh..opq"]
                  && written[1].etype == RegEntry && written[1].perm == m.stat.perm % 512 && written[1].size == 0
                  && written[1].uid == m.stat.uid && written[1].gid == m.stat.gid)
            && ((m.stat.ftype == Char ==> m.stat.rdev != 0) && (m.stat.ftype == Directory ==> !m.overlayOpaque) ==>
                  written == [h])
  {
  }
}
