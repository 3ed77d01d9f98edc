/**
  Packing an overlay directory in the AUFS convention and unpacking it again: a 0/0 device
  becomes a whiteout file and back, the opaque attribute an opaque-marker file and back.
 */
module Overlay {
  import opened Wrappers
  import opened Text
  import opened FsTree
  import opened SortedNames
  import opened LayerExport
  import opened LayerUnpack
  import opened LayerSteps

  /** A directory, a regular file or a 0/0 whiteout device of an overlay upper directory. */
  predicate OverlayMeta(m: Meta) {
    && m.stat.ftype in {Directory, Regular, Char}
    && m.stat.rdev == 0
    && (m.stat.ftype == Regular ==> m.stat.size == |m.data|)
    && (m.stat.ftype != Regular ==> m.data == "")
    && (m.overlayOpaque ==> m.stat.ftype == Directory)
  }

  ghost predicate OverlayTree(t: Node) {
    && OverlayMeta(t.meta)
    && (!t.IsDir() ==> t.children == map[])
    && (forall k :: k in t.children ==> OrdinaryName(k) && OverlayTree(t.children[k]))
  }

  // ----- packing

  /** overlayWhiteoutConverter.ConvertWrite: the header as it is written, and an extra one to follow it. */
  method ConvertWrite(hdr: Header, m: Meta) returns (out: Header, wo: Option<Header>)
    requires hdr.name != []
    ensures [out] + (if wo.Some? then [wo.value] else []) == Converted(hdr, m)
  {
    out, wo := hdr, None;
    if m.stat.ftype == Char && hdr.rdev == 0 {
      out := out.(name := Parent(hdr.name) + [WHITEOUT_PREFIX + Base(hdr.name)]);
      out := out.(perm := 384);
      out := out.(etype := RegEntry);
      out := out.(size := 0);
    }
    if m.stat.ftype == Directory && m.overlayOpaque {
      wo := Some(Header(out.name + [WHITEOUT_OPAQUE_DIR], RegEntry, out.perm % 512, out.uid, out.gid, 0,
                        Timespec(0, 0), "", "", 0));
    }
  }

  /** What ConvertWrite makes of a file's header, in the order in which it is written. */
  function Converted(hdr: Header, m: Meta): seq<Header>
    requires hdr.name != []
  {
    if m.stat.ftype == Char && hdr.rdev == 0 then
      [hdr.(name := Parent(hdr.name) + [WHITEOUT_PREFIX + Base(hdr.name)], perm := 384, etype := RegEntry, size := 0)]
    else if m.stat.ftype == Directory && m.overlayOpaque then
      [hdr, Header(hdr.name + [WHITEOUT_OPAQUE_DIR], RegEntry, hdr.perm % 512, hdr.uid, hdr.gid, 0,
                   Timespec(0, 0), "", "", 0)]
    else [hdr]
  }

  /** The archive of one node: its own entries, then its contents in name order. */
  function PackNode(t: Node, p: Path, clock: TarClock): seq<Header>
    requires p != []
    decreases t, 1, 0
  {
    Converted(FileHeader(p, t.meta, clock), t.meta) + PackNames(t, p, Listing(t.children.Keys), clock)
  }

  function PackNames(t: Node, p: Path, names: seq<string>, clock: TarClock): seq<Header>
    requires forall k :: k in names ==> k in t.children
    decreases t, 0, |names|
  {
    if names == [] then []
    else PackNames(t, p, names[..|names| - 1], clock)
         + PackNode(t.children[names[|names| - 1]], p + [names[|names| - 1]], clock)
  }

  /** The archive of a directory; the source directory itself has no entry. */
  function Pack(t: Node, clock: TarClock): seq<Header> {
    PackNames(t, [], Listing(t.children.Keys), clock)
  }

  lemma PackNone(t: Node, p: Path, names: seq<string>, clock: TarClock)
    requires names == []
    ensures PackNames(t, p, names, clock) == []
  {
  }

  lemma PackOneMore(t: Node, p: Path, names: seq<string>, i: nat, clock: TarClock)
    requires i < |names| && forall k :: k in names ==> k in t.children
    ensures PackNames(t, p, names[..i + 1], clock)
         == PackNames(t, p, names[..i], clock) + PackNode(t.children[names[i]], p + [names[i]], clock)
  {
    hide PackNode;
    assert names[..i + 1][..i] == names[..i] && names[..i + 1][i] == names[i];
  }

  /** A tarAppender with the overlay converter, and what it has written. */
  class TarAppender {
    var entries: seq<Header>

    constructor ()
      ensures entries == []
    {
      entries := [];
    }

    /** The part of addTarFile that concerns whiteouts: an extra header follows the file's own. */
    method AddTarFile(p: Path, m: Meta, clock: TarClock)
      requires p != []
      modifies this
      ensures entries == old(entries) + Converted(FileHeader(p, m, clock), m)
      ensures ComesBack(entries[|old(entries)|..], p, m, clock)
    {
      hide ComesBack;
      var hdr := FileHeader(p, m, clock);
      var wo;
      hdr, wo := ConvertWrite(hdr, m);
      ghost var first := hdr;
      if wo.Some? {
        entries := entries + [hdr];
        hdr := wo.value;
      }
      entries := entries + [hdr];
      assert entries == old(entries) + ([first] + (if wo.Some? then [wo.value] else []));
      OwnComesBack(p, m, clock);
    }

    /** The walk from one node. */
    method AddTree(t: Node, p: Path, clock: TarClock)
      requires p != []
      modifies this
      ensures entries == old(entries) + PackNode(t, p, clock)
      decreases t, 1
    {
      hide Converted, PackNames;
      AddTarFile(p, t.meta, clock);
      AddContents(t, p, clock);
    }

    method AddContents(t: Node, p: Path, clock: TarClock)
      modifies this
      ensures entries == old(entries) + PackNames(t, p, Listing(t.children.Keys), clock)
      decreases t, 0
    {
      hide PackNode, PackNames;
      var names := Listing(t.children.Keys);
      PackNone(t, p, names[..0], clock);
      for i := 0 to |names|
        invariant entries == old(entries) + PackNames(t, p, names[..i], clock)
      {
        assert names[i] in names;
        PackOneMore(t, p, names, i, clock);
        AddTree(t.children[names[i]], p + [names[i]], clock);
      }
      assert names[..|names|] == names;
    }
  }

  // ----- unpacking

  /** TarOptions as far as Unpack looks at them for this. */
  datatype UnpackOptions = UnpackOptions(excludePatterns: seq<string>, noOverwriteDirNonDir: bool)

  const NO_OPTIONS := UnpackOptions([], false)

  /** The entry's name begins with an excluded text; the name of the root is ".". */
  predicate Excluded(options: UnpackOptions, h: Header) {
    exists e :: e in options.excludePatterns && HasPrefix(if h.name == [] then "." else Join(h.name, '/'), e)
  }

  /** A directory where the archive has none, or the other way round. */
  predicate Overwrites(options: UnpackOptions, root: Node, h: Header) {
    options.noOverwriteDirNonDir && Lstat(root, h.name).Found?
    && (Lstat(root, h.name).node.IsDir() <==> !h.etype.DirEntry?)
  }

  const MADE_OWNED := Meta(Stat(Directory, 511, 0, 0, 0, 0, CREATED_AT), "", "", false)

  function DeviceMeta(h: Header): Meta {
    Meta(Stat(Char, 0, h.uid, h.gid, 0, 0, CREATED_AT), "", "", false)
  }

  /** overlayWhiteoutConverter.ConvertRead: None when the entry is an ordinary file and still to be written. */
  function ConvertRead(root: Node, h: Header): Option<Result<Node, LayerError>>
    requires h.name != []
  {
    var dir, base := Parent(h.name), Base(h.name);
    if base == WHITEOUT_OPAQUE_DIR then
      match Lstat(root, dir)
      case Found(node) =>
        if node.meta.stat.ftype == Symlink then Some(Err(OutsideModel))
        else Some(Ok(SetMeta(root, dir, node.meta.(overlayOpaque := true))))
      case NotExist => Some(Err(NotFound))
      case NotDirectory => Some(Err(NotADirectory))
      case ThroughSymlink => Some(Err(OutsideModel))
    else if HasPrefix(base, WHITEOUT_PREFIX) then
      if !ValidName(base[4..]) then Some(Err(OutsideModel))
      else
        match Lstat(root, dir + [base[4..]])
        case Found(_) => Some(Err(AlreadyExists))
        case NotExist => Some(Ok(Put(root, dir + [base[4..]], Node(DeviceMeta(h), map[]))))
        case NotDirectory => Some(Err(NotADirectory))
        case ThroughSymlink => Some(Err(OutsideModel))
    else None
  }

  /** One turn of Unpack's loop: the tree, the headers of directories written, the error. */
  function UnpackStep(dest: Path, root: Node, dirs: seq<Header>, h: Header): (Node, seq<Header>, Option<LayerError>) {
    if ".." in h.name then (root, dirs, Some(OutsideError(h.name)))
    else if h.name == [] then (root, dirs, if root.IsDir() then None else Some(OutsideModel))
    else
      match EnsureParent(root, h.name, MADE_OWNED)
      case Err(e) => (root, dirs, Some(e))
      case Ok(parented) =>
        var there := Lstat(parented, h.name);
        var cleared := if there.Found? && !(there.node.IsDir() && h.etype.DirEntry?) then RemoveAll(parented, h.name)
                       else Ok(parented);
        match cleared
        case Err(e) => (parented, dirs, Some(e))
        case Ok(free) =>
          match ConvertRead(free, h)
          case Some(Ok(converted)) => (converted, dirs, None)
          case Some(Err(e)) => (free, dirs, Some(e))
          case None =>
            match Install(dest, free, h)
            case Err(e) => (free, dirs, Some(e))
            case Ok(made) => (made, if h.etype.DirEntry? then dirs + [h] else dirs, None)
  }

  function UnpackAll(dest: Path, root: Node, dirs: seq<Header>, layer: seq<Header>)
    : (Node, seq<Header>, Option<LayerError>)
    decreases |layer|
  {
    if layer == [] then (root, dirs, None)
    else
      var (t, ds, e) := UnpackStep(dest, root, dirs, layer[0]);
      if e.Some? then (t, ds, e) else UnpackAll(dest, t, ds, layer[1..])
  }

  /** Unpack with the overlay format and no other options. */
  function Unpack(dest: Path, root: Node, layer: seq<Header>): (Node, Option<LayerError>) {
    var (t, dirs, e) := UnpackAll(dest, root, [], layer);
    if e.Some? then (t, e) else SetDirTimes(t, dirs)
  }

  /** One turn of the loop under any options. */
  function OptionStep(options: UnpackOptions, dest: Path, root: Node, dirs: seq<Header>, h: Header)
    : (Node, seq<Header>, Option<LayerError>)
  {
    if Excluded(options, h) then (root, dirs, None)
    else if ".." !in h.name && Overwrites(options, root, h) then (root, dirs, Some(WouldOverwrite))
    else UnpackStep(dest, root, dirs, h)
  }

  function OptionAll(options: UnpackOptions, dest: Path, root: Node, dirs: seq<Header>, layer: seq<Header>)
    : (Node, seq<Header>, Option<LayerError>)
    decreases |layer|
  {
    if layer == [] then (root, dirs, None)
    else
      var (t, ds, e) := OptionStep(options, dest, root, dirs, layer[0]);
      if e.Some? then (t, ds, e) else OptionAll(options, dest, t, ds, layer[1..])
  }

  lemma {:induction false} WithoutOptions(dest: Path, root: Node, dirs: seq<Header>, layer: seq<Header>)
    ensures OptionAll(NO_OPTIONS, dest, root, dirs, layer) == UnpackAll(dest, root, dirs, layer)
    decreases |layer|
  {
    hide UnpackStep;
    if layer != [] {
      var (t, ds, e) := UnpackStep(dest, root, dirs, layer[0]);
      WithoutOptions(dest, t, ds, layer[1..]);
    }
  }

  lemma OptionNext(options: UnpackOptions, dest: Path, root: Node, dirs: seq<Header>, layer: seq<Header>)
    requires layer != []
    ensures OptionAll(options, dest, root, dirs, layer)
         == (var (t, ds, e) := OptionStep(options, dest, root, dirs, layer[0]);
             if e.Some? then (t, ds, e) else OptionAll(options, dest, t, ds, layer[1..]))
  {
    hide OptionStep;
  }

  lemma OptionEnd(options: UnpackOptions, dest: Path, root: Node, dirs: seq<Header>)
    ensures OptionAll(options, dest, root, dirs, []) == (root, dirs, None)
  {
  }

  /** Making sure of the parent has no bearing on what is there: where something is, the parent is
      there already, and a parent just made is empty. */
  lemma ParentAside(root: Node, name: Path, made: Meta)
    requires name != [] && made.stat.ftype == Directory
    ensures Lstat(root, name).Found? ==> EnsureParent(root, name, made) == Ok(root)
    ensures var parented := EnsureParent(root, name, made);
            parented.Ok? && !Lstat(root, name).Found? ==> !Lstat(parented.value, name).Found?
  {
    assert name == Parent(name) + [Base(name)];
    if Lstat(root, name).Found? {
      FoundAbove(root, Parent(name), name);
    } else if EnsureParent(root, name, made).Ok? {
      if Lstat(root, Parent(name)).NotExist? {
        MkdirIsEmpty(root, Parent(name), Base(name), made);
      }
    }
  }

  lemma {:induction false} FoundAbove(t: Node, p: Path, q: Path)
    requires p <= q && Lstat(t, q).Found?
    ensures Lstat(t, p).Found?
  {
    if p != [] {
      FoundAbove(t.children[p[0]], p[1..], q[1..]);
    }
  }

  lemma {:induction false} MkdirIsEmpty(t: Node, p: Path, base: string, made: Meta)
    requires made.stat.ftype == Directory && MkdirAll(t, p, made).Ok? && !Lstat(t, p + [base]).Found?
    ensures !Lstat(MkdirAll(t, p, made).value, p + [base]).Found?
    decreases |p|
  {
    if p != [] {
      assert (p + [base])[1..] == p[1..] + [base];
      var child := if p[0] in t.children then t.children[p[0]] else Node(made, map[]);
      MkdirIsEmpty(child, p[1..], base, made);
    } else {
      assert MkdirAll(t, p, made).value == t;
    }
  }

  /** The destination directory of Unpack, updated in place. */
  class OverlayDisk {
    var root: Node

    constructor (root: Node)
      ensures this.root == root
    {
      this.root := root;
    }

    method UnpackArchive(options: UnpackOptions, dest: Path, layer: seq<Header>) returns (err: Option<LayerError>)
      modifies this
      ensures var (t, dirs, e) := OptionAll(options, dest, old(root), [], layer);
              (root, err) == if e.Some? then (t, e) else SetDirTimes(t, dirs)
    {
      hide *;
      var dirs: seq<Header> := [];
      var next := 0;
      while next < |layer|
        invariant 0 <= next <= |layer|
        invariant OptionAll(options, dest, old(root), [], layer) == OptionAll(options, dest, root, dirs, layer[next..])
      {
        var hdr := layer[next];
        assert layer[next..][0] == hdr && layer[next..][1..] == layer[next + 1..];
        OptionNext(options, dest, root, dirs, layer[next..]);
        dirs, err := UnpackEntry(options, dest, dirs, hdr);
        if err.Some? {
          return;
        }
        next := next + 1;
      }
      assert layer[next..] == [];
      OptionEnd(options, dest, root, dirs);
      var (t, e) := SetDirTimes(root, dirs);
      root := t;
      err := e;
    }

    /** The body of the loop. */
    method UnpackEntry(options: UnpackOptions, dest: Path, dirs: seq<Header>, hdr: Header)
      returns (ds: seq<Header>, err: Option<LayerError>)
      modifies this
      ensures (root, ds, err) == OptionStep(options, dest, old(root), dirs, hdr)
    {
      hide Lstat, MkdirAll, RemoveAll, Install, EnsureParent, ConvertRead, Join, HasPrefix;
      ds, err := dirs, None;
      for i := 0 to |options.excludePatterns|
        invariant forall k :: 0 <= k < i ==>
                    !HasPrefix(if hdr.name == [] then "." else Join(hdr.name, '/'), options.excludePatterns[k])
      {
        if HasPrefix(if hdr.name == [] then "." else Join(hdr.name, '/'), options.excludePatterns[i]) {
          assert options.excludePatterns[i] in options.excludePatterns;
          return;
        }
      }
      assert !Excluded(options, hdr);
      if ".." in hdr.name {
        return ds, Some(OutsideError(hdr.name));
      }
      if hdr.name != [] {
        var parent := EnsureParent(root, hdr.name, MADE_OWNED);
        ParentAside(root, hdr.name, MADE_OWNED);
        if parent.Err? {
          return ds, Some(parent.error);
        }
        root := parent.value;
      }
      var there := Lstat(root, hdr.name);
      if there.Found? {
        if options.noOverwriteDirNonDir && there.node.IsDir() && !hdr.etype.DirEntry? {
          return ds, Some(WouldOverwrite);
        }
        if options.noOverwriteDirNonDir && !there.node.IsDir() && hdr.etype.DirEntry? {
          return ds, Some(WouldOverwrite);
        }
      }
      if hdr.name == [] {
        err := if root.IsDir() then None else Some(OutsideModel);
        return;
      }
      if there.Found? && !(there.node.IsDir() && hdr.etype.DirEntry?) {
        var cleared := RemoveAll(root, hdr.name);
        if cleared.Err? {
          return ds, Some(cleared.error);
        }
        root := cleared.value;
      }
      var converted := ConvertRead(root, hdr);
      if converted.Some? {
        if converted.value.Err? {
          return ds, Some(converted.value.error);
        }
        root := converted.value.value;
        return;
      }
      var made := Install(dest, root, hdr);
      if made.Err? {
        return ds, Some(made.error);
      }
      root := made.value;
      if hdr.etype.DirEntry? {
        ds := ds + [hdr];
      }
    }
  }

  // ----- what comes back

  /** A whiteout device comes back with its owner but without mode or times; a directory with its flag. */
  function RestoredMeta(m: Meta, p: Path, clock: TarClock): Meta {
    var h := FileHeader(p, m, clock);
    if m.stat.ftype == Char then DeviceMeta(h) else NewMeta(h).(overlayOpaque := m.overlayOpaque)
  }

  function Restored(t: Node, p: Path, clock: TarClock): Node
    decreases t, 1
  {
    Node(RestoredMeta(t.meta, p, clock), RestoredChildren(t, p, clock))
  }

  function RestoredChildren(t: Node, p: Path, clock: TarClock): map<string, Node>
    decreases t, 0
  {
    map k | k in t.children :: Restored(t.children[k], p + [k], clock)
  }

  ghost predicate OrdinaryIn(t: Node, dir: Path) {
    forall k :: Exists(t, dir + [k]) ==> OrdinaryName(k)
  }

  /** A free place for a node in a directory of ordinary names. */
  ghost predicate FreeAt(t: Node, p: Path) {
    p != [] && DirsAbove(t, p) && !Exists(t, p) && OrdinaryIn(t, Parent(p))
    && forall i :: 0 <= i < |p| ==> OrdinaryName(p[i])
  }

  /** A directory header whose time the directory already has. */
  ghost predicate Timed(t: Node, h: Header) {
    DirAt(t, h.name) && DirsAbove(t, h.name) && MetaAt(t, h.name).value.stat.mtim == ClampTime(h.mtim)
  }

  // ----- single entries

  lemma FreeFacts(t: Node, p: Path)
    requires FreeAt(t, p)
    ensures Lstat(t, p) == NotExist && Exists(t, Parent(p)) && EnsureParent(t, p, MADE_OWNED) == Ok(t)
    ensures ".." !in p && OrdinaryName(Base(p)) && !HasPrefix(Base(p), WHITEOUT_PREFIX)
  {
    LstatBelowDirs(t, p);
    ParentFound(t, p, MADE_OWNED);
    assert DirAt(t, Parent(p));
  }

  lemma StepFile(dest: Path, t: Node, dirs: seq<Header>, h: Header)
    requires FreeAt(t, h.name) && (h.etype.DirEntry? || h.etype.RegEntry?)
    ensures UnpackStep(dest, t, dirs, h)
         == (Put(t, h.name, Node(NewMeta(h), map[])), if h.etype.DirEntry? then dirs + [h] else dirs, None)
  {
    hide Lstat, FreeAt, EnsureParent;
    FreeFacts(t, h.name);
    FreeNonEmpty(t, h.name);
    assert WHITEOUT_PREFIX <= WHITEOUT_OPAQUE_DIR;
  }

  lemma FreeNonEmpty(t: Node, p: Path)
    requires FreeAt(t, p)
    ensures p != []
  {
  }

  lemma StepWhiteout(dest: Path, t: Node, dirs: seq<Header>, p: Path, h: Header)
    requires FreeAt(t, p) && h.name == Parent(p) + [WHITEOUT_PREFIX + Base(p)]
    ensures UnpackStep(dest, t, dirs, h) == (Put(t, p, Node(DeviceMeta(h), map[])), dirs, None)
  {
    hide Lstat, EnsureParent;
    FreeFacts(t, p);
    WhiteoutHeaderName(p);
    SameParentDirs(t, p, h.name);
    ParentFound(t, h.name, MADE_OWNED);
    assert Base(h.name) == WHITEOUT_PREFIX + Base(p) && HasPrefix(Base(h.name), WHITEOUT_PREFIX);
    assert !OrdinaryName(Base(h.name));
    assert !Exists(t, h.name);
    LstatBelowDirs(t, h.name);
  }

  lemma StepOpaque(dest: Path, t: Node, dirs: seq<Header>, p: Path, h: Header)
    requires DirAt(t, p) && DirsAbove(t, p) && OrdinaryIn(t, p) && p != []
    requires forall i :: 0 <= i < |p| ==> OrdinaryName(p[i])
    requires h.name == p + [WHITEOUT_OPAQUE_DIR]
    ensures UnpackStep(dest, t, dirs, h)
         == (SetMeta(t, p, MetaAt(t, p).value.(overlayOpaque := true)), dirs, None)
  {
    hide Lstat, EnsureParent;
    assert Parent(h.name) == p && Base(h.name) == WHITEOUT_OPAQUE_DIR;
    forall r | r < h.name ensures DirAt(t, r) {
      assert r == p || r < p;
    }
    ParentFound(t, h.name, MADE_OWNED);
    assert WHITEOUT_PREFIX <= WHITEOUT_OPAQUE_DIR && !OrdinaryName(WHITEOUT_OPAQUE_DIR);
    assert !Exists(t, h.name);
    LstatBelowDirs(t, h.name);
    LstatBelowDirs(t, p);
  }

  lemma UnpackOne(dest: Path, t: Node, dirs: seq<Header>, h: Header)
    ensures UnpackAll(dest, t, dirs, [h]) == UnpackStep(dest, t, dirs, h)
  {
    hide UnpackStep;
    assert [h][1..] == [];
  }

  lemma {:induction false} UnpackConcat(dest: Path, t: Node, dirs: seq<Header>, a: seq<Header>, b: seq<Header>)
    ensures var (u, ds, e) := UnpackAll(dest, t, dirs, a);
            UnpackAll(dest, t, dirs, a + b) == if e.Some? then (u, ds, e) else UnpackAll(dest, u, ds, b)
    decreases |a|
  {
    hide UnpackStep;
    if a == [] {
      assert a + b == b;
    } else {
      assert (a + b)[1..] == a[1..] + b;
      var (u, ds, e) := UnpackStep(dest, t, dirs, a[0]);
      if e.None? {
        UnpackConcat(dest, u, ds, a[1..], b);
      }
    }
  }

  // ----- one node with everything below it

  ghost predicate AllTimed(t: Node, dirs: seq<Header>) {
    forall h :: h in dirs ==> Timed(t, h)
  }

  /** Filling a free place disturbs no directory's time. */
  lemma PutKeepsTimed(t: Node, p: Path, n: Node, dirs: seq<Header>)
    requires FreeAt(t, p) && AllTimed(t, dirs)
    ensures AllTimed(Put(t, p, n), dirs)
  {
    forall h | h in dirs ensures Timed(Put(t, p, n), h) {
      assert Timed(t, h) && DirAt(t, Parent(p));
      if p <= h.name {
        ExistsUpward(t, p, h.name);
      }
      PutAt(t, p, n, h.name);
      forall r | r < h.name ensures DirAt(Put(t, p, n), r) {
        assert DirAt(t, r);
        PutAt(t, p, n, r);
      }
    }
  }

  /** A node's own entries put it in place, without its contents. */
  lemma OwnEntries(dest: Path, t: Node, dirs: seq<Header>, n: Node, p: Path, clock: TarClock)
    returns (ds: seq<Header>)
    requires FreeAt(t, p) && OverlayTree(n) && AllTimed(t, dirs)
    ensures UnpackAll(dest, t, dirs, Converted(FileHeader(p, n.meta, clock), n.meta))
         == (Put(t, p, Node(RestoredMeta(n.meta, p, clock), map[])), ds, None)
    ensures AllTimed(Put(t, p, Node(RestoredMeta(n.meta, p, clock), map[])), ds)
  {
    hide UnpackStep, FreeAt, Timed, NewMeta;
    var h := FileHeader(p, n.meta, clock);
    var own := Node(RestoredMeta(n.meta, p, clock), map[]);
    FreeNonEmpty(t, p);
    PutKeepsTimed(t, p, own, dirs);
    if n.meta.stat.ftype == Char {
      var w := Converted(h, n.meta)[0];
      StepWhiteout(dest, t, dirs, p, w);
      ds := dirs;
      UnpackOne(dest, t, dirs, w);
      assert Converted(h, n.meta) == [w];
    } else {
      StepFile(dest, t, dirs, h);
      UnpackOne(dest, t, dirs, h);
      NotOpaque(h);
      ds := if h.etype.DirEntry? then dirs + [h] else dirs;
      if h.etype.DirEntry? {
        TimedHere(t, p, own, h);
      }
      if n.meta.overlayOpaque {
        var plain := Node(NewMeta(h), map[]);
        var wo := Converted(h, n.meta)[1];
        PlacedDir(t, p, plain);
        StepOpaque(dest, Put(t, p, plain), ds, p, wo);
        PutSetMeta(t, p, plain, own.meta);
        UnpackOne(dest, Put(t, p, plain), ds, wo);
        UnpackConcat(dest, t, dirs, [h], [wo]);
        assert Converted(h, n.meta) == [h] + [wo];
      }
    }
  }

  /** Wherever there is room for it, unpacking these entries gives the file, less what a whiteout device
      loses, and does nothing else. */
  ghost predicate ComesBack(entries: seq<Header>, p: Path, m: Meta, clock: TarClock) {
    OverlayMeta(m) ==>
      forall dest: Path, t: Node, dirs: seq<Header> :: FreeAt(t, p) && AllTimed(t, dirs) ==>
        && UnpackAll(dest, t, dirs, entries).0 == Put(t, p, Node(RestoredMeta(m, p, clock), map[]))
        && UnpackAll(dest, t, dirs, entries).2 == None
  }

  lemma OwnComesBack(p: Path, m: Meta, clock: TarClock)
    requires p != []
    ensures ComesBack(Converted(FileHeader(p, m, clock), m), p, m, clock)
  {
    hide FreeAt, AllTimed, UnpackAll, Converted, RestoredMeta, OverlayMeta;
    if OverlayMeta(m) {
      var n := Node(m, map[]);
      assert OverlayTree(n);
      forall dest: Path, t: Node, dirs: seq<Header> | FreeAt(t, p) && AllTimed(t, dirs)
        ensures UnpackAll(dest, t, dirs, Converted(FileHeader(p, m, clock), m)).0
             == Put(t, p, Node(RestoredMeta(m, p, clock), map[]))
        ensures UnpackAll(dest, t, dirs, Converted(FileHeader(p, m, clock), m)).2 == None
      {
        var ds := OwnEntries(dest, t, dirs, n, p, clock);
      }
    }
  }

  lemma NotOpaque(h: Header)
    ensures !NewMeta(h).overlayOpaque
    ensures NewMeta(h).(overlayOpaque := false) == NewMeta(h)
    ensures h.etype.DirEntry? ==> NewMeta(h).stat.ftype == Directory && NewMeta(h).stat.mtim == ClampTime(h.mtim)
  {
  }

  lemma TimedHere(t: Node, p: Path, own: Node, h: Header)
    requires FreeAt(t, p) && h.name == p && own.meta.stat.ftype == Directory
    requires own.meta.stat.mtim == ClampTime(h.mtim)
    ensures Timed(Put(t, p, own), h)
  {
    assert DirAt(t, Parent(p));
    PutAt(t, p, own, p);
    forall r | r < p ensures DirAt(Put(t, p, own), r) {
      assert DirAt(t, r);
      PutAt(t, p, own, r);
    }
  }

  lemma PlacedDir(t: Node, p: Path, n: Node)
    requires FreeAt(t, p) && n.meta.stat.ftype == Directory && n.children == map[]
    ensures DirAt(Put(t, p, n), p) && DirsAbove(Put(t, p, n), p) && OrdinaryIn(Put(t, p, n), p)
    ensures MetaAt(Put(t, p, n), p) == Some(n.meta) && Exists(t, Parent(p))
    ensures p != [] && forall i :: 0 <= i < |p| ==> OrdinaryName(p[i])
  {
    assert DirAt(t, Parent(p));
    PutAt(t, p, n, p);
    forall r | r < p ensures DirAt(Put(t, p, n), r) {
      assert DirAt(t, r);
      PutAt(t, p, n, r);
    }
    forall k ensures !Exists(Put(t, p, n), p + [k]) {
      PutAt(t, p, n, p + [k]);
      assert (p + [k])[|p|..] == [k];
    }
  }

  /** A node with its attributes and some of its children in place. */
  ghost function Partly(t: Node, p: Path, own: Meta, n: Node, names: seq<string>, clock: TarClock): Node {
    Put(t, p, Node(own, SomeChildren(n, p, names, clock)))
  }

  ghost function SomeChildren(n: Node, p: Path, names: seq<string>, clock: TarClock): map<string, Node> {
    var all := RestoredChildren(n, p, clock);
    map k | k in all && k in names :: all[k]
  }

  lemma SomeChildrenAre(n: Node, p: Path, names: seq<string>, clock: TarClock)
    ensures var some := SomeChildren(n, p, names, clock);
            && some.Keys == (set k | k in n.children && k in names)
            && (forall k :: k in some ==> some[k] == Restored(n.children[k], p + [k], clock))
            && (names == [] ==> some == map[])
            && ((forall k :: k in n.children ==> k in names) ==> some == RestoredChildren(n, p, clock))
  {
    hide Restored;
    var some := SomeChildren(n, p, names, clock);
    assert RestoredChildren(n, p, clock).Keys == n.children.Keys;
    if names == [] {
      assert some.Keys == {};
    }
  }

  /** A place for a directory: free, or the root itself. */
  ghost predicate Place(t: Node, p: Path) {
    p == [] || FreeAt(t, p)
  }

  lemma PlaceParent(t: Node, p: Path)
    requires Place(t, p)
    ensures p == [] || Exists(t, Parent(p))
    ensures forall i :: 0 <= i < |p| ==> OrdinaryName(p[i])
    ensures forall r :: r < p ==> DirAt(t, r)
  {
    if p != [] {
      assert DirAt(t, Parent(p));
    }
  }

  lemma OverlayNames(n: Node)
    requires OverlayTree(n)
    ensures forall k :: k in n.children ==> OrdinaryName(k)
  {
  }

  lemma PartlyFree(t: Node, p: Path, own: Meta, n: Node, names: seq<string>, clock: TarClock, k: string)
    requires Place(t, p) && own.stat.ftype == Directory && OverlayTree(n)
    requires k in n.children && k !in names
    ensures FreeAt(Partly(t, p, own, n, names, clock), p + [k])
  {
    hide Restored, SomeChildren, OverlayTree;
    OverlayNames(n);
    PlaceParent(t, p);
    var here := Node(own, SomeChildren(n, p, names, clock));
    SomeChildrenAre(n, p, names, clock);
    var u := Partly(t, p, own, n, names, clock);
    assert Parent(p + [k]) == p;
    forall q ensures MetaAt(u, q) == if p <= q then MetaAt(here, q[|p|..]) else MetaAt(t, q) {
      PutAt(t, p, here, q);
    }
    forall r | r < p + [k] ensures DirAt(u, r) {
      if r != p {
        assert r < p && DirAt(t, r);
      }
    }
    forall j ensures Exists(u, p + [j]) <==> j in here.children {
      assert p <= p + [j] && (p + [j])[|p|..] == [j];
      ChildAt(here, j);
    }
  }

  lemma {:induction false} UnpackNode(dest: Path, t: Node, dirs: seq<Header>, n: Node, p: Path, clock: TarClock)
    returns (ds: seq<Header>)
    requires FreeAt(t, p) && OverlayTree(n) && AllTimed(t, dirs)
    ensures p != []
    ensures UnpackAll(dest, t, dirs, PackNode(n, p, clock)) == (Put(t, p, Restored(n, p, clock)), ds, None)
    ensures AllTimed(Put(t, p, Restored(n, p, clock)), ds)
    decreases n, 1, 0
  {
    hide UnpackAll, FreeAt, Timed, RestoredMeta, Converted, AllTimed, Partly, PackNames, OverlayTree, RestoredChildren;
    FreeNonEmpty(t, p);
    var own := RestoredMeta(n.meta, p, clock);
    var first := OwnEntries(dest, t, dirs, n, p, clock);
    var names := Listing(n.children.Keys);
    var headers := Converted(FileHeader(p, n.meta, clock), n.meta);
    UnpackConcat(dest, t, dirs, headers, PackNames(n, p, names, clock));
    NoneYet(t, p, own, n, clock);
    AllOfThem(t, p, own, n, names, clock);
    if n.IsDir() {
      OwnType(n, p, clock);
      ds := UnpackNames(dest, t, first, n, p, own, names, clock);
    } else {
      ds := first;
      NoNames(n, p, names, clock);
      UnpackNothing(dest, Put(t, p, Node(own, map[])), first);
    }
  }

  lemma OwnType(n: Node, p: Path, clock: TarClock)
    requires OverlayTree(n)
    ensures RestoredMeta(n.meta, p, clock).stat.ftype == n.meta.stat.ftype
  {
  }

  lemma NoneYet(t: Node, p: Path, own: Meta, n: Node, clock: TarClock)
    ensures Partly(t, p, own, n, [], clock) == Put(t, p, Node(own, map[]))
  {
    SomeChildrenAre(n, p, [], clock);
  }

  lemma AllOfThem(t: Node, p: Path, own: Meta, n: Node, names: seq<string>, clock: TarClock)
    requires forall k :: k in n.children ==> k in names
    ensures Partly(t, p, own, n, names, clock) == Put(t, p, Node(own, RestoredChildren(n, p, clock)))
  {
    SomeChildrenAre(n, p, names, clock);
  }

  lemma NoNames(n: Node, p: Path, names: seq<string>, clock: TarClock)
    requires OverlayTree(n) && !n.IsDir() && forall k :: k in names <==> k in n.children
    ensures names == [] && PackNames(n, p, names, clock) == []
  {
    HasMember(names);
  }

  lemma HasMember(names: seq<string>)
    ensures names != [] ==> exists k :: k in names
  {
    if names != [] {
      assert names[0] in names;
    }
  }

  lemma UnpackNothing(dest: Path, t: Node, dirs: seq<Header>)
    ensures UnpackAll(dest, t, dirs, []) == (t, dirs, None)
  {
  }

  lemma {:induction false} UnpackNames(dest: Path, t: Node, dirs: seq<Header>, n: Node, p: Path, own: Meta,
                                       names: seq<string>, clock: TarClock) returns (ds: seq<Header>)
    requires Place(t, p) && OverlayTree(n) && own.stat.ftype == Directory && Increasing(names)
    requires forall k :: k in names ==> k in n.children
    requires AllTimed(Partly(t, p, own, n, [], clock), dirs)
    ensures UnpackAll(dest, Partly(t, p, own, n, [], clock), dirs, PackNames(n, p, names, clock))
         == (Partly(t, p, own, n, names, clock), ds, None)
    ensures AllTimed(Partly(t, p, own, n, names, clock), ds)
    decreases n, 0, |names|
  {
    hide UnpackAll, FreeAt, Timed, RestoredMeta, AllTimed, PackNode, Restored, Partly;
    if names == [] {
      ds := dirs;
      UnpackNothing(dest, Partly(t, p, own, n, [], clock), dirs);
    } else {
      var l := |names| - 1;
      var k := names[l];
      var fewer := names[..l];
      var before := UnpackNames(dest, t, dirs, n, p, own, fewer, clock);
      LastIsNew(names);
      PartlyFree(t, p, own, n, fewer, clock, k);
      ChildIsOverlay(n, k);
      ds := UnpackNode(dest, Partly(t, p, own, n, fewer, clock), before, n.children[k], p + [k], clock);
      PartlyNext(t, p, own, n, names, clock);
      UnpackConcat(dest, Partly(t, p, own, n, [], clock), dirs, PackNames(n, p, fewer, clock),
                   PackNode(n.children[k], p + [k], clock));
    }
  }

  lemma LastIsNew(names: seq<string>)
    requires names != [] && Increasing(names)
    ensures names[|names| - 1] !in names[..|names| - 1] && Increasing(names[..|names| - 1])
  {
    var k := names[|names| - 1];
    LessIrreflexive(k);
    forall i | 0 <= i < |names| - 1 ensures names[i] != k {
      assert Less(names[i], k);
    }
  }

  lemma ChildIsOverlay(n: Node, k: string)
    requires OverlayTree(n) && k in n.children
    ensures OverlayTree(n.children[k])
  {
  }

  lemma SomeNext(n: Node, p: Path, names: seq<string>, clock: TarClock)
    requires names != [] && names[|names| - 1] in n.children
    ensures var k := names[|names| - 1];
            SomeChildren(n, p, names, clock)
            == SomeChildren(n, p, names[..|names| - 1], clock)[k := Restored(n.children[k], p + [k], clock)]
  {
    hide Restored, SomeChildren;
    var fewer, k := names[..|names| - 1], names[|names| - 1];
    var some, more := SomeChildren(n, p, fewer, clock), SomeChildren(n, p, names, clock);
    SomeChildrenAre(n, p, fewer, clock);
    SomeChildrenAre(n, p, names, clock);
    assert names == fewer + [k];
    assert more.Keys == some.Keys + {k};
  }

  lemma PartlyNext(t: Node, p: Path, own: Meta, n: Node, names: seq<string>, clock: TarClock)
    requires Place(t, p) && names != [] && names[|names| - 1] in n.children
    ensures Put(Partly(t, p, own, n, names[..|names| - 1], clock), p + [names[|names| - 1]],
                Restored(n.children[names[|names| - 1]], p + [names[|names| - 1]], clock))
         == Partly(t, p, own, n, names, clock)
  {
    hide Restored, SomeChildren, Put, MetaAt, FreeAt;
    PlaceParent(t, p);
    var k := names[|names| - 1];
    SomeNext(n, p, names, clock);
    PutChild(t, p, Node(own, SomeChildren(n, p, names[..|names| - 1], clock)), k,
             Restored(n.children[k], p + [k], clock));
  }

  // ----- the round trip

  lemma {:induction false} TimesAlreadySet(t: Node, dirs: seq<Header>)
    requires AllTimed(t, dirs)
    ensures SetDirTimes(t, dirs) == (t, None)
    decreases |dirs|
  {
    if dirs != [] {
      var h := dirs[0];
      assert Timed(t, h);
      LstatBelowDirs(t, h.name);
      SetSameMeta(t, h.name);
      var m := MetaAt(t, h.name).value;
      assert m.(stat := m.stat.(mtim := ClampTime(h.mtim))) == m;
      TimesAlreadySet(t, dirs[1..]);
    }
  }

  /** Unpacking a packed overlay directory into an empty one restores everything below the root. */
  lemma OverlayRoundTrip(dest: Path, empty: Node, t: Node, clock: TarClock)
    requires OverlayTree(t) && t.IsDir() && empty.IsDir() && empty.children == map[]
    ensures Unpack(dest, empty, Pack(t, clock))
         == (Node(empty.meta, RestoredChildren(t, [], clock)), None)
  {
    hide UnpackAll, Restored, SetDirTimes, RestoredChildren, Timed, OverlayTree, SomeChildren, PackNames;
    var names := Listing(t.children.Keys);
    NoneYet(empty, [], empty.meta, t, clock);
    assert Node(empty.meta, map[]) == empty;
    var ds := UnpackNames(dest, empty, [], t, [], empty.meta, names, clock);
    AllOfThem(empty, [], empty.meta, t, names, clock);
    TimesAlreadySet(Partly(empty, [], empty.meta, t, names, clock), ds);
  }

  /** Path by path: the same paths, types, owners, contents and, below the root, opaque flags. */
  lemma OverlayRestores(dest: Path, empty: Node, t: Node, clock: TarClock, q: Path)
    requires OverlayTree(t) && t.IsDir() && empty.IsDir() && empty.children == map[]
    ensures var u := Unpack(dest, empty, Pack(t, clock)).0;
            && (Exists(u, q) <==> Exists(t, q))
            && (q != [] && Exists(t, q) ==>
                  var was, now := MetaAt(t, q).value, MetaAt(u, q).value;
                  && now.stat.ftype == was.stat.ftype && now.stat.uid == was.stat.uid && now.stat.gid == was.stat.gid
                  && now.data == was.data && now.stat.rdev == 0
                  && now.overlayOpaque == was.overlayOpaque
                  && (was.stat.ftype != Char ==>
                        now.stat.perm == was.stat.perm && now.capability == was.capability))
            && (q == [] ==> MetaAt(u, q) == Some(empty.meta))
  {
    hide Unpack, Pack, OverlayTree, Restored;
    OverlayRoundTrip(dest, empty, t, clock);
    if q != [] && q[0] in t.children {
      ChildIsOverlay(t, q[0]);
      assert [] + [q[0]] == [q[0]];
      RestoredAt(t.children[q[0]], [q[0]], clock, q[1..]);
    }
  }

  lemma {:induction false} RestoredAt(t: Node, p: Path, clock: TarClock, q: Path)
    requires OverlayTree(t)
    ensures MetaAt(Restored(t, p, clock), q) ==
              if Exists(t, q) then Some(RestoredMeta(MetaAt(t, q).value, p + q, clock)) else None
    ensures Exists(t, q) ==> OverlayMeta(MetaAt(t, q).value)
    decreases q
  {
    hide RestoredMeta;
    if q == [] {
      assert p + q == p;
    } else if q[0] in t.children {
      RestoredAt(t.children[q[0]], p + [q[0]], clock, q[1..]);
      assert p + [q[0]] + q[1..] == p + q;
    }
  }

  /** The whole way: pack with the converter, and unpack with it in place into an empty directory. */
  method PackAndUnpack(t: Node, disk: OverlayDisk, dest: Path, clock: TarClock) returns (err: Option<LayerError>)
    requires OverlayTree(t) && t.IsDir() && disk.root.IsDir() && disk.root.children == map[]
    modifies disk
    ensures err == None && disk.root == Node(old(disk.root.meta), RestoredChildren(t, [], clock))
  {
    hide *;
    var ta := new TarAppender();
    ta.AddContents(t, [], clock);
    PackIs(t, clock, ta.entries);
    WithoutOptions(dest, disk.root, [], ta.entries);
    OverlayRoundTrip(dest, disk.root, t, clock);
    UnpackIs(dest, disk.root, ta.entries);
    err := disk.UnpackArchive(NO_OPTIONS, dest, ta.entries);
  }

  lemma PackIs(t: Node, clock: TarClock, entries: seq<Header>)
    requires entries == [] + PackNames(t, [], Listing(t.children.Keys), clock)
    ensures entries == Pack(t, clock)
  {
    hide PackNames;
  }

  lemma UnpackIs(dest: Path, root: Node, layer: seq<Header>)
    ensures Unpack(dest, root, layer)
         == (var (t, dirs, e) := UnpackAll(dest, root, [], layer);
             if e.Some? then (t, e) else SetDirTimes(t, dirs))
  {
    hide UnpackAll, SetDirTimes;
  }
}
