/**
  Replaying a layer on a directory tree: UnpackLayer's one loop over the tar entries,
  with whiteouts, opaque directories, replacement and merging.
 */
module LayerUnpack {
  import opened Wrappers
  import opened Text
  import opened FsTree
  import opened LayerExport

  datatype LayerError =
    | NotADirectory
    | AlreadyExists
    | NotFound
    | Breakout
    | WouldOverwrite
    | OutsideModel  // the real call would follow a symlink or leave the tree

  /** Clock range of system.Chtimes on a 64-bit timespec; a time outside it becomes the epoch. */
  const MAX_SECONDS := 9_223_372_036
  const MAX_NANOSECONDS := 854_775_807

  function ClampTime(t: Timespec): Timespec {
    if t.sec < 0 || t.sec > MAX_SECONDS || (t.sec == MAX_SECONDS && t.nsec > MAX_NANOSECONDS)
    then Timespec(0, 0)
    else t
  }

  type Moment = t: Timespec | 0 <= t.sec && 0 <= t.nsec < 1_000_000_000 witness Timespec(0, 0)

  /** When the kernel makes files whose times nothing sets afterwards: any time since the epoch. */
  const CREATED_AT: Moment

  const TWO_TO_63 := 0x8000_0000_0000_0000
  const TWO_TO_64 := 0x1_0000_0000_0000_0000

  /** time.Time's zero value, midnight of January 1 of the year 1. */
  const ZERO_TIME := Timespec(-62_135_596_800, 0)

  function Nanoseconds(t: Timespec): int {
    t.sec * 1_000_000_000 + t.nsec
  }

  predicate FitsInt64(t: Timespec) {
    -TWO_TO_63 <= Nanoseconds(t) < TWO_TO_63
  }

  /** What timeToTimespec and utimensat(2) make of a symlink's time: the zero time leaves it alone, any
      other goes through 64 bits of nanoseconds, which wrap around. */
  function LinkTime(t: Timespec): Timespec {
    if t == ZERO_TIME then CREATED_AT
    else
      var n := (Nanoseconds(t) + TWO_TO_63) % TWO_TO_64 - TWO_TO_63;
      Timespec(n / 1_000_000_000, n % 1_000_000_000)
  }

  function FileTypeOf(etype: EntryType): FileType {
    match etype
    case DirEntry => Directory
    case RegEntry => Regular
    case SymlinkEntry => Symlink
    case CharEntry => Char
  }

  /** The attributes of a file that createTarFile makes from scratch. */
  function NewMeta(h: Header): Meta {
    var data := if h.etype.RegEntry? || h.etype.SymlinkEntry? then h.data else "";
    Meta(Stat(FileTypeOf(h.etype),
              if h.etype.SymlinkEntry? then 511 else h.perm,
              h.uid, h.gid,
              if h.etype.CharEntry? then h.rdev else 0,
              |data|,
              if h.etype.SymlinkEntry? then LinkTime(h.mtim) else ClampTime(h.mtim)),
         h.capability, data, false)
  }

  /** A directory entry over an existing directory: nothing removes an attribute the entry does not have. */
  function MergedMeta(was: Meta, h: Header): Meta {
    was.(stat := was.stat.(perm := h.perm, uid := h.uid, gid := h.gid, mtim := ClampTime(h.mtim)),
         capability := if h.capability == "" then was.capability else h.capability)
  }

  /** createTarFile's refusal of a symlink whose cleaned target is not under the extraction directory. */
  predicate LinkEscapes(dest: Path, name: Path, target: string)
    requires name != []
  {
    !HasPrefix(PathString(CleanOnto(dest + Parent(name), SplitSlash(target))), PathString(dest))
  }

  const MADE_DIR := Meta(Stat(Directory, 384, 0, 0, 0, 0, CREATED_AT), "", "", false)

  /** os.MkdirAll of a path below `t`; directories that were missing get the attributes `made`. */
  function MkdirAll(t: Node, p: Path, made: Meta): Result<Node, LayerError>
    decreases |p|
  {
    if t.meta.stat.ftype == Symlink then Err(OutsideModel)
    else if !t.IsDir() then Err(NotADirectory)
    else if p == [] then Ok(t)
    else
      var child := if p[0] in t.children then t.children[p[0]] else Node(made, map[]);
      match MkdirAll(child, p[1..], made)
      case Ok(filled) => Ok(t.(children := t.children[p[0] := filled]))
      case Err(e) => Err(e)
  }

  function RemoveAll(root: Node, p: Path): Result<Node, LayerError> {
    if p == [] then Err(OutsideModel)
    else
      match Lstat(root, p)
      case Found(_) => Ok(Remove(root, p))
      case NotExist => Ok(root)
      case NotDirectory => Err(NotADirectory)
      case ThroughSymlink => Err(OutsideModel)
  }

  /** What the walk over an opaque directory keeps: entries unpacked by this layer, all the way down. */
  function KeepUnpacked(t: Node, at: Path, unpacked: set<Path>): Node {
    Node(t.meta, map k | k in t.children && at + [k] in unpacked :: KeepUnpacked(t.children[k], at + [k], unpacked))
  }

  /** createTarFile. */
  function Install(dest: Path, root: Node, h: Header): Result<Node, LayerError> {
    if h.etype.SymlinkEntry? && (h.name == [] || LinkEscapes(dest, h.name, h.data)) then Err(Breakout)
    else
      match Lstat(root, h.name)
      case Found(node) =>
        if h.etype.DirEntry? && node.IsDir() then Ok(SetMeta(root, h.name, MergedMeta(node.meta, h)))
        else Err(AlreadyExists)
      case NotExist => Ok(Put(root, h.name, Node(NewMeta(h), map[])))
      case NotDirectory => Err(NotADirectory)
      case ThroughSymlink => Err(OutsideModel)
  }

  /** The loop's variables. */
  datatype State = State(root: Node, unpacked: set<Path>, dirs: seq<Header>, size: int)

  predicate IsWhiteout(name: Path) {
    name != [] && HasPrefix(Base(name), WHITEOUT_PREFIX)
  }

  function ApplyWhiteout(s: State, name: Path): (r: (State, Option<LayerError>))
    requires IsWhiteout(name)
    ensures r.0 == s.(root := r.0.root)
  {
    var dir, base := Parent(name), Base(name);
    if base == WHITEOUT_OPAQUE_DIR then
      match Lstat(s.root, dir)
      case Found(node) =>
        if node.IsDir() then (s.(root := Put(s.root, dir, KeepUnpacked(node, dir, s.unpacked))), None)
        else (s, None)
      case NotExist => (s, Some(NotFound))
      case NotDirectory => (s, Some(NotADirectory))
      case ThroughSymlink => (s, Some(OutsideModel))
    else if !ValidName(base[4..]) then (s, Some(OutsideModel))
    else
      match RemoveAll(s.root, dir + [base[4..]])
      case Ok(root) => (s.(root := root), None)
      case Err(e) => (s, Some(e))
  }

  function ApplyEntry(dest: Path, s: State, h: Header): (State, Option<LayerError>) {
    var there := Lstat(s.root, h.name);
    var cleared :=
      if there.Found? && !(there.node.IsDir() && h.etype.DirEntry?) then RemoveAll(s.root, h.name) else Ok(s.root);
    match cleared
    case Err(e) => (s, Some(e))
    case Ok(root) =>
      match Install(dest, root, h)
      case Err(e) => (s.(root := root), Some(e))
      case Ok(made) =>
        (State(made, s.unpacked + {h.name}, if h.etype.DirEntry? then s.dirs + [h] else s.dirs, s.size), None)
  }

  /** Entries of AUFS bookkeeping directories at the top level are passed over. */
  predicate IsAufsMetadata(name: Path) {
    name != [] && HasPrefix(name[0], WHITEOUT_META_PREFIX) && name != [WHITEOUT_OPAQUE_DIR]
  }

  /** A parent directory the archive does not mention is made on the way. */
  function EnsureParent(root: Node, name: Path, made: Meta): Result<Node, LayerError> {
    if name != [] && Lstat(root, Parent(name)).NotExist? then MkdirAll(root, Parent(name), made) else Ok(root)
  }

  /** What is refused of a cleaned name with a "..": the prefix test sees the ones that go on from there; the
      real call would work on the destination's own parent for a name that is just "..". */
  function OutsideError(name: Path): LayerError {
    if name == [".."] then OutsideModel else Breakout
  }

  /** One turn of the loop. */
  function Step(dest: Path, s: State, h: Header): (State, Option<LayerError>) {
    if ".." in h.name then (s, Some(OutsideError(h.name)))
    else
      match EnsureParent(s.root, h.name, MADE_DIR)
      case Err(e) => (s.(size := s.size + h.size), Some(e))
      case Ok(root) =>
        var t := s.(root := root, size := s.size + h.size);
        if IsAufsMetadata(h.name) then (t, None)
        else if IsWhiteout(h.name) then ApplyWhiteout(t, h.name)
        else ApplyEntry(dest, t, h)
  }

  function Replay(dest: Path, s: State, layer: seq<Header>): (State, Option<LayerError>)
    decreases |layer|
  {
    if layer == [] then (s, None)
    else
      var (t, e) := Step(dest, s, layer[0]);
      if e.Some? then (t, e) else Replay(dest, t, layer[1..])
  }

  /** The loop over directory headers after the archive's end. */
  function SetDirTimes(root: Node, dirs: seq<Header>): (Node, Option<LayerError>)
    decreases |dirs|
  {
    if dirs == [] then (root, None)
    else
      match Lstat(root, dirs[0].name)
      case Found(node) =>
        if node.meta.stat.ftype == Symlink then (root, Some(OutsideModel))
        else
          var m := node.meta.(stat := node.meta.stat.(mtim := ClampTime(dirs[0].mtim)));
          SetDirTimes(SetMeta(root, dirs[0].name, m), dirs[1..])
      case NotExist => (root, Some(NotFound))
      case NotDirectory => (root, Some(NotADirectory))
      case ThroughSymlink => (root, Some(OutsideModel))
  }

  /** The tree, the result and the error of unpacking a whole layer on `root`. */
  function Unpacked(dest: Path, root: Node, layer: seq<Header>): (Node, int, Option<LayerError>) {
    var (s, e) := Replay(dest, State(root, {}, [], 0), layer);
    if e.Some? then (s.root, 0, e)
    else
      var (t, e2) := SetDirTimes(s.root, s.dirs);
      if e2.Some? then (t, 0, e2) else (t, s.size, None)
  }

  /** The destination directory, updated in place. */
  class Disk {
    var root: Node

    constructor (root: Node)
      ensures this.root == root
    {
      this.root := root;
    }

    method UnpackLayer(dest: Path, layer: seq<Header>) returns (size: int, err: Option<LayerError>)
      modifies this
      ensures (root, size, err) == Unpacked(dest, old(root), layer)
    {
      hide Lstat, MkdirAll, RemoveAll, Install, EnsureParent, ApplyWhiteout, IsAufsMetadata, IsWhiteout, SetMeta;
      size := 0;
      var unpackedPaths: set<Path> := {};
      var dirs: seq<Header> := [];
      var next := 0;
      ghost var begin := State(root, {}, [], 0);
      while next < |layer|
        invariant 0 <= next <= |layer|
        invariant Replay(dest, begin, layer)
               == Replay(dest, State(root, unpackedPaths, dirs, size), layer[next..])
      {
        var hdr := layer[next];
        assert layer[next..][0] == hdr && layer[next..][1..] == layer[next + 1..];
        ghost var was := State(root, unpackedPaths, dirs, size);
        if ".." in hdr.name {
          return 0, Some(OutsideError(hdr.name));
        }
        size := size + hdr.size;
        var parent := EnsureParent(root, hdr.name, MADE_DIR);
        if parent.Err? {
          return 0, Some(parent.error);
        }
        root := parent.value;
        if IsAufsMetadata(hdr.name) {
          next := next + 1;
          continue;
        }
        if IsWhiteout(hdr.name) {
          var (s, e) := ApplyWhiteout(State(root, unpackedPaths, dirs, size), hdr.name);
          root := s.root;
          if e.Some? {
            return 0, e;
          }
        } else {
          var there := Lstat(root, hdr.name);
          if there.Found? && !(there.node.IsDir() && hdr.etype.DirEntry?) {
            var cleared := RemoveAll(root, hdr.name);
            if cleared.Err? {
              return 0, Some(cleared.error);
            }
            root := cleared.value;
          }
          var made := Install(dest, root, hdr);
          if made.Err? {
            return 0, Some(made.error);
          }
          root := made.value;
          if hdr.etype.DirEntry? {
            dirs := dirs + [hdr];
          }
          unpackedPaths := unpackedPaths + {hdr.name};
        }
        assert Step(dest, was, hdr) == (State(root, unpackedPaths, dirs, size), None);
        next := next + 1;
      }
      ghost var unpackedRoot := root;
      next := 0;
      while next < |dirs|
        invariant 0 <= next <= |dirs|
        invariant SetDirTimes(unpackedRoot, dirs) == SetDirTimes(root, dirs[next..])
      {
        var hdr := dirs[next];
        assert dirs[next..][0] == hdr && dirs[next..][1..] == dirs[next + 1..];
        match Lstat(root, hdr.name) {
          case Found(node) =>
            if node.meta.stat.ftype == Symlink {
              return 0, Some(OutsideModel);
            }
            root := SetMeta(root, hdr.name, node.meta.(stat := node.meta.stat.(mtim := ClampTime(hdr.mtim))));
          case NotExist =>
            return 0, Some(NotFound);
          case NotDirectory =>
            return 0, Some(NotADirectory);
          case ThroughSymlink =>
            return 0, Some(OutsideModel);
        }
        next := next + 1;
      }
      return size, None;
    }
  }
}
