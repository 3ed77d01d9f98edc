/**
  Single turns of UnpackLayer's loop below existing directories, where none of them can fail, and what
  making the directories on the way does.
 */
module LayerSteps {
  import opened Wrappers
  import opened Text
  import opened FsTree
  import opened LayerExport
  import opened LayerUnpack

  lemma ParentFound(t: Node, name: Path, made: Meta)
    requires name != [] && DirsAbove(t, name)
    ensures EnsureParent(t, name, made) == Ok(t)
  {
    LstatBelowDirs(t, Parent(name));
    assert DirAt(t, Parent(name));
  }

  lemma SameParentDirs(t: Node, p: Path, q: Path)
    requires p != [] && q != [] && Parent(p) == Parent(q) && DirsAbove(t, p)
    ensures DirsAbove(t, q)
  {
    forall r | r < q ensures DirAt(t, r) {
      assert r <= Parent(q);
    }
  }

  lemma WhiteoutName(base: string)
    requires OrdinaryName(base)
    ensures var w := WHITEOUT_PREFIX + base;
            && HasPrefix(w, WHITEOUT_PREFIX) && w[4..] == base && w != ".." && w != WHITEOUT_OPAQUE_DIR
            && !HasPrefix(w, WHITEOUT_META_PREFIX)
  {
    var w := WHITEOUT_PREFIX + base;
    assert w[4..] == base;
    assert WHITEOUT_OPAQUE_DIR[4..] == ".wh..opq" && WHITEOUT_PREFIX <= ".wh..opq";
    assert WHITEOUT_META_PREFIX == WHITEOUT_PREFIX + WHITEOUT_PREFIX;
    assert forall i :: 0 <= i < |base| ==> w[i + 4] == base[i];
  }

  lemma WhiteoutHeaderName(p: Path)
    requires p != [] && forall i :: 0 <= i < |p| ==> OrdinaryName(p[i])
    ensures var name := Parent(p) + [WHITEOUT_PREFIX + Base(p)];
            && Parent(name) == Parent(p) && Base(name)[4..] == Base(p) && Base(name) != WHITEOUT_OPAQUE_DIR
            && ".." !in name && !IsAufsMetadata(name) && IsWhiteout(name)
            && Parent(p) + [Base(p)] == p && ValidName(Base(p))
  {
    var name := Parent(p) + [WHITEOUT_PREFIX + Base(p)];
    assert OrdinaryName(Base(p));
    WhiteoutName(Base(p));
    assert Parent(name) == Parent(p) && Base(name) == WHITEOUT_PREFIX + Base(p);
    assert |p| > 1 ==> name[0] == p[0];
    assert WHITEOUT_META_PREFIX == WHITEOUT_PREFIX + WHITEOUT_PREFIX;
  }

  /** A whiteout below existing directories removes what it names, and cannot fail. */
  lemma WhiteoutStep(dest: Path, s: State, p: Path, now: Timespec)
    requires p != [] && forall i :: 0 <= i < |p| ==> OrdinaryName(p[i])
    requires DirsAbove(s.root, p)
    ensures Step(dest, s, Whiteout(p, now)) == (s.(root := Remove(s.root, p)), None)
  {
    hide Lstat, MetaAt, MkdirAll, ApplyEntry, EnsureParent, DirAt, IsAufsMetadata, IsWhiteout, RemoveAll,
         OrdinaryName, ValidName, Parent, Base, Remove;
    var name := Whiteout(p, now).name;
    WhiteoutHeaderName(p);
    SameParentDirs(s.root, p, name);
    ParentFound(s.root, name, MADE_DIR);
    RemoveAllBelowDirs(s.root, p);
  }

  lemma {:induction false} RemoveMissing(t: Node, p: Path)
    requires p != [] && !Exists(t, p)
    ensures Remove(t, p) == t
  {
    if p[0] in t.children {
      if |p| > 1 {
        RemoveMissing(t.children[p[0]], p[1..]);
      }
      assert p[1..] == [] ==> Exists(t, p);
      assert t.children[p[0] := t.children[p[0]]] == t.children;
    }
  }

  lemma RemoveAllBelowDirs(t: Node, p: Path)
    requires p != [] && DirsAbove(t, p)
    ensures RemoveAll(t, p) == Ok(Remove(t, p))
  {
    LstatBelowDirs(t, p);
    if !Exists(t, p) {
      RemoveMissing(t, p);
    }
  }

  /** An entry that is neither a whiteout nor AUFS bookkeeping goes straight to createTarFile. */
  lemma EntryStep(dest: Path, s: State, h: Header)
    requires h.name != [] && forall i :: 0 <= i < |h.name| ==> OrdinaryName(h.name[i])
    requires DirsAbove(s.root, h.name)
    ensures Step(dest, s, h) == ApplyEntry(dest, s.(size := s.size + h.size), h)
  {
    hide Lstat, MetaAt, ApplyEntry, DirAt, EnsureParent;
    ParentFound(s.root, h.name, MADE_DIR);
    assert OrdinaryName(Base(h.name)) && OrdinaryName(h.name[0]);
    assert WHITEOUT_META_PREFIX == WHITEOUT_PREFIX + WHITEOUT_PREFIX;
  }

  /** The tree after a regular file, a symlink or a directory entry has been put in place. */
  ghost function Placed(t: Node, h: Header): Node
    requires h.name != []
  {
    if h.etype.DirEntry? && DirAt(t, h.name) then SetMeta(t, h.name, MergedMeta(MetaAt(t, h.name).value, h))
    else Put(Remove(t, h.name), h.name, Node(NewMeta(h), map[]))
  }

  lemma ApplyEntryPlaces(dest: Path, s: State, h: Header)
    requires h.name != [] && DirsAbove(s.root, h.name)
    requires h.etype.SymlinkEntry? ==> !LinkEscapes(dest, h.name, h.data)
    ensures ApplyEntry(dest, s, h)
         == (State(Placed(s.root, h), s.unpacked + {h.name},
                   if h.etype.DirEntry? then s.dirs + [h] else s.dirs, s.size), None)
  {
    hide LinkEscapes, MergedMeta, NewMeta;
    LstatBelowDirs(s.root, h.name);
    if !(h.etype.DirEntry? && DirAt(s.root, h.name)) {
      RemoveAllBelowDirs(s.root, h.name);
      if !Exists(s.root, h.name) {
        RemoveMissing(s.root, h.name);
      }
      StillMissing(s.root, h.name);
    }
  }

  lemma StillMissing(t: Node, p: Path)
    requires p != [] && DirsAbove(t, p)
    ensures Lstat(Remove(t, p), p) == NotExist && DirsAbove(Remove(t, p), p)
  {
    forall r | r < p ensures DirAt(Remove(t, p), r) {
      assert DirAt(t, r);
      RemoveAt(t, p, r);
    }
    RemoveAt(t, p, p);
    LstatBelowDirs(Remove(t, p), p);
  }

  lemma PlacedAt(t: Node, h: Header, q: Path)
    requires h.name != [] && DirsAbove(t, h.name)
    ensures var merged := h.etype.DirEntry? && DirAt(t, h.name);
            MetaAt(Placed(t, h), q) ==
              if q == h.name then Some(if merged then MergedMeta(MetaAt(t, h.name).value, h) else NewMeta(h))
              else if h.name < q && !merged then None
              else MetaAt(t, q)
  {
    hide MergedMeta, NewMeta;
    var p := h.name;
    if h.etype.DirEntry? && DirAt(t, p) {
      SetMetaAt(t, p, MergedMeta(MetaAt(t, p).value, h), q);
    } else {
      StillMissing(t, p);
      assert DirAt(Remove(t, p), Parent(p));
      PutAt(Remove(t, p), p, Node(NewMeta(h), map[]), q);
      RemoveAt(t, p, q);
      if p <= q {
        assert q[|p|..] == [] <==> q == p;
      }
    }
  }

  // ----- the directory times at the end

  ghost predicate SameExceptDirTime(a: Option<Meta>, b: Option<Meta>) {
    || a == b
    || (a.Some? && b.Some? && a.value.stat.ftype == Directory
        && b.value == a.value.(stat := a.value.stat.(mtim := b.value.stat.mtim)))
  }

  /** The last header for a directory decides its time. */
  ghost function LastTime(dirs: seq<Header>, q: Path): Option<Timespec> {
    if dirs == [] then None
    else if dirs[|dirs| - 1].name == q then Some(dirs[|dirs| - 1].mtim)
    else LastTime(dirs[..|dirs| - 1], q)
  }

  lemma {:induction false} LastTimeFirst(dirs: seq<Header>, q: Path)
    requires dirs != []
    ensures LastTime(dirs, q) ==
              if LastTime(dirs[1..], q).Some? then LastTime(dirs[1..], q)
              else if dirs[0].name == q then Some(dirs[0].mtim) else None
  {
    if |dirs| > 1 {
      LastTimeFirst(dirs[..|dirs| - 1], q);
      assert dirs[1..][..|dirs| - 2] == dirs[..|dirs| - 1][1..];
    } else {
      assert dirs[..0] == [] && dirs[1..] == [];
    }
  }

  ghost function WithTime(m: Option<Meta>, time: Option<Timespec>): Option<Meta> {
    if m.Some? && time.Some? then Some(m.value.(stat := m.value.stat.(mtim := ClampTime(time.value)))) else m
  }

  /** The final loop succeeds, sets the time of each directory from its last header, and nothing else. */
  lemma {:induction false} DirTimes(t: Node, dirs: seq<Header>) returns (u: Node)
    requires forall h :: h in dirs ==> DirAt(t, h.name) && DirsAbove(t, h.name)
    ensures SetDirTimes(t, dirs) == (u, None)
    ensures forall q :: SameExceptDirTime(MetaAt(t, q), MetaAt(u, q))
    ensures forall q :: MetaAt(u, q) == WithTime(MetaAt(t, q), LastTime(dirs, q))
    decreases |dirs|
  {
    hide WithTime, LastTime, ClampTime;
    u := t;
    if dirs == [] {
      forall q ensures MetaAt(u, q) == WithTime(MetaAt(t, q), LastTime(dirs, q)) {
        NoTimes(MetaAt(t, q), q);
      }
    } else {
      var p := dirs[0].name;
      LstatBelowDirs(t, p);
      var m := MetaAt(t, p).value;
      var touched := m.(stat := m.stat.(mtim := ClampTime(dirs[0].mtim)));
      var next := SetMeta(t, p, touched);
      forall q ensures SameExceptDirTime(MetaAt(t, q), MetaAt(next, q)) {
        SetMetaAt(t, p, touched, q);
      }
      StillDirs(t, next, dirs);
      u := DirTimes(next, dirs[1..]);
      forall q
        ensures SameExceptDirTime(MetaAt(t, q), MetaAt(u, q))
        ensures MetaAt(u, q) == WithTime(MetaAt(t, q), LastTime(dirs, q))
      {
        assert SameExceptDirTime(MetaAt(t, q), MetaAt(next, q));
        assert SameExceptDirTime(MetaAt(next, q), MetaAt(u, q));
        SetMetaAt(t, p, touched, q);
        LastTimeFirst(dirs, q);
        OneTime(MetaAt(t, q), dirs[0], q, LastTime(dirs[1..], q), LastTime(dirs, q), MetaAt(next, q));
      }
    }
  }

  lemma NoTimes(m: Option<Meta>, q: Path)
    ensures m == WithTime(m, LastTime([], q))
  {
  }

  lemma OneTime(m: Option<Meta>, h: Header, q: Path, later: Option<Timespec>, all: Option<Timespec>, next: Option<Meta>)
    requires all == if later.Some? then later else if h.name == q then Some(h.mtim) else None
    requires next == if h.name == q && m.Some? then Some(m.value.(stat := m.value.stat.(mtim := ClampTime(h.mtim))))
                     else m
    ensures WithTime(next, later) == WithTime(m, all)
  {
    hide ClampTime;
  }

  lemma StillDirs(t: Node, next: Node, dirs: seq<Header>)
    requires dirs != [] && forall q :: SameExceptDirTime(MetaAt(t, q), MetaAt(next, q))
    requires forall h :: h in dirs ==> DirAt(t, h.name) && DirsAbove(t, h.name)
    ensures forall h :: h in dirs[1..] ==> DirAt(next, h.name) && DirsAbove(next, h.name)
  {
    forall h | h in dirs[1..] ensures DirAt(next, h.name) && DirsAbove(next, h.name) {
      assert SameExceptDirTime(MetaAt(t, h.name), MetaAt(next, h.name));
      forall r | r < h.name ensures DirAt(next, r) {
        assert DirAt(t, r) && SameExceptDirTime(MetaAt(t, r), MetaAt(next, r));
      }
    }
  }

  // ----- the parents

  /** Every missing directory on the way is made, and nothing else changes. */
  lemma {:induction false} MkdirAllAt(t: Node, p: Path, made: Meta, q: Path)
    requires MkdirAll(t, p, made).Ok? && made.stat.ftype == Directory
    ensures MetaAt(MkdirAll(t, p, made).value, q) ==
              if Exists(t, q) then MetaAt(t, q) else if q <= p then Some(made) else None
    ensures q <= p ==> DirAt(MkdirAll(t, p, made).value, q)
    decreases |p|
  {
    if p != [] && q != [] {
      var child := if p[0] in t.children then t.children[p[0]] else Node(made, map[]);
      if q[0] == p[0] {
        MkdirAllAt(child, p[1..], made, q[1..]);
        assert q <= p <==> q[1..] <= p[1..];
        if p[0] !in t.children {
          assert MetaAt(child, q[1..]) == if q[1..] == [] then Some(made) else None;
        }
      }
    }
  }

  lemma {:induction false} FoundBelowDirs(t: Node, p: Path)
    requires Lstat(t, p).Found?
    ensures DirsAbove(t, p) && MetaAt(t, p) == Some(Lstat(t, p).node.meta)
  {
    if p != [] {
      FoundBelowDirs(t.children[p[0]], p[1..]);
      forall r | r < p ensures DirAt(t, r) {
        if r != [] {
          assert r[1..] < p[1..] && DirAt(t.children[p[0]], r[1..]);
        }
      }
    }
  }

  /** Once a directory's parent is there, what an entry finds at its own path is found below directories. */
  lemma ParentsThere(root: Node, name: Path, made: Meta)
    requires name != [] && made.stat.ftype == Directory && EnsureParent(root, name, made).Ok?
    ensures var parented := EnsureParent(root, name, made).value;
            && (Lstat(parented, name).Found? || Lstat(parented, name).NotExist? ==> DirsAbove(parented, name))
            && forall q :: MetaAt(parented, q) ==
                 if Exists(root, q) then MetaAt(root, q)
                 else if Lstat(root, Parent(name)).NotExist? && q < name then Some(made) else None
  {
    hide Lstat, MkdirAll;
    var parented := EnsureParent(root, name, made).value;
    if Lstat(root, Parent(name)).NotExist? {
      forall q
        ensures MetaAt(parented, q) ==
                  if Exists(root, q) then MetaAt(root, q) else if q < name then Some(made) else None
        ensures q < name ==> DirAt(parented, q)
      {
        MkdirAllAt(root, Parent(name), made, q);
        assert q < name <==> q <= Parent(name);
      }
    } else if Lstat(parented, name).Found? || Lstat(parented, name).NotExist? {
      FoundOrNot(root, name);
    }
  }

  lemma FoundOrNot(root: Node, name: Path)
    requires name != [] && !Lstat(root, Parent(name)).NotExist?
    requires Lstat(root, name).Found? || Lstat(root, name).NotExist?
    ensures DirsAbove(root, name)
  {
    assert name == Parent(name) + [Base(name)];
    ThenParentFound(root, Parent(name), Base(name));
    FoundBelowDirs(root, Parent(name));
    forall r | r < name ensures DirAt(root, r) {
      assert r == Parent(name) || r < Parent(name);
    }
  }

  lemma {:induction false} ThenParentFound(t: Node, p: Path, base: string)
    requires !Lstat(t, p).NotExist? && (Lstat(t, p + [base]).Found? || Lstat(t, p + [base]).NotExist?)
    ensures Lstat(t, p).Found? && Lstat(t, p).node.IsDir()
  {
    if p != [] {
      assert (p + [base])[1..] == p[1..] + [base];
      ThenParentFound(t.children[p[0]], p[1..], base);
    }
  }

  /** Where the parents of a path are directories, nothing was missing but what has been made. */
  lemma Above(root: Node, parented: Node, name: Path, made: Meta, q: Path)
    requires name != [] && DirsAbove(parented, name)
    requires forall r :: MetaAt(parented, r) ==
               if Exists(root, r) then MetaAt(root, r)
               else if Lstat(root, Parent(name)).NotExist? && r < name then Some(made) else None
    ensures q < name && !Exists(root, q) ==> MetaAt(parented, q) == Some(made)
    ensures !(q < name) ==> MetaAt(parented, q) == MetaAt(root, q)
    ensures Exists(root, q) ==> MetaAt(parented, q) == MetaAt(root, q)
    ensures forall r :: r < name && Exists(root, r) ==> DirAt(root, r)
  {
    hide Lstat, MetaAt;
    assert q < name ==> DirAt(parented, q);
    forall r | r < name && Exists(root, r) ensures DirAt(root, r) {
      assert DirAt(parented, r) && MetaAt(parented, r) == MetaAt(root, r);
    }
  }

  lemma ApplyNeedsPlace(dest: Path, s: State, h: Header)
    requires h.name != [] && ApplyEntry(dest, s, h).1 == None
    ensures Lstat(s.root, h.name).Found? || Lstat(s.root, h.name).NotExist?
    ensures h.etype.SymlinkEntry? ==> !LinkEscapes(dest, h.name, h.data)
  {
    hide Lstat, LinkEscapes;
  }

  lemma DirIsThere(t: Node, p: Path)
    ensures DirAt(t, p) ==> Exists(t, p)
  {
  }
}
