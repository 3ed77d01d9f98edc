/** Concrete layers for which the round trip fails, one for each condition of LayerRoundTrip. */
module LayerExamples {
  import opened Wrappers
  import opened Text
  import opened FsTree
  import opened Changes
  import opened Collect
  import opened LayerExport
  import opened LayerUnpack
  import opened LayerRoundTrip

  const ROOT := Meta(Stat(Directory, 493, 0, 0, 0, 0, Timespec(0, 0)), "", "", false)

  function Holding(m: Meta): Node {
    Node(ROOT, map["x" := Node(m, map[])])
  }

  lemma OrdinaryX()
    ensures OrdinaryName("x")
  {
  }

  lemma HoldingWf(m: Meta)
    requires WfMeta(m)
    ensures Wf(Holding(m)) && Exists(Holding(m), ["x"]) && MetaAt(Holding(m), ["x"]) == Some(m)
  {
    OrdinaryX();
    assert Wf(Node(m, map[]));
    assert ["x"][1..] == [];
  }

  lemma LeafHasNoEntries(leaf: FileInfo, was: Option<FileInfo>, dir: bool, q: Path)
    requires q != [] && leaf.children == map[] && (was.Some? ==> was.value.children == map[])
    ensures KindAt(leaf, was, dir, q) == None
  {
  }

  /** The list for one name that was added or, when it was there before, modified. */
  lemma OneEntry(old_: Node, m: Meta, kind: ChangeKind)
    requires Wf(old_) && old_.IsDir() && WfMeta(m)
    requires (kind == Add && old_.children == map[])
             || (kind == Modify && old_.children.Keys == {"x"} && old_.children["x"].children == map[]
                 && MetaDiffers(old_.children["x"].meta, m))
    ensures TwoTrees(old_, Holding(m))
    ensures Covers([Change(["x"], kind)], FullInfo(Holding(m)), Some(FullInfo(old_)), true, [], {})
  {
    hide Wf, ParentsFirst, StatDifferent;
    HoldingWf(m);
    var n, o := FullInfo(Holding(m)), FullInfo(old_);
    var d := [Change(["x"], kind)];
    LeafInfo(Node(m, map[]));
    if kind == Modify {
      LeafInfo(old_.children["x"]);
    }
    assert OnlyEntries(d, n, Some(o), true, [], {}) by {
      assert d[0].path == ["x"] && d[0].path[0..] == ["x"];
    }
    forall q | q != [] && KindAt(n, Some(o), true, q).Some? ensures Lists(d, [] + q) {
      OnlyX(n, o, q);
      assert d[0].path == [] + q;
    }
    OneParentsFirst(d[0]);
  }

  lemma LeafInfo(t: Node)
    requires t.children == map[]
    ensures FullInfo(t).children == map[]
  {
  }

  lemma OneParentsFirst(c: Change)
    requires |c.path| == 1
    ensures ParentsFirst([c], [])
  {
  }

  lemma OnlyX(n: FileInfo, o: FileInfo, q: Path)
    requires q != []
    requires n.children.Keys == {"x"} && n.children["x"].children == map[]
    requires o.children == map[] || (o.children.Keys == {"x"} && o.children["x"].children == map[])
    ensures KindAt(n, Some(o), true, q).Some? ==> q == ["x"]
  {
    if |q| > 1 && q[0] == "x" {
      LeafHasNoEntries(n.children["x"], OldChild(Some(o), true, "x"), n.children["x"].stat.ftype.DirBit(), q[1..]);
    }
  }

  /** A link with more ".." than it has directories above it is refused, and with it the layer. */
  lemma RefusedLinkExample(clock: TarClock, now: Timespec)
    ensures var m := Meta(Stat(Symlink, 511, 0, 0, 0, 4, Timespec(0, 0)), "", "../y", false);
            && TwoTrees(Node(ROOT, map[]), Holding(m))
            && Rebuilt(Node(ROOT, map[]), Holding(m), [Change(["x"], Add)], clock, now, ["d"]).2 == Some(Breakout)
  {
    hide Covers, TwoTrees, Rebuilt, LinkEscapes, Wf;
    var m := Meta(Stat(Symlink, 511, 0, 0, 0, 4, Timespec(0, 0)), "", "../y", false);
    var old_ := Node(ROOT, map[]);
    var changes := [Change(["x"], Add)];
    RefusedTarget();
    HoldingWf(m);
    assert RefusedLink(Holding(m), ["d"], changes[0]);
    EmptyRootWf();
    OneEntry(old_, m, Add) by { assert WfMeta(m); }
    AppliesIffNoRefusedLink(old_, Holding(m), changes, clock, now, ["d"]) by { hide *; }
  }

  lemma EmptyRootWf()
    ensures Wf(Node(ROOT, map[]))
  {
  }

  lemma RefusedTarget()
    ensures LinkEscapes(["d"], ["x"], "../y")
  {
    SplitSlashFirst("..", "y");
    SplitSlashFirst("y", "");
    assert "../y" == ".." + "/" + "y";
    assert ["d"] + Parent(["x"]) == ["d"];
    assert CleanOnto(["d"], ["..", "y"]) == ["y"];
    assert PathString(["y"]) == "/y" && PathString(["d"]) == "/d";
  }

  /** A file modified in the later half of a second comes back a second younger from a rounding writer. */
  lemma LostSecondExample(now: Timespec, dest: Path)
    ensures var m := Meta(Stat(Regular, 420, 0, 0, 0, 0, Timespec(7, 600_000_000)), "", "", false);
            var t := Rebuilt(Node(ROOT, map[]), Holding(m), [Change(["x"], Add)], Rounded, now, dest).0;
            Exists(t, ["x"]) && StatDifferent(MetaAt(t, ["x"]).value.stat, m.stat)
  {
    var m := Meta(Stat(Regular, 420, 0, 0, 0, 0, Timespec(7, 600_000_000)), "", "", false);
    var old_ := Node(ROOT, map[]);
    assert Wf(old_);
    OneEntry(old_, m, Add);
    HoldingWf(m);
    AppliesIffNoRefusedLink(old_, Holding(m), [Change(["x"], Add)], Rounded, now, dest);
    SameStatIff(old_, Holding(m), [Change(["x"], Add)], Rounded, now, dest, ["x"]);
    assert [Change(["x"], Add)][0].path == ["x"];
  }

  /** A symlink last modified in the year 2286 comes back as one of the year 1702. */
  lemma WrappedLinkTimeExample(clock: TarClock, now: Timespec)
    ensures var m := Meta(Stat(Symlink, 511, 0, 0, 0, 1, Timespec(10_000_000_000, 0)), "", "y", false);
            var t := Rebuilt(Node(ROOT, map[]), Holding(m), [Change(["x"], Add)], clock, now, ["d"]).0;
            && Exists(t, ["x"]) && StatDifferent(MetaAt(t, ["x"]).value.stat, m.stat)
            && LinkTime(m.stat.mtim) == Timespec(-8_446_744_074, 290_448_384)
  {
    hide Covers, TwoTrees, Rebuilt, LinkEscapes, Wf, SplitSlash;
    var m := Meta(Stat(Symlink, 511, 0, 0, 0, 1, Timespec(10_000_000_000, 0)), "", "y", false);
    var changes := [Change(["x"], Add)];
    EmptyRootWf();
    HoldingWf(m);
    OneEntry(Node(ROOT, map[]), m, Add) by { assert WfMeta(m); }
    SplitSlashFirst("y", "");
    DownwardLinkNotRefused(["d"], ["x"], "y");
    assert !RefusedLink(Holding(m), ["d"], changes[0]);
    AppliesIffNoRefusedLink(Node(ROOT, map[]), Holding(m), changes, clock, now, ["d"]) by { hide *; }
    SameStatIff(Node(ROOT, map[]), Holding(m), changes, clock, now, ["d"], ["x"]);
    assert changes[0].path == ["x"];
  }

  /** A directory whose capability attribute was dropped keeps it after unpacking. */
  lemma KeptCapabilityExample(clock: TarClock, now: Timespec, dest: Path)
    ensures var m := ROOT;
            var was := ROOT.(capability := "c");
            var t := Rebuilt(Holding(was), Holding(m), [Change(["x"], Modify)], clock, now, dest).0;
            Exists(t, ["x"]) && MetaAt(t, ["x"]).value.capability != MetaAt(Holding(m), ["x"]).value.capability
  {
    var m := ROOT;
    var was := ROOT.(capability := "c");
    HoldingWf(was);
    OneEntry(Holding(was), m, Modify);
    HoldingWf(m);
    AppliesIffNoRefusedLink(Holding(was), Holding(m), [Change(["x"], Modify)], clock, now, dest);
    SameCapabilityIff(Holding(was), Holding(m), [Change(["x"], Modify)], clock, now, dest, ["x"]);
  }
}
