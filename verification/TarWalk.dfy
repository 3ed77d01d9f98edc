/** TarWithOptions: which paths of a tree go into the archive. */
module TarWalk {
  import opened Wrappers
  import opened Text
  import opened SortedNames
  import opened FsTree
  import Regexp
  import opened GlobPatterns
  import opened IgnorePatterns
  import opened PatternTexts

  /** A path that the walk adds: included by its own name, or not ignored. The root adds nothing. */
  ghost predicate Wanted(rules: seq<Rule>, named: Path, rel: Path)
    requires RulesOk(rules)
  {
    rel != [] && (rel == named || !Ignored(rules, rel))
  }

  /** Some exclusion's text begins with this directory. */
  predicate ExclusionBelow(rules: seq<Rule>, dir: Path) {
    exists r :: r in rules && r.exclusion && HasPrefix(r.pattern + "/", Slashed(dir) + "/")
  }

  /** A directory that the walk does not enter. */
  ghost predicate Pruned(rules: seq<Rule>, named: Path, rel: Path)
    requires RulesOk(rules)
  {
    rel != [] && rel != named && Ignored(rules, rel) && !ExclusionBelow(rules, rel)
  }

  /** What one walk comes upon and does not skip, in its order. */
  ghost function Selected(rules: seq<Rule>, named: Path, at: Path, node: Node): seq<Path>
    requires RulesOk(rules)
    decreases node, 1, 0
  {
    (if Wanted(rules, named, at) then [at] else [])
    + (if !node.IsDir() || Pruned(rules, named, at) then []
       else SelectedIn(rules, named, at, node, Listing(node.children.Keys)))
  }

  ghost function SelectedIn(rules: seq<Rule>, named: Path, at: Path, node: Node, names: seq<string>): seq<Path>
    requires RulesOk(rules) && forall n :: n in names ==> n in node.children
    decreases node, 0, |names|
  {
    if names == [] then []
    else Selected(rules, named, at + [names[0]], node.children[names[0]])
         + SelectedIn(rules, named, at, node, names[1..])
  }

  /** Append what is not there yet. */
  ghost function AddNew(added: seq<Path>, paths: seq<Path>): seq<Path>
    decreases |paths|
  {
    if paths == [] then added
    else AddNew(if paths[0] in added then added else added + [paths[0]], paths[1..])
  }

  lemma {:induction false} AddNewConcat(added: seq<Path>, p: seq<Path>, q: seq<Path>)
    ensures AddNew(added, p + q) == AddNew(AddNew(added, p), q)
    decreases |p|
  {
    if p == [] {
      assert p + q == q;
    } else {
      assert (p + q)[1..] == p[1..] + q;
      AddNewConcat(if p[0] in added then added else added + [p[0]], p[1..], q);
    }
  }

  /** The walks from all includes, one after the other; an named that is not there selects nothing. */
  ghost function AllSelected(rules: seq<Rule>, includes: seq<Path>, tree: Node): seq<Path>
    requires RulesOk(rules)
  {
    if includes == [] then []
    else
      var last := includes[|includes| - 1];
      AllSelected(rules, includes[..|includes| - 1], tree)
      + (if Lstat(tree, last).Found? then Selected(rules, last, last, Lstat(tree, last).node) else [])
  }

  /** What the call backs of one TarWithOptions share: the matcher, the paths seen, and the archive so far. */
  class WalkState {
    const pm: PatternMatcher
    var seen: set<Path>
    var added: seq<Path>

    constructor (pm: PatternMatcher)
      requires pm.Valid()
      ensures Valid() && this.pm == pm && added == []
    {
      this.pm, seen, added := pm, {}, [];
      new;
      pm.RulesAreOk();
    }

    ghost predicate Valid()
      reads this, pm.patterns
    {
      pm.Valid() && RulesOk(pm.Rules()) && forall p :: p in seen <==> p in added
    }

    /** The callback of filepath.Walk: may add the path, and says whether to skip the directory. */
    method Visit(named: Path, rel: Path, isDir: bool) returns (skipDir: bool)
      requires Valid() && (rel == [] ==> isDir)
      modifies this, pm.patterns
      ensures Valid()
      ensures added == AddNew(old(added), if Wanted(pm.Rules(), named, rel) then [rel] else [])
      ensures skipDir == (isDir && Pruned(pm.Rules(), named, rel))
    {
      hide Ignored, ExclusionBelow, PatternMatcher.Valid, RulesOk;
      if rel == [] && isDir {
        return false;
      }
      var skip := false;
      if named != rel {
        skip := pm.Matches(rel);
      }
      if skip {
        if !isDir {
          return false;
        }
        var keep := HasExclusionBelow(rel);
        return !keep;
      }
      if rel in seen {
        AddOne(added, rel);
        return false;
      }
      AddOne(added, rel);
      seen := seen + {rel};
      added := added + [rel];
      return false;
    }

    /** Is there an exclusion that begins with this directory? */
    method HasExclusionBelow(rel: Path) returns (found: bool)
      requires Valid()
      ensures found == ExclusionBelow(pm.Rules(), rel)
    {
      if !pm.exclusions {
        return false;
      }
      var dirSlash := Slashed(rel) + "/";
      var i := 0;
      while i < |pm.patterns|
        invariant 0 <= i <= |pm.patterns|
        invariant forall k :: 0 <= k < i ==>
                    !(pm.Rules()[k].exclusion && HasPrefix(pm.Rules()[k].pattern + "/", dirSlash))
      {
        var pat := pm.patterns[i];
        if pat.exclusion && HasPrefix(pat.cleanedPattern + "/", dirSlash) {
          assert pm.Rules()[i] in pm.Rules();
          return true;
        }
        i := i + 1;
      }
      found := false;
    }

    /** filepath.Walk from one path. */
    method Walk(named: Path, at: Path, node: Node)
      requires Valid() && (at == [] ==> node.IsDir())
      modifies this, pm.patterns
      ensures Valid() && added == AddNew(old(added), Selected(pm.Rules(), named, at, node))
      decreases node
    {
      hide Ignored, ExclusionBelow, PatternMatcher.Valid, RulesOk, Wanted, Pruned, AddNew, SelectedIn;
      ghost var rules := pm.Rules();
      ghost var here := if Wanted(rules, named, at) then [at] else [];
      var skip := Visit(named, at, node.IsDir());
      if !node.IsDir() || skip {
        assert here + [] == here;
        return;
      }
      ghost var start := added;
      var names := Listing(node.children.Keys);
      var i := 0;
      SelectedNone(rules, named, at, node, names[..0], added);
      while i < |names|
        invariant 0 <= i <= |names|
        invariant Valid()
        invariant added == AddNew(start, SelectedIn(rules, named, at, node, names[..i]))
      {
        assert names[i] in names;
        Walk(named, at + [names[i]], node.children[names[i]]);
        SelectedMore(rules, named, at, node, names, i);
        AddNewConcat(start, SelectedIn(rules, named, at, node, names[..i]),
                     Selected(rules, named, at + [names[i]], node.children[names[i]]));
        i := i + 1;
      }
      assert names[..i] == names;
      AddNewConcat(old(added), here, SelectedIn(rules, named, at, node, names));
    }
  }

  lemma SelectedNone(rules: seq<Rule>, named: Path, at: Path, node: Node, names: seq<string>, added: seq<Path>)
    requires RulesOk(rules) && names == []
    ensures AddNew(added, SelectedIn(rules, named, at, node, names)) == added
  {
  }

  lemma AddOne(added: seq<Path>, p: Path)
    ensures AddNew(added, [p]) == if p in added then added else added + [p]
  {
    assert [p][1..] == [];
  }

  lemma {:induction false} SelectedMore(rules: seq<Rule>, named: Path, at: Path, node: Node, names: seq<string>, i: nat)
    requires RulesOk(rules) && i < |names| && forall n :: n in names ==> n in node.children
    ensures SelectedIn(rules, named, at, node, names[..i + 1])
         == SelectedIn(rules, named, at, node, names[..i])
            + Selected(rules, named, at + [names[i]], node.children[names[i]])
    decreases i
  {
    hide Selected;
    var first := Selected(rules, named, at + [names[0]], node.children[names[0]]);
    if i == 0 {
      assert names[..1] == [names[0]] && names[..1][1..] == [];
      assert first + [] == first;
    } else {
      SelectedMore(rules, named, at, node, names[1..], i - 1);
      assert names[..i + 1][1..] == names[1..][..i] && names[..i][1..] == names[1..][..i - 1];
    }
  }

  /** The loop over the includes; without any, the whole tree. */
  method WalkIncludes(tree: Node, includeFiles: seq<Path>, pm: PatternMatcher) returns (added: seq<Path>)
    requires tree.IsDir() && pm.Valid()
    requires forall p :: p in includeFiles ==> !Lstat(tree, p).ThroughSymlink?
    modifies pm.patterns
    ensures RulesOk(pm.Rules())
    ensures added == AddNew([], AllSelected(pm.Rules(), if includeFiles == [] then [[]] else includeFiles, tree))
  {
    hide Selected, PatternMatcher.Valid, RulesOk;
    var includes := if includeFiles == [] then [[]] else includeFiles;
    pm.RulesAreOk();
    ghost var rules := pm.Rules();
    var ta := new WalkState(pm);
    var i := 0;
    assert includes[..0] == [];
    while i < |includes|
      invariant 0 <= i <= |includes|
      invariant fresh(ta) && ta.pm == pm && ta.Valid()
      invariant ta.added == AddNew([], AllSelected(rules, includes[..i], tree))
    {
      var named := includes[i];
      assert includes[..i + 1][..i] == includes[..i] && includes[..i + 1][i] == named;
      var walkRoot := Lstat(tree, named);
      if walkRoot.Found? {
        ta.Walk(named, named, walkRoot.node);
        AddNewConcat([], AllSelected(rules, includes[..i], tree), Selected(rules, named, named, walkRoot.node));
      } else {
        assert AllSelected(rules, includes[..i], tree) + [] == AllSelected(rules, includes[..i], tree);
      }
      i := i + 1;
    }
    assert includes[..i] == includes;
    added := ta.added;
  }

  // ----- what is added

  ghost predicate Distinct(paths: seq<Path>) {
    forall i, j :: 0 <= i < j < |paths| ==> paths[i] != paths[j]
  }

  /** Nothing is added twice, and nothing that was selected is missing. */
  lemma {:induction false} AddedOnce(added: seq<Path>, paths: seq<Path>)
    requires Distinct(added)
    ensures Distinct(AddNew(added, paths))
    ensures forall x :: x in AddNew(added, paths) <==> x in added || x in paths
    decreases |paths|
  {
    if paths != [] {
      AddedOnce(if paths[0] in added then added else added + [paths[0]], paths[1..]);
      assert forall x :: x in paths <==> x == paths[0] || x in paths[1..];
    }
  }

  ghost predicate NamesOk(t: Node) {
    && (!t.IsDir() ==> t.children == map[])
    && (forall k :: k in t.children ==> ValidName(k) && NamesOk(t.children[k]))
  }

  lemma {:induction false} NamesValid(t: Node, q: Path)
    requires NamesOk(t) && Exists(t, q)
    ensures ValidPath(q)
  {
    if q != [] {
      NamesValid(t.children[q[0]], q[1..]);
      assert q == [q[0]] + q[1..];
    }
  }

  /** No directory on the way from `at` down to `at + q` is pruned. */
  ghost predicate Reaches(rules: seq<Rule>, named: Path, at: Path, q: Path)
    requires RulesOk(rules)
  {
    forall r :: r < q ==> !Pruned(rules, named, at + r)
  }

  /** Whatever the patterns: a path is selected exactly when it is there, is wanted, and no directory
      above it was pruned. */
  lemma {:induction false} SelectedIff(rules: seq<Rule>, named: Path, at: Path, node: Node, x: Path)
    requires RulesOk(rules) && NamesOk(node)
    ensures x in Selected(rules, named, at, node)
       <==> at <= x && Exists(node, x[|at|..]) && Wanted(rules, named, x) && Reaches(rules, named, at, x[|at|..])
    decreases node, 1, 0
  {
    hide Wanted, Pruned;
    var inside := Pruned(rules, named, at);
    if node.IsDir() && !inside {
      var names := Listing(node.children.Keys);
      SelectedInIff(rules, named, at, node, names, x);
    }
    if at <= x {
      var q := x[|at|..];
      assert x == at + q;
      if q == [] {
        assert x == at;
      } else {
        assert at + [] == at && [] < q;
        ReachesStep(rules, named, at, q);
      }
    }
  }

  lemma ReachesStep(rules: seq<Rule>, named: Path, at: Path, q: Path)
    requires RulesOk(rules) && q != []
    ensures Reaches(rules, named, at, q) <==> !Pruned(rules, named, at) && Reaches(rules, named, at + [q[0]], q[1..])
  {
    hide Pruned;
    assert at + [] == at && [] < q;
    if Reaches(rules, named, at, q) {
      forall r | r < q[1..] ensures !Pruned(rules, named, at + [q[0]] + r) {
        assert [q[0]] + r < q && at + ([q[0]] + r) == at + [q[0]] + r;
      }
    }
    if !Pruned(rules, named, at) && Reaches(rules, named, at + [q[0]], q[1..]) {
      forall r | r < q ensures !Pruned(rules, named, at + r) {
        if r != [] {
          assert r[1..] < q[1..] && at + [q[0]] + r[1..] == at + r;
        } else {
          assert at + r == at;
        }
      }
    }
  }

  lemma {:induction false} SelectedInIff(rules: seq<Rule>, named: Path, at: Path, node: Node, names: seq<string>,
                                         x: Path)
    requires RulesOk(rules) && NamesOk(node) && forall n :: n in names ==> n in node.children
    ensures x in SelectedIn(rules, named, at, node, names)
       <==> at < x && x[|at|] in names && Exists(node, x[|at|..]) && Wanted(rules, named, x)
            && Reaches(rules, named, at + [x[|at|]], x[|at| + 1..])
    decreases node, 0, |names|
  {
    hide Wanted, Pruned, Reaches, Selected;
    if names != [] {
      SelectedIff(rules, named, at + [names[0]], node.children[names[0]], x);
      SelectedInIff(rules, named, at, node, names[1..], x);
      Below(at, names[0], x);
      if at < x {
        assert x[|at|..][1..] == x[|at| + 1..] && x[|at|..][0] == x[|at|];
      }
    }
  }

  lemma Below(at: Path, name: string, x: Path)
    ensures at + [name] <= x <==> at < x && x[|at|] == name
    ensures |at + [name]| == |at| + 1
  {
  }

  // ----- pruning

  /** Any patterns without "**"; exclusions are plain names. */
  ghost predicate Prunable(rules: seq<Rule>) {
    forall r :: r in rules ==> FixedDepth(r) && (r.exclusion ==> Literally(r.pattern))
  }

  lemma {:induction false} JoinPrefix(d: Path, f: Path)
    requires d != [] && d <= f
    ensures HasPrefix(Slashed(f) + "/", Slashed(d) + "/")
  {
    if |d| > 1 {
      JoinPrefix(d[1..], f[1..]);
      assert Slashed(f) + "/" == d[0] + "/" + (Slashed(f[1..]) + "/");
      assert Slashed(d) + "/" == d[0] + "/" + (Slashed(d[1..]) + "/");
    } else if |f| > 1 {
      assert Slashed(f) + "/" == d[0] + "/" + (Slashed(f[1..]) + "/");
    }
  }

  lemma CoversBelow(r: Rule, d: Path, f: Path)
    requires FixedDepth(r) && ValidPath(f) && d != [] && d <= f
    ensures r.Covers(d) ==> r.Covers(f)
    ensures r.Covers(f) && !r.Covers(d) && r.exclusion && Literally(r.pattern) ==>
              HasPrefix(r.pattern + "/", Slashed(d) + "/")
  {
    hide Rule.Covers, SplitSlash, Glob, Slashed;
    var n := |r.dirs|;
    assert ValidPath(d);
    ParentRule(r, d);
    ParentRule(r, f);
    if n <= |d| {
      assert d[..n] == f[..n];
    } else if n <= |f| {
      LiteralGlobOf(r, f[..n]);
      assert d <= f[..n];
      JoinPrefix(d, f[..n]);
    }
  }

  lemma LiteralGlobOf(r: Rule, g: Path)
    ensures Literally(r.pattern) && Glob(r.pattern, Slashed(g)) ==> Slashed(g) == r.pattern
  {
    if Literally(r.pattern) {
      LiteralGlob(r.pattern, Slashed(g));
    }
  }

  /** Below a directory that is ignored, and that no exclusion begins with, everything is ignored. */
  lemma {:induction false} IgnoredBelow(rules: seq<Rule>, d: Path, f: Path)
    requires RulesOk(rules) && Prunable(rules) && ValidPath(f) && d != [] && d <= f
    requires Ignored(rules, d) && !ExclusionBelow(rules, d)
    ensures Ignored(rules, f)
    decreases |rules|
  {
    hide Rule.Covers, Rule.Valid, FixedDepth, Slashed, HasPrefix;
    var n := |rules| - 1;
    var last := rules[n];
    assert last in rules;
    CoversBelow(last, d, f);
    if !last.Covers(f) {
      assert forall r :: r in rules[..n] ==> r in rules;
      IgnoredBelow(rules[..n], d, f);
    }
  }

  /** So pruning loses nothing. */
  lemma PruningIsExact(rules: seq<Rule>, named: Path, at: Path, q: Path)
    requires RulesOk(rules) && Prunable(rules) && ValidPath(at + q) && named <= at
    ensures Wanted(rules, named, at + q) ==> Reaches(rules, named, at, q)
  {
    hide Prunable, ExclusionBelow, Ignored;
    if Wanted(rules, named, at + q) {
      forall r | r < q ensures !Pruned(rules, named, at + r) {
        if Pruned(rules, named, at + r) {
          assert at + r <= at + q;
          IgnoredBelow(rules, at + r, at + q);
          assert false;
        }
      }
    }
  }

  // ----- the archive as a whole

  /** A path of the tree at or below an include that is the include itself or is not ignored. */
  ghost predicate Belongs(rules: seq<Rule>, includes: seq<Path>, tree: Node, x: Path)
    requires RulesOk(rules)
  {
    Exists(tree, x) && exists i :: 0 <= i < |includes| && includes[i] <= x && Wanted(rules, includes[i], x)
  }

  lemma {:induction false} LstatIsExists(t: Node, p: Path, r: Path)
    requires NamesOk(t)
    ensures Lstat(t, p).Found? <==> Exists(t, p)
    ensures Lstat(t, p).Found? ==> NamesOk(Lstat(t, p).node) && (Exists(Lstat(t, p).node, r) <==> Exists(t, p + r))
    ensures !Lstat(t, p).Found? ==> !Exists(t, p + r)
  {
    if p == [] {
      assert p + r == r;
    } else if p[0] in t.children {
      LstatIsExists(t.children[p[0]], p[1..], r);
      assert (p + r)[1..] == p[1..] + r;
    }
  }

  lemma {:induction false} AllSelectedIff(rules: seq<Rule>, includes: seq<Path>, tree: Node, x: Path)
    requires RulesOk(rules) && Prunable(rules) && NamesOk(tree)
    ensures x in AllSelected(rules, includes, tree) <==> Belongs(rules, includes, tree, x)
    decreases |includes|
  {
    hide Prunable, Selected, Wanted;
    if includes != [] {
      var n := |includes| - 1;
      AllSelectedIff(rules, includes[..n], tree, x);
      OneInclude(rules, includes[n], tree, x);
      if Belongs(rules, includes, tree, x) {
        var i :| 0 <= i <= n && includes[i] <= x && Wanted(rules, includes[i], x);
        if i < n {
          assert includes[..n][i] <= x && Wanted(rules, includes[..n][i], x);
        }
      }
    }
  }

  lemma OneInclude(rules: seq<Rule>, named: Path, tree: Node, x: Path)
    requires RulesOk(rules) && Prunable(rules) && NamesOk(tree)
    ensures Lstat(tree, named).Found? && x in Selected(rules, named, named, Lstat(tree, named).node)
       <==> named <= x && Exists(tree, x) && Wanted(rules, named, x)
  {
    hide Prunable, Selected, Wanted, Reaches;
    if named <= x {
      var q := x[|named|..];
      assert x == named + q;
      LstatIsExists(tree, named, q);
      if Exists(tree, x) {
        NamesValid(tree, x);
        PruningIsExact(rules, named, named, q);
      }
    }
    if Lstat(tree, named).Found? {
      LstatIsExists(tree, named, []);
      SelectedIff(rules, named, named, Lstat(tree, named).node, x);
    }
  }

  /** For patterns without "**" and exclusions that are plain names, the archive holds exactly the
      paths at or below an include that are the include itself or are not ignored, each once. */
  lemma ArchiveIsExact(rules: seq<Rule>, includes: seq<Path>, tree: Node)
    requires RulesOk(rules) && Prunable(rules) && NamesOk(tree)
    ensures var added := AddNew([], AllSelected(rules, includes, tree));
            && Distinct(added)
            && forall x :: x in added <==> Belongs(rules, includes, tree, x)
  {
    AddedOnce([], AllSelected(rules, includes, tree));
    forall x ensures x in AllSelected(rules, includes, tree) <==> Belongs(rules, includes, tree, x) {
      AllSelectedIff(rules, includes, tree, x);
    }
  }

  /** No text has "**", and what follows a '!' has no wildcard and no backslash. */
  ghost predicate SimpleTexts(patterns: seq<string>) {
    forall p :: p in patterns ==>
      !HasDoubleStar(Unmarked(Prepared(p))) && (Marked(Prepared(p)) ==> Literally(Unmarked(Prepared(p))))
  }

  lemma {:induction false} SimpleIsPrunable(patterns: seq<string>)
    requires Usable(patterns) && SimpleTexts(patterns)
    ensures Prunable(RulesFrom(patterns))
  {
    hide Prepared, Plain, RuleFrom, Rule.Valid, FixedDepth, Unmarked, HasDoubleStar;
    if patterns != [] {
      var n := |patterns| - 1;
      assert patterns[n] in patterns && forall p :: p in patterns[..n] ==> p in patterns;
      SimpleIsPrunable(patterns[..n]);
      SimpleRule(patterns[n]);
    }
  }

  lemma SimpleRule(p: string)
    requires Plain(Prepared(p)) && !HasDoubleStar(Unmarked(Prepared(p)))
    requires Marked(Prepared(p)) ==> Literally(Unmarked(Prepared(p)))
    ensures Prunable(RuleFrom(Prepared(p)))
  {
    hide Prepared, Plain, HasDoubleStar;
    RuleIsOk(p);
  }

  /** The path is there, at or below an include, and is the include itself or not ignored. */
  ghost predicate BelongsByTexts(patterns: seq<string>, includes: seq<Path>, tree: Node, x: Path) {
    Exists(tree, x) && x != []
    && exists i :: 0 <= i < |includes| && includes[i] <= x && (x == includes[i] || !IgnoredByTexts(patterns, x))
  }

  lemma BelongsAgrees(patterns: seq<string>, includes: seq<Path>, tree: Node, x: Path)
    requires Usable(patterns)
    ensures RulesOk(RulesFrom(patterns))
    ensures Belongs(RulesFrom(patterns), includes, tree, x) <==> BelongsByTexts(patterns, includes, tree, x)
  {
    hide Ignored, IgnoredByTexts, Usable;
    LastTextWins(patterns, x);
    var rules := RulesFrom(patterns);
    forall i | 0 <= i < |includes|
      ensures Wanted(rules, includes[i], x) <==> x != [] && (x == includes[i] || !IgnoredByTexts(patterns, x))
    {
    }
  }

  /** A directory that no walk from `named` enters: it is ignored, and no text with a '!' begins with it. */
  ghost predicate SkippedByTexts(patterns: seq<string>, named: Path, r: Path) {
    && r != [] && r != named && IgnoredByTexts(patterns, r)
    && forall p :: p in patterns && Marked(Prepared(p)) && Prepared(p) != "!" ==>
         !(Slashed(r) + "/" <= Unmarked(Prepared(p)) + "/")
  }

  /** The path is there and not ignored, or the include itself, and no directory on the way from the include
      down to it is skipped. */
  ghost predicate SelectedByTexts(patterns: seq<string>, includes: seq<Path>, tree: Node, x: Path) {
    Exists(tree, x) && x != []
    && exists i :: 0 <= i < |includes| && ReachedByTexts(patterns, includes[i], x)
  }

  ghost predicate ReachedByTexts(patterns: seq<string>, named: Path, x: Path) {
    named <= x && (x == named || !IgnoredByTexts(patterns, x))
    && forall r :: named <= r < x ==> !SkippedByTexts(patterns, named, r)
  }

  lemma {:induction false} ExclusionTexts(patterns: seq<string>, dir: Path)
    ensures ExclusionBelow(RulesFrom(patterns), dir)
       <==> exists p :: p in patterns && Marked(Prepared(p)) && Prepared(p) != "!"
                        && Slashed(dir) + "/" <= Unmarked(Prepared(p)) + "/"
  {
    hide Prepared, RuleFrom, Slashed;
    if patterns != [] {
      var n := |patterns| - 1;
      ExclusionTexts(patterns[..n], dir);
      ExclusionText(patterns[n], dir);
      var front, last := RulesFrom(patterns[..n]), RuleFrom(Prepared(patterns[n]));
      assert RulesFrom(patterns) == front + last;
      assert forall r :: r in front + last <==> r in front || r in last;
      assert patterns == patterns[..n] + [patterns[n]];
      assert forall p :: p in patterns <==> p in patterns[..n] || p == patterns[n];
    }
  }

  lemma ExclusionText(p: string, dir: Path)
    ensures ExclusionBelow(RuleFrom(Prepared(p)), dir)
       <==> Marked(Prepared(p)) && Prepared(p) != "!" && Slashed(dir) + "/" <= Unmarked(Prepared(p)) + "/"
  {
    hide Prepared, Slashed;
    if RuleFrom(Prepared(p)) != [] {
      var r := RuleFrom(Prepared(p))[0];
      assert RuleFrom(Prepared(p)) == [r] && r in [r];
    }
  }

  lemma PrunedIsSkipped(patterns: seq<string>, named: Path, r: Path)
    requires Usable(patterns)
    ensures RulesOk(RulesFrom(patterns))
    ensures Pruned(RulesFrom(patterns), named, r) <==> SkippedByTexts(patterns, named, r)
  {
    hide Usable, Prepared, Ignored, IgnoredByTexts, ExclusionBelow, Slashed;
    LastTextWins(patterns, r);
    ExclusionTexts(patterns, r);
  }

  lemma ReachedAgrees(patterns: seq<string>, named: Path, x: Path)
    requires Usable(patterns) && named <= x && x != []
    ensures RulesOk(RulesFrom(patterns))
    ensures Wanted(RulesFrom(patterns), named, x) && Reaches(RulesFrom(patterns), named, named, x[|named|..])
       <==> ReachedByTexts(patterns, named, x)
  {
    hide Usable, Ignored, IgnoredByTexts, Pruned, SkippedByTexts;
    LastTextWins(patterns, x);
    var q := x[|named|..];
    assert x == named + q;
    if Reaches(RulesFrom(patterns), named, named, q) {
      forall r | named <= r < x ensures !SkippedByTexts(patterns, named, r) {
        assert r == named + r[|named|..] && r[|named|..] < q;
        PrunedIsSkipped(patterns, named, r);
      }
    }
    if forall r :: named <= r < x ==> !SkippedByTexts(patterns, named, r) {
      forall r | r < q ensures !Pruned(RulesFrom(patterns), named, named + r) {
        assert named <= named + r < x;
        PrunedIsSkipped(patterns, named, named + r);
      }
    }
  }

  lemma OneIncludeByTexts(patterns: seq<string>, named: Path, tree: Node, x: Path)
    requires Usable(patterns) && NamesOk(tree)
    ensures RulesOk(RulesFrom(patterns))
    ensures Lstat(tree, named).Found? && x in Selected(RulesFrom(patterns), named, named, Lstat(tree, named).node)
       <==> Exists(tree, x) && x != [] && ReachedByTexts(patterns, named, x)
  {
    hide Selected, Wanted, Reaches, SkippedByTexts, IgnoredByTexts, Ignored, Usable;
    LastTextWins(patterns, x);
    if named <= x {
      var q := x[|named|..];
      assert x == named + q;
      LstatIsExists(tree, named, q);
      if x != [] {
        ReachedAgrees(patterns, named, x);
      }
      RootUnwanted(RulesFrom(patterns), named, x);
    }
    if Lstat(tree, named).Found? {
      LstatIsExists(tree, named, []);
      SelectedIff(RulesFrom(patterns), named, named, Lstat(tree, named).node, x);
    }
  }

  lemma RootUnwanted(rules: seq<Rule>, named: Path, x: Path)
    requires RulesOk(rules)
    ensures Wanted(rules, named, x) ==> x != []
  {
  }

  lemma {:induction false} AllSelectedByTexts(patterns: seq<string>, includes: seq<Path>, tree: Node, x: Path)
    requires Usable(patterns) && NamesOk(tree)
    ensures RulesOk(RulesFrom(patterns))
    ensures x in AllSelected(RulesFrom(patterns), includes, tree) <==> SelectedByTexts(patterns, includes, tree, x)
    decreases |includes|
  {
    hide Selected, ReachedByTexts, Usable, Ignored;
    LastTextWins(patterns, x);
    if includes != [] {
      var n := |includes| - 1;
      AllSelectedByTexts(patterns, includes[..n], tree, x);
      OneIncludeByTexts(patterns, includes[n], tree, x);
      if SelectedByTexts(patterns, includes, tree, x) {
        var i :| 0 <= i <= n && ReachedByTexts(patterns, includes[i], x);
        assert i < n ==> ReachedByTexts(patterns, includes[..n][i], x);
      }
    }
  }

  /** TarWithOptions, for patterns of the plain kind: what the texts of the patterns select, and when pruning is
      exact simply what they do not ignore. */
  method TarWithOptions(tree: Node, includeFiles: seq<Path>, excludePatterns: seq<string>)
    returns (r: Result<seq<Path>, string>)
    requires tree.IsDir() && NamesOk(tree)
    requires forall p :: p in includeFiles ==> !Lstat(tree, p).ThroughSymlink?
    requires Usable(excludePatterns)
    ensures r.Err? <==> exists p :: p in excludePatterns && Prepared(p) == "!"
    ensures var rules := RulesFrom(excludePatterns);
            var includes := if includeFiles == [] then [[]] else includeFiles;
            r.Ok? ==>
              && RulesOk(rules) && r.value == AddNew([], AllSelected(rules, includes, tree)) && Distinct(r.value)
              && (Prunable(rules) ==> forall x :: x in r.value <==> Belongs(rules, includes, tree, x))
    ensures r.Ok? ==>
              forall x :: x in r.value <==>
                SelectedByTexts(excludePatterns, if includeFiles == [] then [[]] else includeFiles, tree, x)
    ensures r.Ok? && SimpleTexts(excludePatterns) ==>
              forall x :: x in r.value <==>
                BelongsByTexts(excludePatterns, if includeFiles == [] then [[]] else includeFiles, tree, x)
  {
    hide Prunable, NamesOk, Usable, PatternMatcher.Valid, RulesOk, AllSelected, Belongs, BelongsByTexts, SimpleTexts,
         Prepared, SelectedByTexts;
    var pm := NewPatternMatcher(excludePatterns);
    if pm.Err? {
      return Err(pm.error);
    }
    var added := WalkIncludes(tree, includeFiles, pm.value);
    ghost var includes := if includeFiles == [] then [[]] else includeFiles;
    AddedOnce([], AllSelected(pm.value.Rules(), includes, tree));
    if Prunable(pm.value.Rules()) {
      ArchiveIsExact(pm.value.Rules(), includes, tree);
    }
    forall x
      ensures x in AllSelected(pm.value.Rules(), includes, tree)
         <==> SelectedByTexts(excludePatterns, includes, tree, x)
    {
      AllSelectedByTexts(excludePatterns, includes, tree, x);
    }
    if SimpleTexts(excludePatterns) {
      SimpleIsPrunable(excludePatterns);
      forall x
        ensures Belongs(pm.value.Rules(), includes, tree, x) <==> BelongsByTexts(excludePatterns, includes, tree, x)
      {
        BelongsAgrees(excludePatterns, includes, tree, x);
      }
    }
    r := Ok(added);
  }

  // ----- where pruning is not exact

  /** "**" + "/b" ignores the directory b but nothing in it, and yet b is not entered. */
  lemma DoubleStarPrunesTooMuch(tree: Node)
    requires NamesOk(tree)
    ensures var rules := [Rule("**/b", ["**", "b"], false)];
            && RulesOk(rules)
            && !Ignored(rules, ["b", "c"])
            && ["b", "c"] !in Selected(rules, [], [], tree)
  {
    var r := Rule("**/b", ["**", "b"], false);
    var rules := [r];
    DoubleStarRule(r);
    assert rules[..0] == [];
    assert Ignored(rules, ["b"]) && !Ignored(rules, ["b", "c"]);
    assert Pruned(rules, [], ["b"]);
    SelectedIff(rules, [], [], tree, ["b", "c"]);
    assert ["b"] < ["b", "c"][0..] && [] + ["b"] == ["b"];
  }

  lemma DoubleStarRule(r: Rule)
    requires r.pattern == "**/b" && r.dirs == ["**", "b"]
    ensures r.Valid() && r.Covers(["b"]) && !r.Covers(["b", "c"])
  {
    hide RegexpOf, Regexp.MatchString, SplitSlash, Glob, Plain;
    ShortRule("**", "b");
    assert "**" + "/" + "b" == "**/b";
    CompiledMeansGlob("**/b", "b");
    CompiledMeansGlob("**/b", "b/c");
    DoubleStarGlobs();
    assert ["b", "c"][1..] == ["c"];
    assert Slashed(["b"]) == "b" && Slashed(["b", "c"]) == "b" + "/" + "c" == "b/c";
  }

  lemma DoubleStarGlobs()
    ensures Glob("**/b", "b") && !Glob("**/b", "b/c")
  {
    assert "**/b"[3..] == "b" && "b/c"[2..] == "c";
    LiteralGlob("b", "b");
    LiteralGlob("b", "b/c");
    LiteralGlob("b", "c");
  }

  /** A pattern of two components is read as such. */
  lemma ShortRule(a: string, b: string)
    requires a in ["**", "?"] && b == "b"
    ensures Plain(a + "/" + b) && SplitSlash(a + "/" + b) == [a, b]
  {
    hide Regexp.Ordinary;
    SplitSlashFirst(a, b);
    SplitSlashFirst(b, "");
    var p := a + "/" + b;
    assert p[1..] == a[1..] + "/" + b;
    assert ("/" + b)[1..] == b && b[1..] == "";
    OrdinaryHere();
    assert Plain(b) && Plain("/" + b);
    if a == "**" {
      assert p[1..][1..] == "/" + b;
      assert Plain(p[1..]);
    }
  }

  lemma OrdinaryHere()
    ensures Regexp.Ordinary('/') && Regexp.Ordinary('b') && Regexp.Ordinary('x')
  {
  }

  /** An exclusion with a wildcard does not keep the directories that it could match open. */
  lemma WildcardExclusionPrunesTooMuch(tree: Node)
    requires NamesOk(tree)
    ensures var rules := [Rule("x", ["x"], false), Rule("?/b", ["?", "b"], true)];
            && RulesOk(rules)
            && !Ignored(rules, ["x", "b"])
            && ["x", "b"] !in Selected(rules, [], [], tree)
  {
    var r0, r1 := Rule("x", ["x"], false), Rule("?/b", ["?", "b"], true);
    var rules := [r0, r1];
    WildcardRules(r0, r1);
    assert rules[..1] == [r0] && [r0][..0] == [];
    hide Rule.Covers, Rule.Valid, Slashed;
    assert !Ignored(rules, ["x", "b"]);
    assert Ignored([r0], ["x"]) && Ignored(rules, ["x"]);
    NoExclusionBelow(rules);
    assert Pruned(rules, [], ["x"]);
    SelectedIff(rules, [], [], tree, ["x", "b"]);
    assert ["x"] < ["x", "b"][0..] && [] + ["x"] == ["x"];
  }

  lemma NoExclusionBelow(rules: seq<Rule>)
    requires rules == [Rule("x", ["x"], false), Rule("?/b", ["?", "b"], true)]
    ensures !ExclusionBelow(rules, ["x"])
  {
    assert Slashed(["x"]) + "/" == "x/" && ("?/b" + "/")[0] == '?';
  }

  lemma WildcardRules(r0: Rule, r1: Rule)
    requires r0 == Rule("x", ["x"], false) && r1 == Rule("?/b", ["?", "b"], true)
    ensures r0.Valid() && r1.Valid() && r0.Covers(["x"]) && !r1.Covers(["x"]) && r1.Covers(["x", "b"])
  {
    hide Rule.Covers, Glob, SplitSlash, Regexp.Ordinary;
    OrdinaryHere();
    assert "x"[1..] == "";
    SplitSlashFirst("x", "");
    ShortRule("?", "b");
    assert "?" + "/" + "b" == "?/b";
    assert FixedDepth(r0) && FixedDepth(r1) by {
      assert "?/b"[1..] == "/b" && "/b"[1..] == "b" && "b"[1..] == "";
    }
    assert ["x", "b"][..2] == ["x", "b"] && ["x", "b"][1..] == ["b"];
    ParentRule(r0, ["x"]);
    ParentRule(r1, ["x"]);
    ParentRule(r1, ["x", "b"]);
    LiteralGlob("x", "x");
    assert Slashed(["x", "b"]) == "x/b";
    QuestionGlob();
  }

  lemma QuestionGlob()
    ensures Glob("?/b", "x/b")
  {
    assert "?/b"[1..] == "/b" && "x/b"[1..] == "/b";
    LiteralGlob("/b", "/b");
  }
}
