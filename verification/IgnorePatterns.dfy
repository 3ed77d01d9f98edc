/** Lists of ignore patterns: the last one that matches a path, or a directory above it, decides. */
module IgnorePatterns {
  import opened Wrappers
  import opened Text
  import opened Regexp
  import opened GlobPatterns

  /** The form in which a relative path is matched. */
  function Slashed(p: Path): string {
    Join(p, '/')
  }

  /** What a Pattern says; `dirs` are its cleanedPattern's components. */
  datatype Rule = Rule(pattern: string, dirs: seq<string>, exclusion: bool) {
    predicate Valid() {
      Plain(pattern) && dirs == SplitSlash(pattern)
    }

    /** Does the regular expression match? */
    predicate Matching(path: string)
      requires Valid()
    {
      MatchString(RegexpOf(pattern), path)
    }

    /** It matches the path itself, or the directory above it that has as many components as the pattern. */
    predicate Covers(file: Path)
      requires Valid()
    {
      || Matching(Slashed(file))
      || (|file| > 1 && |dirs| <= |file| - 1 && Matching(Slashed(file[..|dirs|])))
    }
  }

  ghost predicate RulesOk(rules: seq<Rule>) {
    forall r :: r in rules ==> r.Valid()
  }

  /** Is the path ignored? Decided from the last pattern backwards. */
  ghost predicate Ignored(rules: seq<Rule>, file: Path)
    requires RulesOk(rules)
  {
    if rules == [] then false
    else
      var last := rules[|rules| - 1];
      assert last in rules;
      if last.Covers(file) then !last.exclusion else Ignored(rules[..|rules| - 1], file)
  }

  class Pattern {
    const cleanedPattern: string
    const dirs: seq<string>
    const exclusion: bool
    var regexp: Option<Re>

    constructor (pattern: string, exclusion: bool)
      requires Plain(pattern)
      ensures Valid() && AsRule() == Rule(pattern, SplitSlash(pattern), exclusion)
    {
      cleanedPattern, dirs, this.exclusion, regexp := pattern, SplitSlash(pattern), exclusion, None;
    }

    function AsRule(): Rule {
      Rule(cleanedPattern, dirs, exclusion)
    }

    ghost predicate Valid()
      reads this
    {
      AsRule().Valid() && (regexp.Some? ==> regexp.value == RegexpOf(cleanedPattern))
    }

    /** Pattern.match: compiled at the first use. */
    method Match(path: string) returns (b: bool)
      requires Valid()
      modifies this
      ensures Valid() && b == AsRule().Matching(path)
    {
      hide RegexpOf, MatchString;
      if regexp.None? {
        var regStr := Compile(cleanedPattern);
        CompiledParses(cleanedPattern);
        regexp := Parse(regStr);
        CompiledValue(cleanedPattern);
      }
      b := MatchString(regexp.value, path);
    }
  }

  lemma CompiledValue(p: string)
    requires Plain(p)
    ensures Parse("^" + Translate(p) + "$") == Some(RegexpOf(p))
  {
    CompiledParses(p);
  }

  class PatternMatcher {
    const patterns: seq<Pattern>
    const exclusions: bool

    constructor (patterns: seq<Pattern>, exclusions: bool)
      requires forall p :: p in patterns ==> p.Valid()
      requires exclusions <==> exists p :: p in patterns && p.exclusion
      ensures Valid() && this.patterns == patterns
    {
      this.patterns, this.exclusions := patterns, exclusions;
    }

    function Rules(): (rules: seq<Rule>)
      ensures |rules| == |patterns| && forall i :: 0 <= i < |rules| ==> rules[i] == patterns[i].AsRule()
    {
      seq(|patterns|, i requires 0 <= i < |patterns| => patterns[i].AsRule())
    }

    ghost predicate Valid()
      reads patterns
    {
      && (forall p :: p in patterns ==> p.Valid())
      && (exclusions <==> exists p :: p in patterns && p.exclusion)
    }

    lemma RulesAreOk()
      requires Valid()
      ensures RulesOk(Rules())
    {
      forall r | r in Rules() ensures r.Valid() {
        var i :| 0 <= i < |patterns| && Rules()[i] == r;
        assert patterns[i] in patterns && patterns[i].AsRule() == r;
      }
    }

    method Matches(file: Path) returns (matched: bool)
      requires Valid()
      modifies patterns
      ensures Valid() && RulesOk(Rules()) && matched == Ignored(Rules(), file)
    {
      hide Rule.Matching, Rule.Covers;
      RulesAreOk();
      matched := false;
      var path := Slashed(file);
      var i := 0;
      while i < |patterns|
        invariant 0 <= i <= |patterns| && Valid()
        invariant RulesOk(Rules()[..i]) && matched == Ignored(Rules()[..i], file)
      {
        var pattern := patterns[i];
        var covers := MatchOrParent(pattern, file, path);
        if covers {
          matched := !pattern.exclusion;
        }
        OneMoreRule(Rules(), i, file);
        i := i + 1;
      }
      assert Rules()[..|patterns|] == Rules();
    }

    /** The pattern against the path, and else against a directory above it. */
    method MatchOrParent(pattern: Pattern, file: Path, path: string) returns (match_: bool)
      requires Valid() && pattern in patterns && path == Slashed(file)
      modifies pattern
      ensures Valid() && match_ == pattern.AsRule().Covers(file)
    {
      hide Rule.Matching;
      match_ := pattern.Match(path);
      if !match_ && |file| > 1 {
        if |pattern.dirs| <= |file| - 1 {
          match_ := pattern.Match(Slashed(file[..|pattern.dirs|]));
        }
      }
    }
  }

  lemma OneMoreRule(rules: seq<Rule>, i: nat, file: Path)
    requires RulesOk(rules) && i < |rules|
    ensures RulesOk(rules[..i]) && RulesOk(rules[..i + 1]) && rules[i].Valid()
    ensures Ignored(rules[..i + 1], file) == if rules[i].Covers(file) then !rules[i].exclusion
                                             else Ignored(rules[..i], file)
  {
    assert rules[..i + 1][..i] == rules[..i] && rules[..i + 1][i] == rules[i] && rules[i] in rules;
  }

  // ----- what deciding by the last pattern means

  ghost predicate CoversAt(rules: seq<Rule>, i: int, file: Path)
    requires RulesOk(rules) && 0 <= i < |rules|
  {
    rules[i] in rules && rules[i].Covers(file)
  }

  ghost predicate LastCover(rules: seq<Rule>, i: int, file: Path)
    requires RulesOk(rules) && 0 <= i < |rules|
  {
    CoversAt(rules, i, file) && forall j :: i < j < |rules| ==> !CoversAt(rules, j, file)
  }

  /** Ignored: the last pattern that covers the path is no exclusion. */
  lemma {:induction false} LastMatchWins(rules: seq<Rule>, file: Path)
    requires RulesOk(rules)
    ensures Ignored(rules, file)
       <==> exists i :: 0 <= i < |rules| && LastCover(rules, i, file) && !rules[i].exclusion
  {
    hide Rule.Covers, Rule.Valid, CoversAt, LastCover;
    if rules != [] {
      var n := |rules| - 1;
      OneMoreRule(rules, n, file);
      assert rules[..n + 1] == rules;
      LastMatchWins(rules[..n], file);
      LastOfAll(rules, n, file);
      forall i | 0 <= i < n
        ensures LastCover(rules, i, file) <==> LastCover(rules[..n], i, file) && !rules[n].Covers(file)
      {
        LastButOne(rules, n, i, file);
      }
      if !rules[n].Covers(file) && Ignored(rules[..n], file) {
        var i :| 0 <= i < n && LastCover(rules[..n], i, file) && !rules[..n][i].exclusion;
        assert LastCover(rules, i, file) && !rules[i].exclusion;
      }
    }
  }

  lemma LastOfAll(rules: seq<Rule>, n: int, file: Path)
    requires RulesOk(rules) && n == |rules| - 1 >= 0
    ensures rules[n].Valid() && (LastCover(rules, n, file) <==> rules[n].Covers(file))
  {
    hide Rule.Covers, Rule.Valid;
    assert rules[n] in rules;
  }

  lemma LastButOne(rules: seq<Rule>, n: int, i: int, file: Path)
    requires RulesOk(rules) && 0 <= i < n == |rules| - 1
    ensures RulesOk(rules[..n]) && rules[n].Valid()
    ensures LastCover(rules, i, file) <==> LastCover(rules[..n], i, file) && !rules[n].Covers(file)
  {
    hide Rule.Covers, Rule.Valid;
    forall j | 0 <= j < n ensures CoversAt(rules, j, file) <==> CoversAt(rules[..n], j, file) {
      assert rules[..n][j] == rules[j];
    }
    assert rules[n] in rules;
    assert CoversAt(rules, n, file) <==> rules[n].Covers(file);
  }

  // ----- patterns whose depth is fixed

  function Slashes(s: string): nat {
    if s == "" then 0 else (if s[0] == '/' then 1 else 0) + Slashes(s[1..])
  }

  lemma {:induction false} SplitCounts(s: string)
    ensures |SplitSlash(s)| == Slashes(s) + 1
  {
    if s != "" {
      SplitCounts(s[1..]);
      assert SplitSlash(s[1..]) == Split(s[1..], '/');
    }
  }

  lemma {:induction false} SlashesConcat(a: string, b: string)
    ensures Slashes(a + b) == Slashes(a) + Slashes(b)
  {
    if a == "" {
      assert a + b == b;
    } else {
      assert (a + b)[1..] == a[1..] + b;
      SlashesConcat(a[1..], b);
    }
  }

  lemma {:induction false} NoSlashes(s: string)
    requires '/' !in s
    ensures Slashes(s) == 0
  {
    if s != "" {
      NoSlashes(s[1..]);
    }
  }

  /** Without "**" a pattern matches paths of its own depth only. */
  lemma {:induction false} GlobDepth(p: string, path: string)
    requires !HasDoubleStar(p) && Glob(p, path)
    ensures Slashes(path) == Slashes(p)
    decreases |p|
  {
    if p != "" {
      if p[0] == '*' {
        var k :| 0 <= k <= |path| && '/' !in path[..k] && Glob(p[1..], path[k..]);
        assert path == path[..k] + path[k..];
        SlashesConcat(path[..k], path[k..]);
        NoSlashes(path[..k]);
        GlobDepth(p[1..], path[k..]);
      } else if p[0] == '\\' {
        assert p[1..][1..] == p[2..];
        GlobDepth(p[2..], path[1..]);
      } else {
        GlobDepth(p[1..], path[1..]);
      }
    }
  }

  lemma JoinSplit(f: Path)
    requires ValidPath(f) && f != []
    ensures SplitSlash(Slashed(f)) == f
  {
    assert forall p :: p in f ==> ValidName(p);
    SplitJoin(f, '/');
  }

  ghost predicate FixedDepth(r: Rule) {
    r.Valid() && !HasDoubleStar(r.pattern)
  }

  /** The regular expression of such a pattern means the pattern, and fits paths of its depth only. */
  lemma MatchingMeans(r: Rule, f: Path)
    requires FixedDepth(r) && ValidPath(f) && f != []
    ensures r.Matching(Slashed(f)) <==> Glob(r.pattern, Slashed(f))
    ensures r.Matching(Slashed(f)) ==> |f| == |r.dirs|
  {
    hide RegexpOf, MatchString, Glob;
    CompiledMeansGlob(r.pattern, Slashed(f));
    if Glob(r.pattern, Slashed(f)) {
      GlobDepth(r.pattern, Slashed(f));
      SplitCounts(r.pattern);
      SplitCounts(Slashed(f));
      JoinSplit(f);
    }
  }

  /** The parent rule: such a pattern covers what matches it and everything below. */
  lemma ParentRule(r: Rule, f: Path)
    requires FixedDepth(r) && ValidPath(f) && f != []
    ensures r.Covers(f) <==> |r.dirs| <= |f| && Glob(r.pattern, Slashed(f[..|r.dirs|]))
  {
    hide Rule.Matching, Glob, SplitSlash;
    MatchingMeans(r, f);
    var n := |r.dirs|;
    if n <= |f| {
      assert r.dirs != [];
      MatchingMeans(r, f[..n]);
      assert n == |f| ==> f[..n] == f;
    }
  }

  predicate Literally(p: string) {
    '*' !in p && '?' !in p && '\\' !in p
  }

  lemma {:induction false} LiteralGlob(p: string, path: string)
    requires Literally(p)
    ensures Glob(p, path) <==> path == p
    decreases |p|
  {
    if p != "" && path != "" {
      LiteralGlob(p[1..], path[1..]);
      assert p == [p[0]] + p[1..] && path == [path[0]] + path[1..];
    }
  }

  // ----- reading the patterns

  /** unicode.IsSpace. */
  predicate IsSpace(c: char) {
    var u := c as int;
    || 9 <= u <= 13 || u == 32 || u == 0x85 || u == 0xA0 || u == 0x1680 || 0x2000 <= u <= 0x200A
    || u == 0x2028 || u == 0x2029 || u == 0x202F || u == 0x205F || u == 0x3000
  }

  /** strings.TrimSpace. */
  function TrimSpace(s: string): string {
    if s != "" && IsSpace(s[0]) then TrimSpace(s[1..])
    else if s != "" && IsSpace(s[|s| - 1]) then TrimSpace(s[..|s| - 1])
    else s
  }

  /** filepath.Clean. */
  function Clean(p: string): (clean: string)
    ensures clean != ""
  {
    var rooted := p != "" && p[0] == '/';
    var parts := CleanParts(rooted, [], SplitSlash(p));
    if rooted then "/" + Slashed(parts)
    else if parts == [] then "."
    else
      assert parts[0] in parts;
      Slashed(parts)
  }

  /** A pattern as it is looked at: trimmed and, unless that leaves nothing, cleaned. */
  function Prepared(p: string): string {
    if TrimSpace(p) == "" then "" else Clean(TrimSpace(p))
  }

  /** The patterns as they come in, less the empty ones; "!" marks an exclusion. */
  function RulesFrom(patterns: seq<string>): seq<Rule> {
    if patterns == [] then []
    else RulesFrom(patterns[..|patterns| - 1]) + RuleFrom(Prepared(patterns[|patterns| - 1]))
  }

  function RuleFrom(p: string): seq<Rule> {
    if p == "" || p == "!" then []
    else if p[0] == '!' then [Rule(p[1..], SplitSlash(p[1..]), true)]
    else [Rule(p, SplitSlash(p), false)]
  }

  ghost predicate Usable(patterns: seq<string>) {
    forall p :: p in patterns ==> Plain(Prepared(p))
  }

  ghost predicate LoneExclusion(patterns: seq<string>) {
    exists p :: p in patterns && Prepared(p) == "!"
  }

  /** The loop's variables. */
  ghost predicate ReadSoFar(patterns: seq<string>, all: seq<Pattern>, exclusions: bool)
    reads all
  {
    && !LoneExclusion(patterns)
    && (forall p :: p in all ==> p.Valid())
    && (exclusions <==> exists p :: p in all && p.exclusion)
    && AsRules(all) == RulesFrom(patterns)
  }

  /** NewPatternMatcher, for patterns of the plain kind. */
  method NewPatternMatcher(patterns: seq<string>) returns (r: Result<PatternMatcher, string>)
    requires Usable(patterns)
    ensures r.Err? <==> LoneExclusion(patterns)
    ensures r.Ok? ==> fresh(r.value) && fresh(r.value.patterns) && r.value.Valid()
                      && r.value.Rules() == RulesFrom(patterns)
  {
    hide Pattern.Valid, Plain, Prepared;
    var all: seq<Pattern> := [];
    var exclusions := false;
    for i := 0 to |patterns|
      invariant fresh(all) && ReadSoFar(patterns[..i], all, exclusions)
    {
      hide ReadSoFar, LoneExclusion;
      assert patterns[i] in patterns;
      var newp := NewPattern(patterns[i]);
      if newp.Err? {
        OneLone(patterns, i);
        return Err(newp.error);
      }
      OneMorePattern(patterns[..i], patterns[i], all, exclusions, newp.value);
      assert patterns[..i + 1] == patterns[..i] + [patterns[i]];
      if newp.value.Some? {
        all := all + [newp.value.value];
        exclusions := exclusions || newp.value.value.exclusion;
      }
    }
    assert patterns[..|patterns|] == patterns;
    var pm := new PatternMatcher(all, exclusions);
    assert pm.Rules() == AsRules(all);
    r := Ok(pm);
  }

  ghost function AsRules(patterns: seq<Pattern>): (rules: seq<Rule>) {
    seq(|patterns|, i requires 0 <= i < |patterns| => patterns[i].AsRule())
  }

  lemma OneLone(patterns: seq<string>, i: nat)
    requires i < |patterns| && Prepared(patterns[i]) == "!"
    ensures LoneExclusion(patterns)
  {
    assert patterns[i] in patterns;
  }

  lemma OneMorePattern(patterns: seq<string>, p: string, all: seq<Pattern>, exclusions: bool, newp: Option<Pattern>)
    requires ReadSoFar(patterns, all, exclusions) && Prepared(p) != "!"
    requires newp.Some? ==> newp.value.Valid()
    requires RuleFrom(Prepared(p)) == if newp.Some? then [newp.value.AsRule()] else []
    ensures ReadSoFar(patterns + [p],
                      if newp.Some? then all + [newp.value] else all,
                      exclusions || (newp.Some? && newp.value.exclusion))
  {
    hide Pattern.Valid, Prepared, RuleFrom;
    var longer := patterns + [p];
    assert longer[..|patterns|] == patterns;
    if newp.Some? {
      var more := all + [newp.value];
      assert AsRules(more) == AsRules(all) + [newp.value.AsRule()];
      assert newp.value in more && forall q :: q in all ==> q in more;
    } else {
      assert AsRules(all) + [] == AsRules(all);
    }
  }

  /** The body of the loop up to the new pattern; an empty one makes nothing. */
  method NewPattern(pattern: string) returns (r: Result<Option<Pattern>, string>)
    requires Plain(Prepared(pattern))
    ensures r.Err? <==> Prepared(pattern) == "!"
    ensures r.Ok? ==> RuleFrom(Prepared(pattern)) == if r.value.Some? then [r.value.value.AsRule()] else []
    ensures r.Ok? && r.value.Some? ==> fresh(r.value.value) && r.value.value.Valid()
  {
    hide TrimSpace, Clean, SplitSlash;
    var p := TrimSpace(pattern);
    if p == "" {
      return Ok(None);
    }
    p := Clean(p);
    var exclusion := false;
    if p[0] == '!' {
      if |p| == 1 {
        assert p == "!";
        return Err("illegal exclusion pattern: \"!\"");
      }
      exclusion := true;
      p := p[1..];
    }
    var newp := new Pattern(p, exclusion);
    r := Ok(Some(newp));
  }
}
