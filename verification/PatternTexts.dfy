/** What a list of ignore patterns says, told from the texts of the patterns as they are written. */
module PatternTexts {
  import opened Wrappers
  import opened Text
  import opened GlobPatterns
  import opened IgnorePatterns

  // ----- trimming and cleaning

  /** Only space is trimmed, and all of it. */
  lemma {:induction false} Trimmed(s: string) returns (front: string, back: string)
    ensures s == front + TrimSpace(s) + back
    ensures forall c :: c in front + back ==> IsSpace(c)
    ensures TrimSpace(s) != "" ==> !IsSpace(TrimSpace(s)[0]) && !IsSpace(TrimSpace(s)[|TrimSpace(s)| - 1])
  {
    front, back := "", "";
    if s != "" && IsSpace(s[0]) {
      front, back := Trimmed(s[1..]);
      front := [s[0]] + front;
    } else if s != "" && IsSpace(s[|s| - 1]) {
      front, back := Trimmed(s[..|s| - 1]);
      back := back + [s[|s| - 1]];
    }
  }

  /** Whatever space stands around a text, trimming leaves the text. */
  lemma {:induction false} TrimmedIs(front: string, s: string, back: string)
    requires s != "" && !IsSpace(s[0]) && !IsSpace(s[|s| - 1]) && forall c :: c in front + back ==> IsSpace(c)
    ensures TrimSpace(front + s + back) == s
    decreases |front| + |back|
  {
    var all := front + s + back;
    if front != "" {
      assert all[0] == front[0] && front[0] in front + back && all[1..] == front[1..] + s + back;
      assert forall c :: c in front[1..] + back ==> c in front + back;
      TrimmedIs(front[1..], s, back);
    } else if back != "" {
      var n := |back| - 1;
      assert all[0] == s[0] && all[|all| - 1] == back[n] && back[n] in front + back;
      assert all[..|all| - 1] == front + s + back[..n];
      assert forall c :: c in front + back[..n] ==> c in front + back;
      TrimmedIs(front, s, back[..n]);
    } else {
      assert all == s;
    }
  }

  /** A pattern is looked at without the space around it, and cleaned. */
  lemma PreparedIs(front: string, s: string, back: string)
    requires s != "" && !IsSpace(s[0]) && !IsSpace(s[|s| - 1]) && forall c :: c in front + back ==> IsSpace(c)
    ensures Prepared(front + s + back) == Clean(s)
  {
    hide TrimSpace, Clean;
    TrimmedIs(front, s, back);
  }

  lemma SpacesAre(c: char)
    ensures c as int < 256 ==>
              (IsSpace(c) <==> c in [' ', '\t', '\n', '\U{0B}', '\U{0C}', '\r', '\U{85}', '\U{A0}'])
  {
  }

  lemma PartsHaveNoSlash(rooted: bool, parts: seq<string>)
    requires forall p :: p in parts ==> '/' !in p
    ensures forall p :: p in CleanParts(rooted, [], parts) ==> '/' !in p
  {
    NoSlashKept(rooted, [], parts);
  }

  lemma {:induction false} NoSlashKept(rooted: bool, done: seq<string>, parts: seq<string>)
    requires "" !in done && (forall p :: p in done ==> '/' !in p) && forall p :: p in parts ==> '/' !in p
    ensures forall p :: p in CleanParts(rooted, done, parts) ==> '/' !in p
    decreases |parts|
  {
    if parts != [] {
      var part, rest := parts[0], parts[1..];
      if part == "" || part == "." {
        NoSlashKept(rooted, done, rest);
      } else if part != ".." {
        NoSlashKept(rooted, done + [part], rest);
      } else if done != [] && done[|done| - 1] != ".." {
        NoSlashKept(rooted, done[..|done| - 1], rest);
      } else {
        NoSlashKept(rooted, if rooted then done else done + [".."], rest);
      }
    }
  }

  predicate Rooted(p: string) {
    p != "" && p[0] == '/'
  }

  /** The components that cleaning leaves of a text, after the slash of a rooted one. */
  function PartsOf(p: string): (parts: seq<string>) {
    CleanParts(Rooted(p), [], SplitSlash(p))
  }

  /** A cleaned path reads back as its components: some "..", none of them after a slash at the front, and
      then names. */
  lemma CleanedReadsBack(p: string) returns (ups: nat)
    ensures UpsThenDown(PartsOf(p), ups) && (Rooted(p) ==> ups == 0)
    ensures Rooted(Clean(p)) <==> Rooted(p)
    ensures PartsOf(p) != [] ==>
              SplitSlash(if Rooted(p) then Clean(p)[1..] else Clean(p)) == PartsOf(p)
    ensures PartsOf(p) == [] ==> Clean(p) == if Rooted(p) then "/" else "."
  {
    hide CleanParts, Join, Split;
    ups := CleanedForm(Rooted(p), [], SplitSlash(p), 0);
    JoinOfSplit(p, '/');
    PartsHaveNoSlash(Rooted(p), SplitSlash(p));
    var parts := PartsOf(p);
    if parts != [] {
      SplitJoin(parts, '/');
      FirstOfJoin(parts);
      if Rooted(p) {
        assert ("/" + Slashed(parts))[1..] == Slashed(parts);
      }
    } else {
      NothingJoined();
    }
  }

  lemma NothingJoined()
    ensures Join([], '/') == ""
  {
  }

  lemma FirstOfJoin(parts: seq<string>)
    requires parts != [] && parts[0] != "" && '/' !in parts[0]
    ensures Join(parts, '/') != "" && Join(parts, '/')[0] != '/'
  {
  }

  /** Cleaning twice is cleaning once. */
  lemma CleanIsIdempotent(p: string)
    ensures Clean(Clean(p)) == Clean(p)
  {
    hide CleanParts, Join, Split;
    var ups := CleanedReadsBack(p);
    var parts := PartsOf(p);
    if parts != [] {
      assert [] + parts == parts;
      if Rooted(p) {
        SplitSlashFirst("", Clean(p)[1..]);
        assert "" + "/" + Clean(p)[1..] == Clean(p);
        DownIsClean(parts);
      } else {
        FormIsClean([], parts, ups);
      }
    } else if Rooted(p) {
      SlashParts();
    } else {
      DotParts();
    }
  }

  lemma DownIsClean(parts: seq<string>)
    requires UpsThenDown(parts, 0)
    ensures CleanParts(true, [], [""] + parts) == parts
  {
    assert ([""] + parts)[1..] == parts;
    DownIsKept([], parts);
    assert [] + parts == parts;
  }

  lemma {:induction false} DownIsKept(done: seq<string>, parts: seq<string>)
    requires "" !in done && UpsThenDown(parts, 0)
    ensures CleanParts(true, done, parts) == done + parts
    decreases |parts|
  {
    if parts == [] {
      assert done + parts == done;
    } else {
      DownIsKept(done + [parts[0]], parts[1..]);
      assert done + [parts[0]] + parts[1..] == done + parts;
    }
  }

  lemma SlashParts()
    ensures SplitSlash("/") == ["", ""] && CleanParts(true, [], ["", ""]) == []
  {
    SplitSlashFirst("", "");
    assert "" + "/" + "" == "/" && ["", ""][1..] == [""] && [""][1..] == [];
  }

  lemma DotParts()
    ensures SplitSlash(".") == ["."] && CleanParts(false, [], ["."]) == []
  {
    SplitSlashFirst(".", "");
    assert ["."][1..] == [];
  }

  // ----- one rule for each text, in order

  /** The text is an exclusion when it begins with '!', and the rest is its pattern. */
  lemma OneRule(p: string)
    requires Prepared(p) != "" && Prepared(p) != "!"
    ensures |RuleFrom(Prepared(p))| == 1
    ensures var r := RuleFrom(Prepared(p))[0];
            && (r.exclusion <==> Prepared(p)[0] == '!')
            && (if r.exclusion then "!" + r.pattern else r.pattern) == Prepared(p)
            && Join(r.dirs, '/') == r.pattern && forall d :: d in r.dirs ==> '/' !in d
  {
    hide Prepared;
    var r := RuleFrom(Prepared(p))[0];
    JoinOfSplit(r.pattern, '/');
    assert Prepared(p) == [Prepared(p)[0]] + Prepared(p)[1..];
  }

  lemma NoRule(p: string)
    requires Prepared(p) == "" || Prepared(p) == "!"
    ensures RuleFrom(Prepared(p)) == []
  {
  }

  lemma {:induction false} RulesInOrder(a: seq<string>, b: seq<string>)
    ensures RulesFrom(a + b) == RulesFrom(a) + RulesFrom(b)
    decreases |b|
  {
    hide RuleFrom, Prepared;
    if b == [] {
      assert a + b == a;
    } else {
      var n := |b| - 1;
      assert (a + b)[..|a| + n] == a + b[..n];
      RulesInOrder(a, b[..n]);
    }
  }

  lemma OnePattern(p: string)
    ensures RulesFrom([p]) == RuleFrom(Prepared(p))
  {
    hide RuleFrom, Prepared;
    assert [p][..0] == [] && RulesFrom([]) == [];
  }

  // ----- which text decides

  predicate Marked(text: string) {
    text != "" && text[0] == '!'
  }

  /** A text without its mark. */
  function Unmarked(text: string): string {
    if Marked(text) then text[1..] else text
  }

  /** The pattern accepts the path, or the directory above it at the depth of the pattern. */
  ghost predicate TextCovers(p: string, file: Path) {
    var text := Prepared(p);
    text != "" && text != "!"
    && (var body := Unmarked(text);
        || Accepts(body, Slashed(file))
        || (var n := |SplitSlash(body)|;
            n < |file| && Accepts(body, Slashed(file[..n]))))
  }

  ghost predicate Decides(patterns: seq<string>, i: int, file: Path)
    requires 0 <= i < |patterns|
  {
    TextCovers(patterns[i], file) && forall j :: i < j < |patterns| ==> !TextCovers(patterns[j], file)
  }

  /** The last text that covers the path has no '!' in front. */
  ghost predicate IgnoredByTexts(patterns: seq<string>, file: Path) {
    exists i :: 0 <= i < |patterns| && Decides(patterns, i, file) && !Marked(Prepared(patterns[i]))
  }

  lemma PlainTail(p: string)
    requires Plain(p) && p != "" && p[0] == '!'
    ensures Plain(p[1..])
  {
  }

  lemma RuleIsOk(p: string)
    requires Plain(Prepared(p))
    ensures RulesOk(RuleFrom(Prepared(p)))
  {
    hide Prepared, Plain;
    if Prepared(p) != "" && Prepared(p)[0] == '!' {
      PlainTail(Prepared(p));
    }
  }

  lemma RuleCovers(p: string, file: Path)
    requires Plain(Prepared(p)) && Prepared(p) != "" && Prepared(p) != "!"
    ensures |RuleFrom(Prepared(p))| == 1 && RuleFrom(Prepared(p))[0].Valid()
    ensures RuleFrom(Prepared(p))[0].Covers(file) <==> TextCovers(p, file)
    ensures RuleFrom(Prepared(p))[0].exclusion <==> Prepared(p)[0] == '!'
  {
    hide Prepared, Plain, Accepts, RegexpOf, Regexp.MatchString;
    RuleIsOk(p);
    var r := RuleFrom(Prepared(p))[0];
    assert r in RuleFrom(Prepared(p)) && r.pattern == Unmarked(Prepared(p));
    CompiledAccepts(r.pattern, Slashed(file));
    if |r.dirs| < |file| {
      CompiledAccepts(r.pattern, Slashed(file[..|r.dirs|]));
    }
  }

  lemma {:induction false} RulesAreOk(patterns: seq<string>)
    requires Usable(patterns)
    ensures RulesOk(RulesFrom(patterns))
  {
    hide Prepared, Plain, RuleFrom, Rule.Valid;
    if patterns != [] {
      var n := |patterns| - 1;
      assert patterns[n] in patterns && forall p :: p in patterns[..n] ==> p in patterns;
      RulesAreOk(patterns[..n]);
      RuleIsOk(patterns[n]);
    }
  }

  lemma DecidesFront(patterns: seq<string>, n: nat, i: int, file: Path)
    requires n == |patterns| - 1 && 0 <= i < n
    ensures Decides(patterns, i, file) <==> Decides(patterns[..n], i, file) && !TextCovers(patterns[n], file)
  {
    hide TextCovers;
    forall j | 0 <= j < n ensures patterns[..n][j] == patterns[j] {
    }
  }

  lemma ByFront(patterns: seq<string>, n: nat, file: Path)
    requires n == |patterns| - 1
    ensures IgnoredByTexts(patterns, file) <==>
              if TextCovers(patterns[n], file) then !Marked(Prepared(patterns[n]))
              else IgnoredByTexts(patterns[..n], file)
  {
    hide TextCovers, Prepared, Decides;
    forall i | 0 <= i < n
      ensures Decides(patterns, i, file) <==> Decides(patterns[..n], i, file) && !TextCovers(patterns[n], file)
    {
      DecidesFront(patterns, n, i, file);
    }
    assert Decides(patterns, n, file) <==> TextCovers(patterns[n], file) by {
      LastDecides(patterns, n, file);
    }
    if !TextCovers(patterns[n], file) && IgnoredByTexts(patterns[..n], file) {
      var i :| 0 <= i < n && Decides(patterns[..n], i, file) && !Marked(Prepared(patterns[..n][i]));
      assert Decides(patterns, i, file) && patterns[..n][i] == patterns[i];
    }
  }

  lemma LastDecides(patterns: seq<string>, n: nat, file: Path)
    requires n == |patterns| - 1
    ensures Decides(patterns, n, file) <==> TextCovers(patterns[n], file)
  {
  }

  lemma CoveringText(p: string, file: Path)
    requires TextCovers(p, file)
    ensures Prepared(p) != ""
  {
  }

  /** A path is ignored exactly when the last text that covers it is no exclusion. */
  lemma {:induction false} LastTextWins(patterns: seq<string>, file: Path)
    requires Usable(patterns)
    ensures RulesOk(RulesFrom(patterns)) && (Ignored(RulesFrom(patterns), file) <==> IgnoredByTexts(patterns, file))
  {
    hide TextCovers, Prepared, Plain, RuleFrom, Rule.Valid, Rule.Covers, IgnoredByTexts;
    RulesAreOk(patterns);
    if patterns == [] {
      NothingIgnored(file);
    } else {
      var n := |patterns| - 1;
      var last := patterns[n];
      assert last in patterns && forall p :: p in patterns[..n] ==> p in patterns;
      LastTextWins(patterns[..n], file);
      ByFront(patterns, n, file);
      var front, rules := RulesFrom(patterns[..n]), RulesFrom(patterns);
      if Prepared(last) == "" || Prepared(last) == "!" {
        NoRule(last);
        NothingCovered(last, file);
        assert rules == front;
      } else {
        RuleCovers(last, file);
        assert rules == front + [RuleFrom(Prepared(last))[0]];
        assert rules[..|front|] == front && rules[|front|] in rules;
        OneMoreRule(rules, |front|, file);
        assert rules[..|front| + 1] == rules;
      }
    }
  }

  lemma NothingIgnored(file: Path)
    ensures !IgnoredByTexts([], file)
  {
  }

  lemma NothingCovered(p: string, file: Path)
    requires Prepared(p) == "" || Prepared(p) == "!"
    ensures !TextCovers(p, file)
  {
  }

  /** A single name without space at its ends is read as it is written. */
  lemma PlainName(p: string)
    requires '/' !in p && p !in {"", ".", ".."} && !IsSpace(p[0]) && !IsSpace(p[|p| - 1])
    ensures Prepared(p) == p
  {
    SplitFirst(p, '/', "");
    assert [p][1..] == [] && [] + [p] == [p];
    assert p[0] in p;
    assert CleanParts(false, [], [p]) == [p];
  }

  lemma ShortTexts()
    ensures Accepts("*", "a") && !Accepts("b", "a") && Accepts("b", "b")
  {
    assert "b"[1..] == "" && "*"[1..] == "" && "a"[1..] == "";
    assert "a"[..1] == "a" && '/' !in "a";
  }

  /** "*" and then "!b": everything at the top is ignored, but for b. */
  lemma StarButB()
    ensures IgnoredByTexts(["*", "!b"], ["a"]) && !IgnoredByTexts(["*", "!b"], ["b"])
  {
    var patterns := ["*", "!b"];
    hide Prepared, Accepts;
    PlainName("*");
    PlainName("!b");
    assert "!b"[1..] == "b";
    ShortTexts();
    assert Slashed(["a"]) == "a" && Slashed(["b"]) == "b";
    SplitFirst("b", '/', "");
    assert Decides(patterns, 0, ["a"]) && !Marked(Prepared(patterns[0]));
    assert TextCovers(patterns[1], ["b"]);
  }
}
