/** Byte-wise string order and slash-separated paths. */
module Text {
  /** A path relative to a root, one component per element; the root itself is []. */
  type Path = seq<string>

  /** The order of Go's `<` on strings. */
  predicate Less(a: string, b: string) {
    b != "" && (a == "" || a[0] < b[0] || (a[0] == b[0] && Less(a[1..], b[1..])))
  }

  predicate HasPrefix(s: string, prefix: string) {
    prefix <= s
  }

  /** A directory entry's name, as the operating system allows it. */
  predicate ValidName(name: string) {
    name != "" && '/' !in name && name != "." && name != ".."
  }

  /** "/a/b" for ["a", "b"], and "" for the root. */
  function Render(p: Path): string {
    if p == [] then "" else "/" + p[0] + Render(p[1..])
  }

  /** The absolute path string of a node: "/" for the root. */
  function PathString(p: Path): string {
    if p == [] then "/" else Render(p)
  }

  function Parent(p: Path): Path
    requires p != []
  {
    p[..|p| - 1]
  }

  function Base(p: Path): string
    requires p != []
  {
    p[|p| - 1]
  }

  /** strings.Split for a separator of one character. */
  function Split(s: string, sep: char): (parts: seq<string>)
    ensures parts != []
  {
    if s == "" then [""]
    else
      var rest := Split(s[1..], sep);
      if s[0] == sep then [""] + rest else [[s[0]] + rest[0]] + rest[1..]
  }

  function SplitSlash(s: string): (parts: seq<string>)
    ensures parts != []
  {
    Split(s, '/')
  }

  /** strings.Join for a separator of one character. */
  function Join(parts: seq<string>, sep: char): string {
    if parts == [] then ""
    else if |parts| == 1 then parts[0]
    else parts[0] + [sep] + Join(parts[1..], sep)
  }

  /** Lexical cleaning of the components that follow an absolute path. */
  function CleanOnto(base: Path, parts: seq<string>): Path
    decreases |parts|
  {
    if parts == [] then base
    else if parts[0] == "" || parts[0] == "." then CleanOnto(base, parts[1..])
    else if parts[0] == ".." then CleanOnto(if base == [] then [] else base[..|base| - 1], parts[1..])
    else CleanOnto(base + [parts[0]], parts[1..])
  }

  /** The components of a cleaned path: ".." takes the one before it away, or is kept at the front of a
      path that does not begin with a slash. */
  function CleanParts(rooted: bool, done: seq<string>, parts: seq<string>): (clean: seq<string>)
    requires "" !in done
    ensures "" !in clean
    decreases |parts|
  {
    if parts == [] then done
    else
      var part, rest := parts[0], parts[1..];
      if part == "" || part == "." then CleanParts(rooted, done, rest)
      else if part != ".." then CleanParts(rooted, done + [part], rest)
      else if done != [] && done[|done| - 1] != ".." then CleanParts(rooted, done[..|done| - 1], rest)
      else CleanParts(rooted, if rooted then done else done + [".."], rest)
  }

  /** A relative path that climbs `ups` directories and then only goes down. */
  ghost predicate UpsThenDown(parts: seq<string>, ups: nat) {
    && ups <= |parts|
    && (forall i :: 0 <= i < ups ==> parts[i] == "..")
    && (forall i :: ups <= i < |parts| ==> parts[i] !in {"", ".", ".."})
  }

  /** Where such a path leads from an absolute one; above the root there is nothing. */
  function Climb(base: Path, ups: nat): Path {
    base[..if ups <= |base| then |base| - ups else 0]
  }

  lemma {:induction false} CleanPartsConcat(rooted: bool, done: seq<string>, a: seq<string>, b: seq<string>)
    requires "" !in done
    ensures CleanParts(rooted, done, a + b) == CleanParts(rooted, CleanParts(rooted, done, a), b)
    decreases |a|
  {
    if a == [] {
      assert a + b == b;
    } else {
      assert (a + b)[1..] == a[1..] + b;
      var part := a[0];
      if part == "" || part == "." {
        CleanPartsConcat(rooted, done, a[1..], b);
      } else if part != ".." {
        CleanPartsConcat(rooted, done + [part], a[1..], b);
      } else if done != [] && done[|done| - 1] != ".." {
        CleanPartsConcat(rooted, done[..|done| - 1], a[1..], b);
      } else {
        CleanPartsConcat(rooted, if rooted then done else done + [".."], a[1..], b);
      }
    }
  }

  /** Cleaning drops empty components and dots, and a name together with the ".." behind it. */
  lemma CleaningDrops(rooted: bool, a: seq<string>, part: string, b: seq<string>)
    ensures part == "" || part == "." ==> CleanParts(rooted, [], a + [part] + b) == CleanParts(rooted, [], a + b)
    ensures part !in {"", ".", ".."} ==>
              CleanParts(rooted, [], a + [part, ".."] + b) == CleanParts(rooted, [], a + b)
    ensures CleanParts(true, [], [".."] + b) == CleanParts(true, [], b)
  {
    CleanPartsConcat(rooted, [], a, b);
    CleanPartsConcat(rooted, [], a + [part], b);
    CleanPartsConcat(rooted, [], a, [part]);
    CleanPartsConcat(rooted, [], a + [part, ".."], b);
    CleanPartsConcat(rooted, [], a, [part, ".."]);
    var done := CleanParts(rooted, [], a);
    assert [part][1..] == [] && [part, ".."][1..] == [".."] && [".."][1..] == [];
    if part !in {"", ".", ".."} {
      assert (done + [part])[..|done|] == done;
    }
    assert ([".."] + b)[1..] == b;
  }

  /** What is left is a path of the simplest kind; the one of an absolute path has no ".." at all. */
  lemma {:induction false} CleanedForm(rooted: bool, done: seq<string>, parts: seq<string>, ups: nat)
    returns (k: nat)
    requires "" !in done && UpsThenDown(done, ups) && (rooted ==> ups == 0)
    ensures UpsThenDown(CleanParts(rooted, done, parts), k) && (rooted ==> k == 0)
    decreases |parts|
  {
    if parts == [] {
      k := ups;
    } else {
      var part, rest := parts[0], parts[1..];
      if part == "" || part == "." {
        k := CleanedForm(rooted, done, rest, ups);
      } else if part != ".." {
        k := CleanedForm(rooted, done + [part], rest, ups);
      } else if done != [] && done[|done| - 1] != ".." {
        k := CleanedForm(rooted, done[..|done| - 1], rest, ups);
      } else if rooted {
        assert done == [];
        k := CleanedForm(rooted, done, rest, ups);
      } else {
        assert ups == |done|;
        k := CleanedForm(rooted, done + [".."], rest, ups + 1);
      }
    }
  }

  /** A path of that kind is clean. */
  lemma {:induction false} FormIsClean(done: seq<string>, parts: seq<string>, ups: nat)
    requires "" !in done && UpsThenDown(done + parts, ups)
    ensures CleanParts(false, done, parts) == done + parts
    decreases |parts|
  {
    if parts == [] {
      assert done + parts == done;
    } else {
      var all := done + parts;
      assert all[|done|] == parts[0];
      assert done + [parts[0]] + parts[1..] == all;
      assert parts[0] == ".." && done != [] ==> all[|done| - 1] == "..";
      FormIsClean(done + [parts[0]], parts[1..], ups);
    }
  }

  /** Only one number of ".." fits. */
  lemma OneForm(parts: seq<string>, j: nat, k: nat)
    requires UpsThenDown(parts, j) && UpsThenDown(parts, k)
    ensures j == k
  {
    var x, y := if j < |parts| then parts[j] else "", if k < |parts| then parts[k] else "";
  }

  /** Resolving a relative path from an absolute one: clean it, climb, and go down. */
  lemma {:induction false} ResolvesTo(base: Path, done: seq<string>, parts: seq<string>, ups: nat, k: nat)
    requires "" !in done && UpsThenDown(done, ups)
    requires UpsThenDown(CleanParts(false, done, parts), k)
    ensures CleanOnto(Climb(base, ups) + done[ups..], parts)
         == Climb(base, k) + CleanParts(false, done, parts)[k..]
    decreases |parts|
  {
    var here := Climb(base, ups) + done[ups..];
    if parts == [] {
      OneForm(done, ups, k);
    } else {
      var part, rest := parts[0], parts[1..];
      if part == "" || part == "." {
        ResolvesTo(base, done, rest, ups, k);
      } else if part != ".." {
        ResolvesTo(base, done + [part], rest, ups, k);
        assert (done + [part])[ups..] == done[ups..] + [part];
        assert here + [part] == Climb(base, ups) + (done + [part])[ups..];
      } else if done != [] && done[|done| - 1] != ".." {
        assert ups < |done|;
        ResolvesTo(base, done[..|done| - 1], rest, ups, k);
        assert here[..|here| - 1] == Climb(base, ups) + done[..|done| - 1][ups..];
      } else {
        assert ups == |done|;
        ResolvesTo(base, done + [".."], rest, ups + 1, k);
        assert done[ups..] == [] && (done + [".."])[ups + 1..] == [];
        assert here == Climb(base, ups);
        assert (if here == [] then [] else here[..|here| - 1]) == Climb(base, ups + 1) + (done + [".."])[ups + 1..];
      }
    }
  }

  lemma {:induction false} SplitFirst(a: string, sep: char, rest: string)
    requires sep !in a
    ensures Split(a, sep) == [a]
    ensures Split(a + [sep] + rest, sep) == [a] + Split(rest, sep)
  {
    var s := a + [sep] + rest;
    if a == "" {
      assert s[1..] == rest;
    } else {
      SplitFirst(a[1..], sep, rest);
      assert s[1..] == a[1..] + [sep] + rest && a == [a[0]] + a[1..];
    }
  }

  /** Splitting undoes joining, unless a part has the separator or there is none. */
  lemma {:induction false} SplitJoin(parts: seq<string>, sep: char)
    requires parts != [] && forall p :: p in parts ==> sep !in p
    ensures Split(Join(parts, sep), sep) == parts
  {
    if |parts| == 1 {
      SplitFirst(parts[0], sep, "");
    } else {
      SplitFirst(parts[0], sep, Join(parts[1..], sep));
      SplitJoin(parts[1..], sep);
    }
  }

  /** The parts of a text have no separator, and joining them gives the text. */
  lemma {:induction false} JoinOfSplit(s: string, sep: char)
    ensures Join(Split(s, sep), sep) == s
    ensures forall part :: part in Split(s, sep) ==> sep !in part
  {
    if s != "" {
      var rest := Split(s[1..], sep);
      JoinOfSplit(s[1..], sep);
      assert s == [s[0]] + s[1..];
      if s[0] == sep {
        assert ([""] + rest)[1..] == rest;
      } else {
        var parts := [[s[0]] + rest[0]] + rest[1..];
        assert rest == [rest[0]] + rest[1..];
        assert parts[1..] == rest[1..];
        assert sep !in rest[0];
      }
    }
  }

  lemma SplitSlashFirst(a: string, rest: string)
    requires '/' !in a
    ensures SplitSlash(a) == [a]
    ensures SplitSlash(a + "/" + rest) == [a] + SplitSlash(rest)
  {
    SplitFirst(a, '/', rest);
  }

  /** Without a ".." the cleaned path stays below where it starts. */
  lemma {:induction false} CleanOntoGrows(base: Path, parts: seq<string>)
    requires ".." !in parts
    ensures base <= CleanOnto(base, parts)
    decreases |parts|
  {
    if parts != [] {
      assert ".." !in parts[1..];
      CleanOntoGrows(base, parts[1..]);
      CleanOntoGrows(base + [parts[0]], parts[1..]);
    }
  }

  lemma {:induction false} LessTotal(a: string, b: string)
    ensures Less(a, b) || a == b || Less(b, a)
  {
    if a != "" && b != "" {
      LessTotal(a[1..], b[1..]);
      assert a == [a[0]] + a[1..] && b == [b[0]] + b[1..];
    }
  }

  lemma {:induction false} LessTransitive(a: string, b: string, c: string)
    requires Less(a, b) && Less(b, c)
    ensures Less(a, c)
  {
    if a != "" && a[0] == b[0] == c[0] {
      LessTransitive(a[1..], b[1..], c[1..]);
    }
  }

  lemma {:induction false} LessIrreflexive(a: string)
    ensures !Less(a, a)
  {
    if a != "" {
      LessIrreflexive(a[1..]);
    }
  }

  /** The first place where the texts differ decides, by the smaller character or by the shorter text. */
  lemma {:induction false} LessIs(a: string, b: string)
    ensures Less(a, b)
       <==> exists k :: 0 <= k <= |a| && k < |b| && a[..k] == b[..k] && (k == |a| || a[k] < b[k])
  {
    if a != "" && b != "" && a[0] == b[0] {
      LessIs(a[1..], b[1..]);
      if Less(a, b) {
        var k :| 0 <= k <= |a[1..]| && k < |b[1..]| && a[1..][..k] == b[1..][..k]
                 && (k == |a[1..]| || a[1..][k] < b[1..][k]);
        assert a[..k + 1] == [a[0]] + a[1..][..k] && b[..k + 1] == [b[0]] + b[1..][..k];
      }
      if k :| 0 <= k <= |a| && k < |b| && a[..k] == b[..k] && (k == |a| || a[k] < b[k]) {
        assert k > 0;
        assert a[1..][..k - 1] == a[..k][1..] && b[1..][..k - 1] == b[..k][1..];
      }
    } else if b != "" && (a == "" || a[0] < b[0]) {
      assert a[..0] == b[..0];
    } else {
      assert forall k :: 0 < k <= |a| && k < |b| ==> a[..k][0] == a[0] && b[..k][0] == b[0];
    }
  }

  /** A proper prefix sorts first, so a directory sorts before everything in it. */
  lemma {:induction false} ProperPrefixIsLess(a: string, b: string)
    requires a < b
    ensures Less(a, b)
  {
    if a != "" {
      ProperPrefixIsLess(a[1..], b[1..]);
    }
  }

  lemma {:induction false} RenderConcat(p: Path, q: Path)
    ensures Render(p + q) == Render(p) + Render(q)
  {
    if p == [] {
      assert p + q == q;
    } else {
      assert (p + q)[1..] == p[1..] + q;
      RenderConcat(p[1..], q);
    }
  }

  ghost predicate ValidPath(p: Path) {
    forall i :: 0 <= i < |p| ==> ValidName(p[i])
  }

  /** Sorting by path string puts every directory before its contents. */
  lemma AncestorIsLess(p: Path, q: Path)
    requires p < q && ValidPath(q)
    ensures Less(PathString(p), PathString(q))
  {
    var rest := q[|p|..];
    assert q == p + rest && rest[0] == q[|p|];
    RenderConcat(p, rest);
    assert Render(rest) == "/" + rest[0] + Render(rest[1..]);
    assert PathString(p) < PathString(q);
    ProperPrefixIsLess(PathString(p), PathString(q));
  }

  lemma {:induction false} RenderInjective(p: Path, q: Path)
    requires ValidPath(p) && ValidPath(q) && Render(p) == Render(q)
    ensures p == q
  {
    if p != [] && q != [] {
      var a, b, s, t := p[0], q[0], Render(p[1..]), Render(q[1..]);
      assert ("/" + a + s)[1..] == a + s && ("/" + b + t)[1..] == b + t;
      SplitUnique(a, s, b, t);
      RenderInjective(p[1..], q[1..]);
      assert p == [a] + p[1..] && q == [b] + q[1..];
    }
  }

  /** A slash-free head followed by nothing or a slash is determined by the whole. */
  lemma SplitUnique(a: string, s: string, b: string, t: string)
    requires a + s == b + t && '/' !in a && '/' !in b
    requires (s == "" || s[0] == '/') && (t == "" || t[0] == '/')
    ensures a == b && s == t
  {
    var w := a + s;
    assert w == b + t;
    assert forall i :: 0 <= i < |a| ==> w[i] == a[i];
    assert forall i :: 0 <= i < |b| ==> w[i] == b[i];
    assert s != "" ==> w[|a|] == s[0];
    assert t != "" ==> w[|b|] == t[0];
    assert |a| == |b|;
    assert a == w[..|a|] == b;
    assert s == w[|a|..] == t;
  }

  lemma {:induction false} RenderJoin(p: Path)
    requires p != []
    ensures Render(p) == "/" + Join(p, '/')
  {
    if |p| > 1 {
      RenderJoin(p[1..]);
    } else {
      assert p[1..] == [];
    }
  }

  /** A path's text is its components, each after a slash. */
  lemma RenderSplit(p: Path)
    requires ValidPath(p)
    ensures SplitSlash(Render(p)) == [""] + p
  {
    if p == [] {
      assert [""] + p == [""];
    } else {
      RenderJoin(p);
      assert forall part :: part in p ==> ValidName(part);
      SplitJoin(p, '/');
      SplitSlashFirst("", Join(p, '/'));
      assert "" + "/" + Join(p, '/') == Render(p);
    }
  }

  lemma HeadOfText(a: string, b: string, s: string)
    requires '/' !in a && '/' !in b && (s == "" || s[0] == '/')
    ensures a <= b + s <==> a <= b
  {
    var w := b + s;
    assert |b| < |w| ==> w[|b|] == '/';
    if a <= w {
      assert forall i :: 0 <= i < |a| ==> a[i] == w[i];
      assert a == w[..|a|];
    }
    if a <= b {
      assert w[..|a|] == b[..|a|];
    }
  }

  lemma TailsOfText(a: string, s: string, b: string, t: string)
    requires '/' !in a && '/' !in b && s != "" && s[0] == '/' && (t == "" || t[0] == '/')
    ensures a + s <= b + t <==> a == b && s <= t
  {
    var v, w := a + s, b + t;
    assert v[|a|] == '/' && (|b| < |w| ==> w[|b|] == '/');
    if v <= w {
      assert forall i :: 0 <= i < |v| ==> v[i] == w[i];
      assert forall i :: 0 <= i < |b| && i < |v| ==> b[i] == v[i];
      assert forall i :: 0 <= i < |a| && i < |w| ==> a[i] == w[i];
      assert |a| == |b|;
      assert a == v[..|a|] == w[..|a|] == b;
      assert s == v[|a|..] && t == w[|a|..];
      assert w[|a|..][..|s|] == w[..|v|][|a|..];
    }
    if a == b && s <= t {
      assert w[..|v|] == v;
    }
  }

  lemma RenderStarts(p: Path)
    ensures Render(p) == "" <==> p == []
    ensures p != [] ==> Render(p) == "/" + p[0] + Render(p[1..]) && Render(p)[0] == '/'
  {
  }

  lemma Regroup(a: string, b: string, c: string)
    ensures a + b + c == a + (b + c)
  {
  }

  lemma ValidTail(p: Path)
    requires ValidPath(p) && p != []
    ensures '/' !in p[0] && ValidPath(p[1..])
  {
    assert ValidName(p[0]);
    forall i | 0 <= i < |p[1..]| ensures ValidName(p[1..][i]) {
      assert p[1..][i] == p[i + 1];
    }
  }

  lemma RenderFirst(p: Path)
    requires ValidPath(p) && p != []
    ensures Render(p) == "/" + (p[0] + Render(p[1..]))
    ensures '/' !in p[0] && ValidPath(p[1..])
    ensures Render(p[1..]) == "" <==> |p| == 1
    ensures Render(p[1..]) != "" ==> Render(p[1..])[0] == '/'
  {
    hide *;
    ValidTail(p);
    RenderStarts(p);
    RenderStarts(p[1..]);
    Regroup("/", p[0], Render(p[1..]));
  }

  lemma SlashFirst(s: string, t: string)
    ensures "/" + s <= "/" + t <==> s <= t
  {
    assert ("/" + s)[1..] == s && ("/" + t)[1..] == t;
    if "/" + s <= "/" + t {
      assert ("/" + t)[..|s| + 1][1..] == t[..|s|];
    }
  }

  /** When the text of one path begins with that of another: the same components but for the last,
      which has to begin alike. */
  lemma {:induction false} TextBeginsIff(p: Path, q: Path)
    requires ValidPath(p) && ValidPath(q) && p != []
    ensures Render(p) <= Render(q)
       <==> |p| <= |q| && p[..|p| - 1] == q[..|p| - 1] && Base(p) <= q[|p| - 1]
  {
    hide Render, ValidPath;
    RenderFirst(p);
    if q == [] {
      RootText();
    } else {
      RenderFirst(q);
      var a, b, s, t := p[0], q[0], Render(p[1..]), Render(q[1..]);
      SlashFirst(a + s, b + t);
      if |p| == 1 {
        assert a + s == a && p[..0] == q[..0];
        HeadOfText(a, b, t);
      } else {
        TextBeginsIff(p[1..], q[1..]);
        TailsOfText(a, s, b, t);
        assert p[..|p| - 1] == [a] + p[1..][..|p| - 2];
        assert |p| <= |q| ==> q[..|p| - 1] == [b] + q[1..][..|p| - 2];
      }
    }
  }

  lemma RootText()
    ensures Render([]) == ""
  {
  }

  /** Path strings tell paths apart, so sorting by them is a total order on paths. */
  lemma PathStringInjective(p: Path, q: Path)
    requires ValidPath(p) && ValidPath(q) && PathString(p) == PathString(q)
    ensures p == q
  {
    if p != [] && q != [] {
      RenderInjective(p, q);
    }
  }
}
