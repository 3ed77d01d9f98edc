/** Glob patterns, their translation into a regular expression, and what they match. */
module GlobPatterns {
  import opened Wrappers
  import opened Regexp

  // ----- the meaning of a pattern, without regular expressions

  predicate StartsDoubleStar(p: string) {
    |p| >= 2 && p[0] == '*' && p[1] == '*'
  }

  /** What follows a "**", which takes a slash behind it along. */
  function AfterDoubleStar(p: string): string
    requires StartsDoubleStar(p)
  {
    if |p| > 2 && p[2] == '/' then p[3..] else p[2..]
  }

  /** "**" stands for any number of leading directories, or at the end for everything; "*" for anything
      without a slash; "?" for one character but a slash; a backslash takes the next character as it is. */
  predicate Glob(p: string, path: string)
    decreases |p|
  {
    if p == "" then path == ""
    else if StartsDoubleStar(p) then
      var rest := AfterDoubleStar(p);
      rest == "" || Glob(rest, path) || exists k :: 0 <= k < |path| && path[k] == '/' && Glob(rest, path[k + 1..])
    else if p[0] == '*' then
      exists k :: 0 <= k <= |path| && '/' !in path[..k] && Glob(p[1..], path[k..])
    else if p[0] == '?' then
      path != "" && path[0] != '/' && Glob(p[1..], path[1..])
    else if p[0] == '\\' then
      |p| >= 2 && path != "" && path[0] == p[1] && Glob(p[2..], path[1..])
    else
      path != "" && path[0] == p[0] && Glob(p[1..], path[1..])
  }

  /** What the code makes of a pattern: the same, but that "**" stands for nothing with a newline. */
  predicate Accepts(p: string, path: string)
    decreases |p|
  {
    if p == "" then path == ""
    else if StartsDoubleStar(p) then
      var rest := AfterDoubleStar(p);
      if rest == "" then '\n' !in path
      else
        || Accepts(rest, path)
        || exists k :: 0 <= k < |path| && path[k] == '/' && '\n' !in path[..k] && Accepts(rest, path[k + 1..])
    else if p[0] == '*' then
      exists k :: 0 <= k <= |path| && '/' !in path[..k] && Accepts(p[1..], path[k..])
    else if p[0] == '?' then
      path != "" && path[0] != '/' && Accepts(p[1..], path[1..])
    else if p[0] == '\\' then
      |p| >= 2 && path != "" && path[0] == p[1] && Accepts(p[2..], path[1..])
    else
      path != "" && path[0] == p[0] && Accepts(p[1..], path[1..])
  }

  /** The patterns this speaks of: no character that only regular expressions know, unless a
      backslash and punctuation. */
  predicate Plain(p: string) {
    if p == "" then true
    else if p[0] == '\\' then |p| >= 2 && Punctuation(p[1]) && Plain(p[2..])
    else (Ordinary(p[0]) || p[0] in "*?.$") && Plain(p[1..])
  }

  // ----- the translation

  /** How many characters the translation reads at once. */
  function StepLength(p: string): (n: nat)
    requires p != ""
    ensures 0 < n <= |p|
  {
    if StartsDoubleStar(p) then |p| - |AfterDoubleStar(p)|
    else if p[0] == '\\' && |p| > 1 then 2 else 1
  }

  /** The piece of expression for them. */
  function StepText(p: string): string
    requires p != ""
  {
    if StartsDoubleStar(p) then if AfterDoubleStar(p) == "" then ".*" else "(.*/)?"
    else if p[0] == '*' then "[^/]*"
    else if p[0] == '?' then "[^/]"
    else if p[0] == '.' || p[0] == '$' then ['\\', p[0]]
    else if p[0] == '\\' then if |p| == 1 then "\\" else ['\\', p[1]]
    else [p[0]]
  }

  /** The expression for the rest of a pattern, between its anchors. */
  function Translate(p: string): string {
    if p == "" then "" else StepText(p) + Translate(p[StepLength(p)..])
  }

  /** Pattern.compile up to the call of regexp.Compile, for a "/" separator. */
  method Compile(pattern: string) returns (regStr: string)
    ensures regStr == "^" + Translate(pattern) + "$"
  {
    regStr := "^";
    var i := 0;
    while i < |pattern|
      invariant 0 <= i <= |pattern|
      invariant regStr + Translate(pattern[i..]) == "^" + Translate(pattern)
    {
      hide *;
      ghost var j := i;
      var text;
      text, i := CompileNext(pattern, i);
      TranslateStep(pattern, j, i, regStr);
      regStr := regStr + text;
    }
    assert pattern[i..] == "" && regStr + "" == regStr;
    regStr := regStr + "$";
  }

  lemma TranslateStep(pattern: string, j: nat, i: nat, before: string)
    requires j < |pattern| && i == j + StepLength(pattern[j..])
    ensures i <= |pattern|
    ensures before + Translate(pattern[j..]) == before + StepText(pattern[j..]) + Translate(pattern[i..])
  {
    hide StepText, StepLength;
    var p := pattern[j..];
    assert pattern[i..] == p[StepLength(p)..];
    assert before + (StepText(p) + Translate(pattern[i..])) == before + StepText(p) + Translate(pattern[i..]);
  }

  /** One turn of the scanner loop. */
  method CompileNext(pattern: string, at: nat) returns (text: string, i: nat)
    requires at < |pattern|
    ensures text == StepText(pattern[at..]) && i == at + StepLength(pattern[at..])
  {
    ghost var p := pattern[at..];
    var ch := pattern[at];
    i := at + 1;
    if ch == '*' {
      if i < |pattern| && pattern[i] == '*' {
        i := i + 1;
        if i < |pattern| && pattern[i] == '/' {
          i := i + 1;
        }
        assert StartsDoubleStar(p) && AfterDoubleStar(p) == p[i - at..] == pattern[i..];
        if i == |pattern| {
          text := ".*";
        } else {
          text := "(.*/)?";
        }
      } else {
        text := "[^/]*";
      }
    } else if ch == '?' {
      text := "[^/]";
    } else if ch == '.' || ch == '$' {
      text := ['\\', ch];
    } else if ch == '\\' {
      if i < |pattern| {
        text := ['\\', pattern[i]];
        i := i + 1;
      } else {
        text := "\\";
      }
    } else {
      text := [ch];
    }
  }

  // ----- the expression that the text stands for

  function StepItem(p: string): Re
    requires p != "" && Plain(p)
  {
    if StartsDoubleStar(p) then
      if AfterDoubleStar(p) == "" then Star(AnyChar) else Optional(Group([Star(AnyChar), Literal('/')]))
    else if p[0] == '*' then Star(Except('/'))
    else if p[0] == '?' then Except('/')
    else if p[0] == '\\' then Literal(p[1])
    else Literal(p[0])
  }

  lemma PlainRest(p: string)
    requires p != "" && Plain(p)
    ensures Plain(p[StepLength(p)..])
  {
    if StartsDoubleStar(p) {
      assert Plain(p[1..]) && p[1..][0] == '*' && p[1..][1..] == p[2..];
      assert Plain(p[2..]);
      if |p| > 2 && p[2] == '/' {
        assert p[2..][0] == '/' && p[2..][1..] == p[3..];
      }
    }
  }

  function Items(p: string): seq<Re>
    requires Plain(p)
  {
    if p == "" then [End]
    else
      PlainRest(p);
      [StepItem(p)] + Items(p[StepLength(p)..])
  }

  /** No piece of the expression is read as a quantifier of the one before. */
  lemma NoQuantifier(p: string)
    requires Plain(p)
    ensures Translate(p) + "$" != "" && !Quantifier((Translate(p) + "$")[0]) && (Translate(p) + "$")[0] != ')'
  {
  }

  lemma ParseStep(p: string, rest: string)
    requires p != "" && Plain(p)
    requires rest != "" && !Quantifier(rest[0])
    ensures ParseItem(StepText(p) + rest) == Some((StepItem(p), rest))
  {
    if StartsDoubleStar(p) {
      if AfterDoubleStar(p) == "" {
        AnyStar(rest);
      } else {
        DirsGroup(rest);
      }
    } else if p[0] == '*' || p[0] == '?' {
      NotSlash(rest);
    } else if p[0] == '.' || p[0] == '$' || p[0] == '\\' {
      Escaped(if p[0] == '\\' then p[1] else p[0], rest);
    } else {
      Itself(p[0], rest);
    }
  }

  lemma NotSlash(rest: string)
    requires rest != "" && !Quantifier(rest[0])
    ensures ParseItem("[^/]*" + rest) == Some((Star(Except('/')), rest))
    ensures ParseItem("[^/]" + rest) == Some((Except('/'), rest))
  {
    hide ParseItems, ParseAtom;
    assert "[^/]*" + rest == "[^/]" + ("*" + rest) && ("*" + rest)[1..] == rest;
    NotSlashAtom("*" + rest);
    NotSlashAtom(rest);
  }

  lemma NotSlashAtom(rest: string)
    ensures ParseAtom("[^/]" + rest) == Some((Except('/'), rest))
  {
    hide ParseItems;
    assert ("[^/]" + rest)[4..] == rest;
  }

  lemma Escaped(c: char, rest: string)
    requires rest != "" && !Quantifier(rest[0]) && Punctuation(c)
    ensures ParseItem(['\\', c] + rest) == Some((Literal(c), rest))
  {
    hide ParseItems;
    assert (['\\', c] + rest)[2..] == rest;
  }

  lemma Itself(c: char, rest: string)
    requires rest != "" && !Quantifier(rest[0]) && Ordinary(c)
    ensures ParseItem([c] + rest) == Some((Literal(c), rest))
  {
    hide ParseItems;
    assert ([c] + rest)[1..] == rest;
  }

  lemma AnyStar(rest: string)
    requires rest != "" && !Quantifier(rest[0])
    ensures ParseItem(".*" + rest) == Some((Star(AnyChar), rest))
  {
    var s := ".*" + rest;
    assert s[1..] == "*" + rest && s[1..][1..] == rest;
    assert ParseAtom(s) == Some((AnyChar, s[1..]));
  }

  lemma DirsGroup(rest: string)
    requires rest != "" && !Quantifier(rest[0])
    ensures ParseItem("(.*/)?" + rest) == Some((Optional(Group([Star(AnyChar), Literal('/')])), rest))
  {
    hide ParseItem, ParseAtom;
    var s := "(.*/)?" + rest;
    var inner := "/)?" + rest;
    var close := ")?" + rest;
    assert s[1..] == ".*" + inner;
    AnyStar(inner);
    Itself('/', close);
    assert ['/'] + close == inner;
    assert ParseItems(close) == Some(([], close));
    MoreItems(inner, Literal('/'), close, [], close);
    assert [Literal('/')] + [] == [Literal('/')];
    MoreItems(s[1..], Star(AnyChar), inner, [Literal('/')], close);
    assert [Star(AnyChar)] + [Literal('/')] == [Star(AnyChar), Literal('/')];
    assert close[1..] == "?" + rest;
    OptionalGroup(s, [Star(AnyChar), Literal('/')], close, rest);
  }

  lemma OptionalGroup(s: string, items: seq<Re>, close: string, rest: string)
    requires s != "" && s[0] == '(' && ParseItems(s[1..]) == Some((items, close))
    requires close != "" && close[1..] == "?" + rest && rest != "" && !Quantifier(rest[0])
    ensures ParseItem(s) == Some((Optional(Group(items)), rest))
  {
    hide ParseItems;
    assert ("?" + rest)[1..] == rest;
    assert ParseAtom(s) == Some((Group(items), close[1..]));
  }

  lemma MoreItems(s: string, item: Re, rest: string, items: seq<Re>, left: string)
    requires s != "" && s[0] != ')'
    requires ParseItem(s) == Some((item, rest)) && ParseItems(rest) == Some((items, left))
    ensures ParseItems(s) == Some(([item] + items, left))
  {
  }

  lemma {:induction false} ParseTranslated(p: string)
    requires Plain(p)
    ensures ParseItems(Translate(p) + "$") == Some((Items(p), ""))
    decreases |p|
  {
    hide StepText, StepItem, ParseItem, StepLength;
    if p == "" {
      assert "" + "$" == "$";
      ParseEnd();
    } else {
      PlainRest(p);
      var rest := p[StepLength(p)..];
      ParseTranslated(rest);
      NoQuantifier(rest);
      ParseStep(p, Translate(rest) + "$");
      NoQuantifier(p);
      assert Translate(p) + "$" == StepText(p) + (Translate(rest) + "$");
      MoreItems(Translate(p) + "$", StepItem(p), Translate(rest) + "$", Items(rest), "");
    }
  }

  lemma ParseEnd()
    ensures ParseItems("$") == Some(([End], ""))
  {
    assert "$"[1..] == "";
    assert ParseAtom("$") == Some((End, ""));
    MoreItems("$", End, "", [], "");
    assert [End] + [] == [End];
  }

  // ----- the two meanings agree

  /** Read piece by piece, so that an escaped star does not count. */
  predicate HasDoubleStar(p: string) {
    p != "" && (StartsDoubleStar(p) || HasDoubleStar(p[StepLength(p)..]))
  }

  lemma DoubleStarMeaning(p: string, rest: string, text: string, i: nat)
    requires Plain(p) && StartsDoubleStar(p) && rest == AfterDoubleStar(p)
    requires i <= |text|
    ensures Accepts(p, text[i..])
       <==> exists k :: i <= k <= |text| && MatchesRange(StepItem(p), text, i, k) && Accepts(rest, text[k..])
  {
    var path := text[i..];
    if rest == "" {
      AnyRun(text, i, |text|);
      assert text[|text|..] == "" && text[i..|text|] == path;
      forall k | i <= k <= |text| ensures Accepts(rest, text[k..]) <==> k == |text| {
      }
    } else {
      forall k | i <= k <= |text|
        ensures MatchesRange(StepItem(p), text, i, k)
           <==> i == k || (text[k - 1] == '/' && '\n' !in path[..k - 1 - i])
      {
        UpTo('/', text, i, k);
        if i < k {
          assert path[..k - 1 - i] == text[i..k - 1];
        }
      }
      if Accepts(rest, path) {
        assert MatchesRange(StepItem(p), text, i, i);
      } else if k :| 0 <= k < |path| && path[k] == '/' && '\n' !in path[..k] && Accepts(rest, path[k + 1..]) {
        assert path[k + 1..] == text[i + k + 1..] && text[i + k] == '/';
        assert MatchesRange(StepItem(p), text, i, i + k + 1);
      }
      if k :| i <= k <= |text| && MatchesRange(StepItem(p), text, i, k) && Accepts(rest, text[k..]) {
        if k > i {
          assert path[k - 1 - i] == '/' && path[k - 1 - i + 1..] == text[k..];
        }
      }
    }
  }

  lemma StarMeaning(p: string, text: string, i: nat)
    requires p != "" && p[0] == '*' && !StartsDoubleStar(p)
    requires i <= |text|
    ensures Accepts(p, text[i..])
       <==> exists k :: i <= k <= |text| && MatchesRange(Star(Except('/')), text, i, k) && Accepts(p[1..], text[k..])
  {
    var path := text[i..];
    forall k | i <= k <= |text|
      ensures MatchesRange(Star(Except('/')), text, i, k) <==> '/' !in path[..k - i]
      ensures path[k - i..] == text[k..]
    {
      ExceptRun('/', text, i, k);
      assert text[i..k] == path[..k - i];
    }
    if k :| 0 <= k <= |path| && '/' !in path[..k] && Accepts(p[1..], path[k..]) {
      assert path[..k] == path[..i + k - i];
      assert MatchesRange(Star(Except('/')), text, i, i + k);
    }
  }

  lemma OneCharacter(p: string, rest: string, text: string, i: nat)
    requires p != "" && p[0] != '*' && Plain(p) && rest == p[StepLength(p)..]
    requires i <= |text|
    ensures Accepts(p, text[i..])
       <==> exists k :: i <= k <= |text| && MatchesRange(StepItem(p), text, i, k) && Accepts(rest, text[k..])
  {
    var path := text[i..];
    if i < |text| {
      assert path[1..] == text[i + 1..];
    }
    assert Accepts(p, path)
      <==> i < |text| && MatchesRange(StepItem(p), text, i, i + 1) && Accepts(rest, text[i + 1..]);
  }

  lemma {:induction false} ItemsMean(p: string, text: string, i: nat, j: nat)
    requires Plain(p) && i <= j <= |text|
    ensures MatchItems(Items(p), text, i, j) <==> j == |text| && Accepts(p, text[i..])
    decreases |p|
  {
    hide MatchItems, MatchesRange, StepItem, Accepts;
    if p == "" {
      EndMeans(text, i, j);
    } else {
      PlainRest(p);
      var rest := p[StepLength(p)..];
      OneItem(StepItem(p), Items(rest), text, i, j);
      forall k | i <= k <= j
        ensures MatchItems(Items(rest), text, k, j) <==> j == |text| && Accepts(rest, text[k..])
      {
        ItemsMean(rest, text, k, j);
      }
      StepMeans(p, rest, text, i);
    }
  }

  lemma EndMeans(text: string, i: nat, j: nat)
    requires i <= j <= |text|
    ensures MatchItems([End], text, i, j) <==> j == |text| && Accepts("", text[i..])
  {
    OneItem(End, [], text, i, j);
    assert [End] + [] == [End];
    if i == |text| {
      assert MatchesRange(End, text, i, i) && MatchItems([], text, i, i);
    }
  }

  lemma StepMeans(p: string, rest: string, text: string, i: nat)
    requires p != "" && Plain(p) && rest == p[StepLength(p)..]
    requires i <= |text|
    ensures Accepts(p, text[i..])
       <==> exists k :: i <= k <= |text| && MatchesRange(StepItem(p), text, i, k) && Accepts(rest, text[k..])
  {
    hide MatchesRange, Accepts;
    if StartsDoubleStar(p) {
      assert rest == AfterDoubleStar(p);
      DoubleStarMeaning(p, rest, text, i);
    } else if p[0] == '*' {
      StarMeaning(p, text, i);
    } else {
      OneCharacter(p, rest, text, i);
    }
  }

  lemma CompiledParses(p: string)
    requires Plain(p)
    ensures Parse("^" + Translate(p) + "$") == Some(Group([Begin] + Items(p)))
  {
    hide ParseItem;
    var rest := Translate(p) + "$";
    ParseTranslated(p);
    NoQuantifier(p);
    CaretItem(rest);
    assert "^" + Translate(p) + "$" == "^" + rest;
    MoreItems("^" + rest, Begin, rest, Items(p), "");
  }

  /** The compiled expression. */
  function RegexpOf(p: string): Re
    requires Plain(p)
  {
    CompiledParses(p);
    Parse("^" + Translate(p) + "$").value
  }

  /** For every path, what the expression that compile writes matches. */
  lemma CompiledAccepts(p: string, path: string)
    requires Plain(p)
    ensures MatchString(RegexpOf(p), path) <==> Accepts(p, path)
  {
    hide Accepts, MatchItems, ParseItem;
    CompiledParses(p);
    var r := Group([Begin] + Items(p));
    forall i, j | 0 <= i <= j <= |path|
      ensures MatchesRange(r, path, i, j) <==> i == 0 && j == |path| && Accepts(p, path)
    {
      OneItem(Begin, Items(p), path, i, j);
      ItemsMean(p, path, i, j);
      assert path[0..] == path;
      assert MatchesRange(Begin, path, 0, 0);
    }
    if Accepts(p, path) {
      assert MatchesRange(r, path, 0, |path|);
    }
  }

  /** That is never more than the pattern means, and less only for "**" and a newline. */
  lemma {:induction false} AcceptsOrNewline(p: string, path: string)
    ensures Accepts(p, path) ==> Glob(p, path)
    ensures '\n' !in path || !HasDoubleStar(p) ==> (Accepts(p, path) <==> Glob(p, path))
    decreases |p|
  {
    if p != "" {
      if StartsDoubleStar(p) {
        var rest := AfterDoubleStar(p);
        AcceptsOrNewline(rest, path);
        forall k | 0 < k <= |path|
          ensures Accepts(rest, path[k..]) ==> Glob(rest, path[k..])
          ensures '\n' !in path ==> (Accepts(rest, path[k..]) <==> Glob(rest, path[k..]))
        {
          AcceptsOrNewline(rest, path[k..]);
        }
      } else if p[0] == '*' {
        forall k | 0 <= k <= |path|
          ensures Accepts(p[1..], path[k..]) ==> Glob(p[1..], path[k..])
          ensures '\n' !in path || !HasDoubleStar(p) ==> (Accepts(p[1..], path[k..]) <==> Glob(p[1..], path[k..]))
        {
          AcceptsOrNewline(p[1..], path[k..]);
        }
      } else if path != "" {
        AcceptsOrNewline(p[1..], path[1..]);
        if p[0] == '\\' && |p| >= 2 {
          AcceptsOrNewline(p[2..], path[1..]);
        }
      }
    }
  }

  /** The expression that compile writes matches exactly what the pattern means, where "**" does not
      come upon a newline. */
  lemma CompiledMeansGlob(p: string, path: string)
    requires Plain(p) && ('\n' !in path || !HasDoubleStar(p))
    ensures MatchString(RegexpOf(p), path) <==> Glob(p, path)
  {
    hide MatchString, RegexpOf, Glob, Accepts;
    CompiledAccepts(p, path);
    AcceptsOrNewline(p, path);
  }

  /** "**" is meant to accept everything; what it compiles to accepts what has no newline. */
  lemma DoubleStarAccepts(path: string)
    ensures Plain("**") && Glob("**", path)
    ensures MatchString(RegexpOf("**"), path) <==> '\n' !in path
  {
    hide MatchString, RegexpOf;
    assert "**"[1..] == "*" && "*"[1..] == "" && "**"[2..] == "";
    CompiledAccepts("**", path);
  }

  lemma CaretItem(rest: string)
    requires rest != "" && !Quantifier(rest[0])
    ensures ParseItem("^" + rest) == Some((Begin, rest))
  {
    hide ParseItems;
    assert ("^" + rest)[1..] == rest;
  }
}
