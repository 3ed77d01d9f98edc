/**
  The part of Go's regular expression syntax that Pattern.compile writes, read from its text,
  with the usual meaning: which stretches of a text an expression matches.
 */
module Regexp {
  import opened Wrappers

  datatype Re =
    | Begin
    | End
    | AnyChar
    | Except(c: char)
    | Literal(c: char)
    | Star(body: Re)
    | Optional(body: Re)
    | Group(items: seq<Re>)

  predicate Alphanumeric(c: char) {
    '0' <= c <= '9' || 'a' <= c <= 'z' || 'A' <= c <= 'Z'
  }

  /** A backslash makes these stand for themselves. */
  predicate Punctuation(c: char) {
    c as int < 128 && !Alphanumeric(c)
  }

  predicate Quantifier(c: char) {
    c == '*' || c == '?' || c == '+'
  }

  const OPERATORS := "\\.^$[()*+?{|"

  /** What can stand in an expression for itself. */
  predicate Ordinary(c: char) {
    c !in OPERATORS
  }

  /** Items up to the end of the text or a closing parenthesis, and what is left of the text. */
  function ParseItems(s: string): (r: Option<(seq<Re>, string)>)
    ensures r.Some? ==> |r.value.1| <= |s|
    decreases |s|, 2
  {
    if s == "" || s[0] == ')' then Some(([], s))
    else match ParseItem(s) {
      case None => None
      case Some((item, rest)) =>
        (match ParseItems(rest)
         case None => None
         case Some((items, left)) => Some(([item] + items, left)))
    }
  }

  /** An atom with at most one quantifier. */
  function ParseItem(s: string): (r: Option<(Re, string)>)
    requires s != ""
    ensures r.Some? ==> |r.value.1| < |s|
    decreases |s|, 1
  {
    match ParseAtom(s)
    case None => None
    case Some((atom, rest)) =>
      if rest == "" || !Quantifier(rest[0]) then Some((atom, rest))
      else if rest[0] == '+' || (|rest| > 1 && Quantifier(rest[1])) then None
      else Some((if rest[0] == '*' then Star(atom) else Optional(atom), rest[1..]))
  }

  function ParseAtom(s: string): (r: Option<(Re, string)>)
    requires s != ""
    ensures r.Some? ==> |r.value.1| < |s|
    decreases |s|, 0
  {
    if s[0] == '(' then
      match ParseItems(s[1..]) {
        case Some((items, rest)) => if rest != "" then Some((Group(items), rest[1..])) else None
        case None => None
      }
    else if s[0] == '[' then
      if |s| >= 4 && s[1] == '^' && Ordinary(s[2]) && s[2] != ']' && s[3] == ']' then Some((Except(s[2]), s[4..]))
      else None
    else if s[0] == '\\' then
      if |s| >= 2 && Punctuation(s[1]) then Some((Literal(s[1]), s[2..])) else None
    else if s[0] == '.' then Some((AnyChar, s[1..]))
    else if s[0] == '^' then Some((Begin, s[1..]))
    else if s[0] == '$' then Some((End, s[1..]))
    else if Ordinary(s[0]) then Some((Literal(s[0]), s[1..]))
    else None
  }

  /** A whole expression; None for what lies outside this part of the syntax. */
  function Parse(s: string): Option<Re> {
    match ParseItems(s)
    case Some((items, rest)) => if rest == "" then Some(Group(items)) else None
    case None => None
  }

  predicate MatchesRange(r: Re, text: string, i: int, j: int)
    requires 0 <= i <= j <= |text|
    decreases r, j - i
  {
    match r
    case Begin => i == 0 && j == 0
    case End => i == |text|
    case AnyChar => j == i + 1 && text[i] != '\n'
    case Except(c) => j == i + 1 && text[i] != c
    case Literal(c) => j == i + 1 && text[i] == c
    case Star(body) =>
      i == j || exists k :: i < k <= j && MatchesRange(body, text, i, k) && MatchesRange(r, text, k, j)
    case Optional(body) => i == j || MatchesRange(body, text, i, j)
    case Group(items) => MatchItems(items, text, i, j)
  }

  predicate MatchItems(items: seq<Re>, text: string, i: int, j: int)
    requires 0 <= i <= j <= |text|
    decreases items, j - i
  {
    if items == [] then i == j
    else exists k :: i <= k <= j && MatchesRange(items[0], text, i, k) && MatchItems(items[1..], text, k, j)
  }

  /** regexp.MatchString: somewhere in the text. */
  predicate MatchString(r: Re, text: string) {
    exists i, j :: 0 <= i <= j <= |text| && MatchesRange(r, text, i, j)
  }

  lemma OneItem(r: Re, items: seq<Re>, text: string, i: int, j: int)
    requires 0 <= i <= j <= |text|
    ensures [r] + items != [] && ([r] + items)[1..] == items
    ensures MatchItems([r] + items, text, i, j)
       <==> exists k :: i <= k <= j && MatchesRange(r, text, i, k) && MatchItems(items, text, k, j)
  {
    var all := [r] + items;
    assert all[0] == r && all[1..] == items;
    assert MatchItems(all, text, i, j)
      == exists k :: i <= k <= j && MatchesRange(all[0], text, i, k) && MatchItems(all[1..], text, k, j);
    if k :| i <= k <= j && MatchesRange(r, text, i, k) && MatchItems(items, text, k, j) {
      assert MatchesRange(all[0], text, i, k) && MatchItems(all[1..], text, k, j);
    }
  }

  /** `.*` */
  lemma {:induction false} AnyRun(text: string, i: int, j: int)
    requires 0 <= i <= j <= |text|
    ensures MatchesRange(Star(AnyChar), text, i, j) <==> '\n' !in text[i..j]
    decreases j - i
  {
    if i < j {
      AnyRun(text, i + 1, j);
      assert text[i..j] == [text[i]] + text[i + 1..j];
      assert MatchesRange(AnyChar, text, i, i + 1) <==> text[i] != '\n';
      assert forall k :: i < k <= j && MatchesRange(AnyChar, text, i, k) ==> k == i + 1;
    }
  }

  /** `[^c]*` */
  lemma {:induction false} ExceptRun(c: char, text: string, i: int, j: int)
    requires 0 <= i <= j <= |text|
    ensures MatchesRange(Star(Except(c)), text, i, j) <==> c !in text[i..j]
    decreases j - i
  {
    if i < j {
      ExceptRun(c, text, i + 1, j);
      assert text[i..j] == [text[i]] + text[i + 1..j];
      assert MatchesRange(Except(c), text, i, i + 1) <==> text[i] != c;
      assert forall k :: i < k <= j && MatchesRange(Except(c), text, i, k) ==> k == i + 1;
    }
  }

  lemma JustLiteral(c: char, text: string, i: int, j: int)
    requires 0 <= i <= j <= |text|
    ensures MatchItems([Literal(c)], text, i, j) <==> j == i + 1 && text[i] == c
  {
    OneItem(Literal(c), [], text, i, j);
    assert [Literal(c)] + [] == [Literal(c)];
    if j == i + 1 {
      assert MatchesRange(Literal(c), text, i, j) <==> text[i] == c;
      assert MatchItems([], text, j, j);
    }
  }

  /** `(.*c)?` */
  lemma UpTo(c: char, text: string, i: int, j: int)
    requires 0 <= i <= j <= |text|
    ensures MatchesRange(Optional(Group([Star(AnyChar), Literal(c)])), text, i, j)
       <==> i == j || (text[j - 1] == c && '\n' !in text[i..j - 1])
  {
    var items := [Star(AnyChar), Literal(c)];
    assert items == [Star(AnyChar)] + [Literal(c)] && [Literal(c)][1..] == [];
    OneItem(Star(AnyChar), [Literal(c)], text, i, j);
    forall k | i <= k <= j ensures MatchItems([Literal(c)], text, k, j) <==> j == k + 1 && text[k] == c {
      JustLiteral(c, text, k, j);
    }
    if i < j {
      AnyRun(text, i, j - 1);
    }
  }
}
