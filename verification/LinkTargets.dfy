/**
  Which symlinks createTarFile refuses, told from the text of the target: what matters is how often
  its cleaned form climbs, how deep the link lies, and the text of the path it then leads to.
 */
module LinkTargets {
  import opened Text
  import opened FsTree
  import opened LayerUnpack

  /** The target as filepath.Clean leaves it. */
  function Cleaned(target: string): (parts: seq<string>) {
    CleanParts(false, [], SplitSlash(target))
  }

  /** Every target climbs some number of directories and then goes down. */
  lemma SomeUps(target: string) returns (ups: nat)
    ensures UpsThenDown(Cleaned(target), ups)
  {
    ups := CleanedForm(false, [], SplitSlash(target), 0);
  }

  lemma Resolved(dest: Path, name: Path, target: string, ups: nat)
    requires name != [] && UpsThenDown(Cleaned(target), ups)
    ensures CleanOnto(dest + Parent(name), SplitSlash(target))
         == Climb(dest + Parent(name), ups) + Cleaned(target)[ups..]
  {
    hide CleanParts, CleanOnto;
    var base := dest + Parent(name);
    ResolvesTo(base, [], SplitSlash(target), 0, ups);
    assert Climb(base, 0) == base && base + [] == base;
  }

  lemma TextBegins(dest: Path, q: Path)
    requires dest <= q
    ensures PathString(dest) <= PathString(q)
  {
    var rest := q[|dest|..];
    assert q == dest + rest;
    RenderConcat(dest, rest);
    if dest == [] && q != [] {
      assert PathString(q) == "/" + (q[0] + Render(q[1..]));
    }
  }

  /** Refused exactly when the text of the path it leads to does not begin with that of the destination.
      A link that climbs no further than it lies deep is never refused. */
  lemma RefusedIff(dest: Path, name: Path, target: string, ups: nat)
    requires name != [] && UpsThenDown(Cleaned(target), ups)
    ensures var base, downs := dest + Parent(name), Cleaned(target)[ups..];
            LinkEscapes(dest, name, target)
            <==> !(PathString(dest) <= PathString(base[..if ups <= |base| then |base| - ups else 0] + downs))
    ensures ups <= |Parent(name)| ==> !LinkEscapes(dest, name, target)
  {
    hide Cleaned, CleanOnto, PathString;
    Resolved(dest, name, target, ups);
    var base := dest + Parent(name);
    if ups <= |Parent(name)| {
      assert base[..|base| - ups] == dest + Parent(name)[..|Parent(name)| - ups];
      TextBegins(dest, base[..|base| - ups] + Cleaned(target)[ups..]);
    }
  }

  lemma ValidParts(target: string, ups: nat)
    requires UpsThenDown(Cleaned(target), ups)
    ensures ValidPath(Cleaned(target)[ups..])
  {
    JoinOfSplit(target, '/');
    PartsFrom([], SplitSlash(target));
    var parts := Cleaned(target);
    forall i | ups <= i < |parts| ensures ValidName(parts[i]) {
      assert parts[i] in parts;
    }
  }

  /** Cleaning makes no new names. */
  lemma {:induction false} PartsFrom(done: seq<string>, parts: seq<string>)
    requires "" !in done
    ensures forall p :: p in CleanParts(false, done, parts) ==> p in done || p in parts
    decreases |parts|
  {
    if parts != [] {
      var part, rest := parts[0], parts[1..];
      if part == "" || part == "." {
        PartsFrom(done, rest);
      } else if part != ".." {
        PartsFrom(done + [part], rest);
      } else if done != [] && done[|done| - 1] != ".." {
        PartsFrom(done[..|done| - 1], rest);
      } else {
        PartsFrom(done + [".."], rest);
      }
    }
  }

  /** The same by components: a link that climbs out of the destination is let through only when it comes
      back to where the destination lies, to a name that begins like the destination's own. */
  lemma RefusedByComponents(dest: Path, name: Path, target: string, ups: nat)
    requires name != [] && UpsThenDown(Cleaned(target), ups) && ValidPath(dest) && ValidPath(Parent(name))
    ensures LinkEscapes(dest, name, target)
       <==> && dest != [] && ups > |Parent(name)|
            && (var out, downs := ups - |Parent(name)|, Cleaned(target)[ups..];
                var left := if out <= |dest| then |dest| - out else 0;
                !(|dest| <= left + |downs|
                  && dest[left..|dest| - 1] == downs[..|dest| - 1 - left]
                  && Base(dest) <= downs[|dest| - 1 - left]))
  {
    hide Cleaned, LinkEscapes, Render;
    RefusedIff(dest, name, target, ups);
    ValidParts(target, ups);
    if ups > |Parent(name)| {
      var base, downs := dest + Parent(name), Cleaned(target)[ups..];
      var out := ups - |Parent(name)|;
      var left := if out <= |dest| then |dest| - out else 0;
      var q := dest[..left] + downs;
      assert base[..if ups <= |base| then |base| - ups else 0] == dest[..left];
      if dest != [] {
        TextBeginsIff(dest, q);
        SplitAt(dest, downs, left);
        NotRoot(dest, q);
      } else {
        TextBegins(dest, q);
      }
    }
  }

  lemma NotRoot(p: Path, q: Path)
    requires ValidPath(p) && p != []
    ensures PathString(p) <= PathString(q) <==> Render(p) <= Render(q)
  {
    if q == [] {
      assert p[0] != "" && Render(p)[1..] == p[0] + Render(p[1..]);
      assert |Render(p)| > 1;
    }
  }

  lemma SplitAt(dest: Path, downs: Path, left: nat)
    requires left < |dest|
    ensures var q := dest[..left] + downs;
            (|dest| <= |q| && dest[..|dest| - 1] == q[..|dest| - 1] && Base(dest) <= q[|dest| - 1])
            <==> |dest| <= left + |downs| && dest[left..|dest| - 1] == downs[..|dest| - 1 - left]
                 && Base(dest) <= downs[|dest| - 1 - left]
  {
    var q := dest[..left] + downs;
    var n := |dest| - 1;
    if n < |q| {
      assert dest[..n] == dest[..left] + dest[left..n];
      assert q[..n] == dest[..left] + downs[..n - left];
      assert q[n] == downs[n - left];
      if dest[..n] == q[..n] {
        assert dest[left..n] == dest[..n][left..] == q[..n][left..] == downs[..n - left];
      }
    }
  }

  /** A target written as so many ".." and then names: accepted when the link lies at least that deep. */
  lemma UpwardLinkNotRefused(dest: Path, name: Path, parts: seq<string>, ups: nat)
    requires name != [] && parts != [] && UpsThenDown(parts, ups) && forall p :: p in parts ==> '/' !in p
    requires ups <= |Parent(name)|
    ensures !LinkEscapes(dest, name, Join(parts, '/'))
  {
    hide LinkEscapes;
    SplitJoin(parts, '/');
    assert [] + parts == parts;
    FormIsClean([], parts, ups);
    RefusedIff(dest, name, Join(parts, '/'), ups);
  }
}
