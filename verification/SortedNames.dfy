/** Directory listings in name order. */
module SortedNames {
  import opened Text

  ghost predicate Increasing(names: seq<string>) {
    forall i, j :: 0 <= i < j < |names| ==> Less(names[i], names[j])
  }

  predicate IsLeast(m: string, s: set<string>) {
    m in s && forall x :: x in s ==> x == m || Less(m, x)
  }

  lemma {:induction false} LeastExists(s: set<string>)
    requires s != {}
    ensures exists m :: IsLeast(m, s)
    decreases |s|
  {
    var x :| x in s;
    var rest := s - {x};
    if rest == {} {
      assert s == {x};
      assert IsLeast(x, s);
    } else {
      LeastExists(rest);
      var m :| IsLeast(m, rest);
      LessTotal(x, m);
      if Less(x, m) {
        forall y | y in s ensures y == x || Less(x, y) {
          if y != x && y != m {
            LessTransitive(x, m, y);
          }
        }
        assert IsLeast(x, s);
      } else {
        assert IsLeast(m, s);
      }
    }
  }

  lemma LeastUnique(m: string, n: string, s: set<string>)
    requires IsLeast(m, s) && IsLeast(n, s)
    ensures m == n
  {
    if m != n {
      LessTransitive(m, n, m);
      LessIrreflexive(m);
    }
  }

  /** The names in byte order, each once. */
  function Listing(s: set<string>): (names: seq<string>)
    ensures forall x :: x in names <==> x in s
    ensures Increasing(names)
    decreases |s|
  {
    if s == {} then []
    else
      LeastExists(s);
      assert forall m, n :: IsLeast(m, s) && IsLeast(n, s) ==> m == n by {
        forall m, n | IsLeast(m, s) && IsLeast(n, s) ensures m == n {
          LeastUnique(m, n, s);
        }
      }
      var m :| IsLeast(m, s);
      [m] + Listing(s - {m})
  }
}
