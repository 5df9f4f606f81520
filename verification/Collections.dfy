/** Finite sets and duplicate-free sequences. */
module Collections {
  predicate Distinct<T(==)>(s: seq<T>) {
    forall i, j | 0 <= i < j < |s| :: s[i] != s[j]
  }

  function Elements<T>(s: seq<T>): set<T> {
    set x | x in s
  }

  lemma SubsetIsSmaller<T>(a: set<T>, b: set<T>)
    requires a <= b
    ensures |a| <= |b|
    ensures |a| == |b| ==> a == b
  {
    assert b == a + (b - a);
  }

  /** A sequence has as many elements as positions exactly if none is repeated. */
  lemma {:induction false} CountElements<T>(s: seq<T>)
    ensures |Elements(s)| <= |s|
    ensures |Elements(s)| == |s| <==> Distinct(s)
  {
    if s != [] {
      var rest, last := s[..|s| - 1], s[|s| - 1];
      assert s == rest + [last];
      CountElements(rest);
      if last in rest {
        assert Elements(s) == Elements(rest);
        var i :| 0 <= i < |rest| && rest[i] == last;
        assert s[i] == s[|s| - 1];
      } else {
        assert Elements(s) == Elements(rest) + {last};
        assert Distinct(s) ==> Distinct(rest);
      }
    }
  }

  /** One element goes from what is left to what is done. */
  lemma MovingOver<T>(all: set<T>, done: set<T>, todo: set<T>, x: T)
    requires x in todo && todo <= all && done <= all && done !! todo
    ensures done + {x} <= all && done + {x} !! todo - {x} && done !! todo - {x}
    ensures done + todo == all ==> done + {x} + (todo - {x}) == all
  {
  }
}
