/** The least element of a finite set of ids: a deterministic pick for listing a table. */
module Ids {

  /** `k` is the least id of `s`. */
  ghost predicate IsLeast(k: int, s: set<int>)
  {
    k in s && forall j :: j in s ==> k <= j
  }

  /** A nonempty set of ids has a least element. */
  lemma {:induction false} HasLeast(s: set<int>)
    requires s != {}
    ensures exists k :: IsLeast(k, s)
    decreases |s|
  {
    if forall y :: y !in s {
      assert false;
    }
    var x :| x in s;
    if s == {x} {
      assert IsLeast(x, s);
    } else {
      var rest := s - {x};
      assert |rest| < |s|;
      HasLeast(rest);
      var k :| IsLeast(k, rest);
      var least := if x < k then x else k;
      forall j | j in s
        ensures least <= j
      {
        if j != x {
          assert j in rest;
        }
      }
      assert IsLeast(least, s);
    }
  }

  function LeastId(s: set<int>): (k: int)
    requires s != {}
    ensures k in s && forall j :: j in s ==> k <= j
  {
    HasLeast(s);
    var k :| k in s && forall j | j in s :: k <= j;
    k
  }
}
