/** Python's `max` and `min` of a non-empty collection of sizes. */
module Extrema {

  predicate IsMax(s: set<nat>, m: nat)
  {
    m in s && forall x :: x in s ==> x <= m
  }

  predicate IsMin(s: set<nat>, m: nat)
  {
    m in s && forall x :: x in s ==> m <= x
  }

  lemma {:induction false} MaxExists(s: set<nat>)
    requires s != {}
    ensures exists m :: IsMax(s, m)
    decreases s
  {
    var x :| x in s;
    if s == {x} {
      assert IsMax(s, x);
    } else {
      assert forall y :: y in s ==> y == x || y in s - {x};
      MaxExists(s - {x});
      var m :| IsMax(s - {x}, m);
      if x <= m {
        assert IsMax(s, m);
      } else {
        assert IsMax(s, x);
      }
    }
  }

  lemma {:induction false} MinExists(s: set<nat>)
    requires s != {}
    ensures exists m :: IsMin(s, m)
    decreases s
  {
    var x :| x in s;
    if s == {x} {
      assert IsMin(s, x);
    } else {
      assert forall y :: y in s ==> y == x || y in s - {x};
      MinExists(s - {x});
      var m :| IsMin(s - {x}, m);
      if m <= x {
        assert IsMin(s, m);
      } else {
        assert IsMin(s, x);
      }
    }
  }

  /** `max(s)`: the element of `s` no other element exceeds. */
  function Max(s: set<nat>): (m: nat)
    requires s != {}
    ensures IsMax(s, m)
  {
    MaxExists(s);
    var m :| IsMax(s, m);
    m
  }

  /** `min(s)`: the element of `s` no other element undercuts. */
  function Min(s: set<nat>): (m: nat)
    requires s != {}
    ensures IsMin(s, m)
  {
    MinExists(s);
    var m :| IsMin(s, m);
    m
  }
}
