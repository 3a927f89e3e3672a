/** Primary-key allocation of the tables: SQLite gives a new row the largest
    key in use plus one, or 1 when the table is empty. */
module Ids {

  /** Some element of a non-empty set. */
  lemma PickOne(s: set<int>) returns (y: int)
    requires s != {}
    ensures y in s
  {
    assert (forall x :: x !in s) ==> s == {};
    y :| y in s;
  }

  /** A largest element of a non-empty set, found by removing one element at a time. */
  lemma {:induction false} MaxWitness(s: set<int>) returns (m: int)
    requires s != {}
    ensures m in s && forall x | x in s :: x <= m
  {
    var y := PickOne(s);
    var rest := s - {y};
    if rest == {} {
      assert forall x | x in s && x != y :: x in rest;
      m := y;
    } else {
      var m' := MaxWitness(rest);
      assert forall x | x in s :: x == y || x in rest;
      m := if y > m' then y else m';
    }
  }

  /** A smallest element of a non-empty set. */
  lemma {:induction false} MinWitness(s: set<int>) returns (m: int)
    requires s != {}
    ensures m in s && forall x | x in s :: m <= x
  {
    var y := PickOne(s);
    var rest := s - {y};
    if rest == {} {
      assert forall x | x in s && x != y :: x in rest;
      m := y;
    } else {
      var m' := MinWitness(rest);
      assert forall x | x in s :: x == y || x in rest;
      m := if y < m' then y else m';
    }
  }

  lemma HasMax(s: set<int>)
    requires s != {}
    ensures exists m :: m in s && forall x | x in s :: x <= m
  {
    var m := MaxWitness(s);
  }

  lemma HasMin(s: set<int>)
    requires s != {}
    ensures exists m :: m in s && forall x | x in s :: m <= x
  {
    var m := MinWitness(s);
  }

  /** The largest element of a non-empty set of keys. */
  function MaxOf(s: set<int>): (m: int)
    requires s != {}
    ensures m in s && forall x | x in s :: x <= m
  {
    HasMax(s);
    var m :| m in s && forall x | x in s :: x <= m;
    m
  }

  /** The smallest element of a non-empty set of keys. */
  function MinOf(s: set<int>): (m: int)
    requires s != {}
    ensures m in s && forall x | x in s :: m <= x
  {
    HasMin(s);
    var m :| m in s && forall x | x in s :: m <= x;
    m
  }

  /** The key the table assigns to the next inserted row. */
  function NextId(keys: set<int>): (id: int)
    ensures id !in keys
    ensures forall k | k in keys :: k < id
    ensures keys == {} ==> id == 1
  {
    if keys == {} then 1 else MaxOf(keys) + 1
  }
}
