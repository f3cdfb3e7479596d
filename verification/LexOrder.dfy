/** The ordered walk over a tuple set: lexicographic on atoms, as a sorted set of the source
    iterates (crates/als-core/src/bounds.rs). Only the integer accumulators observe it. */
module LexOrder {
  import opened Algebra

  predicate Leq(t: Tuple, u: Tuple) {
    if t == [] then true
    else if u == [] then false
    else if t[0] != u[0] then t[0] < u[0]
    else Leq(t[1..], u[1..])
  }

  lemma {:induction false} LeqTotal(t: Tuple, u: Tuple)
    ensures Leq(t, u) || Leq(u, t)
    ensures Leq(t, u) && Leq(u, t) ==> t == u
  {
    if t != [] && u != [] && t[0] == u[0] {
      LeqTotal(t[1..], u[1..]);
      assert t == [t[0]] + t[1..] && u == [u[0]] + u[1..];
    }
  }

  lemma {:induction false} LeqTransitive(t: Tuple, u: Tuple, v: Tuple)
    requires Leq(t, u) && Leq(u, v)
    ensures Leq(t, v)
  {
    if t != [] && u != [] && v != [] && t[0] == u[0] == v[0] {
      LeqTransitive(t[1..], u[1..], v[1..]);
    }
  }

  ghost predicate IsFirst(s: TupleSet, t: Tuple) {
    t in s && forall u | u in s :: Leq(t, u)
  }

  lemma {:induction false} FirstExists(s: TupleSet)
    requires s != {}
    ensures exists t :: IsFirst(s, t)
  {
    var t :| t in s;
    LeqTotal(t, t);
    if s == {t} {
      assert IsFirst(s, t);
    } else {
      FirstExists(s - {t});
      var m :| IsFirst(s - {t}, m);
      LeqTotal(t, m);
      if Leq(t, m) {
        forall u | u in s
          ensures Leq(t, u)
        {
          if u != t { LeqTransitive(t, m, u); }
        }
        assert IsFirst(s, t);
      } else {
        assert IsFirst(s, m);
      }
    }
  }

  lemma FirstUnique(s: TupleSet, t: Tuple, u: Tuple)
    requires IsFirst(s, t) && IsFirst(s, u)
    ensures t == u
  {
    LeqTotal(t, u);
  }

  function First(s: TupleSet): (t: Tuple)
    requires s != {}
    ensures IsFirst(s, t)
  {
    FirstExists(s);
    assert forall t, u | IsFirst(s, t) && IsFirst(s, u) :: t == u by {
      forall t, u | IsFirst(s, t) && IsFirst(s, u) ensures t == u { FirstUnique(s, t, u); }
    }
    assert exists t | t in s :: forall u | u in s :: Leq(t, u) by {
      var m :| IsFirst(s, m);
    }
    assert forall t, t' | t in s && t' in s && (forall u | u in s :: Leq(t, u)) && (forall u | u in s :: Leq(t', u)) :: t == t' by {
      forall t, t' | t in s && t' in s && (forall u | u in s :: Leq(t, u)) && (forall u | u in s :: Leq(t', u))
        ensures t == t'
      { FirstUnique(s, t, t'); }
    }
    var t :| t in s && forall u | u in s :: Leq(t, u);
    t
  }

  /** The tuples of `s` in increasing order, each once. */
  function Sorted(s: TupleSet): (r: seq<Tuple>)
    ensures |r| == |s|
    ensures forall t :: t in r <==> t in s
  {
    if s == {} then []
    else
      var t := First(s);
      [t] + Sorted(s - {t})
  }

  lemma {:induction false} SortedInOrder(s: TupleSet)
    ensures forall i, j | 0 <= i < j < |Sorted(s)| :: Leq(Sorted(s)[i], Sorted(s)[j]) && Sorted(s)[i] != Sorted(s)[j]
  {
    if s != {} {
      var t := First(s);
      var rest := Sorted(s - {t});
      SortedInOrder(s - {t});
      forall i, j | 0 <= i < j < |Sorted(s)|
        ensures Leq(Sorted(s)[i], Sorted(s)[j]) && Sorted(s)[i] != Sorted(s)[j]
      {
        assert Sorted(s)[j] == rest[j - 1] && rest[j - 1] in rest;
        if i > 0 { assert Sorted(s)[i] == rest[i - 1]; }
      }
    }
  }
}
