/** Transitive closure: the evaluator's iterated squaring (crates/als-core/src/eval.rs) and the
    lowerer's linear extension (crates/als-core/src/lower.rs) compute the same relation, the pairs
    joined by a path of at least one step. */
module Closure {
  import opened Algebra
  import opened Sets

  /** `p` walks along `r`, one pair of `r` per step, at least one step. */
  ghost predicate IsPath(r: TupleSet, p: seq<Atom>) {
    |p| >= 2 && forall i | 0 <= i < |p| - 1 :: [p[i], p[i + 1]] in r
  }

  ghost predicate Linked(r: TupleSet, x: Atom, y: Atom) {
    exists p: seq<Atom> :: IsPath(r, p) && p[0] == x && p[|p| - 1] == y
  }

  ghost function Ends(r: TupleSet): set<Atom> {
    (set t | t in r && |t| == 2 :: t[0]) + (set t | t in r && |t| == 2 :: t[1])
  }

  /** The pairs joined by a path. */
  ghost function TransClosure(r: TupleSet): TupleSet {
    set x, y | x in Ends(r) && y in Ends(r) && Linked(r, x, y) :: [x, y]
  }

  ghost predicate Transitive(r: TupleSet) {
    Join(r, r) <= r
  }

  lemma PathEnds(r: TupleSet, p: seq<Atom>)
    requires IsPath(r, p)
    ensures p[0] in Ends(r) && p[|p| - 1] in Ends(r)
  {
    assert [p[0], p[1]] in r;
    assert [p[|p| - 2], p[|p| - 2 + 1]] in r;
    assert [p[0], p[1]][0] == p[0];
    assert [p[|p| - 2], p[|p| - 1]][1] == p[|p| - 1];
  }

  /** Membership in the closure is exactly being joined by a path of length at least one. */
  lemma InClosure(r: TupleSet, x: Atom, y: Atom)
    ensures [x, y] in TransClosure(r) <==> Linked(r, x, y)
  {
    if [x, y] in TransClosure(r) {
      var u, v :| u in Ends(r) && v in Ends(r) && Linked(r, u, v) && [u, v] == [x, y];
      assert [u, v][0] == u && [u, v][1] == v && [x, y][0] == x && [x, y][1] == y;
    }
    if Linked(r, x, y) {
      var p :| IsPath(r, p) && p[0] == x && p[|p| - 1] == y;
      PathEnds(r, p);
    }
  }

  lemma ClosureArity(r: TupleSet)
    ensures HasArity(TransClosure(r), 2)
  {
  }

  lemma StepLinked(r: TupleSet, x: Atom, y: Atom)
    requires [x, y] in r
    ensures Linked(r, x, y)
  {
    assert IsPath(r, [x, y]);
  }

  lemma LinkedTransitive(r: TupleSet, x: Atom, y: Atom, z: Atom)
    requires Linked(r, x, y) && Linked(r, y, z)
    ensures Linked(r, x, z)
  {
    var p :| IsPath(r, p) && p[0] == x && p[|p| - 1] == y;
    var q :| IsPath(r, q) && q[0] == y && q[|q| - 1] == z;
    var w := p + q[1..];
    forall i | 0 <= i < |w| - 1
      ensures [w[i], w[i + 1]] in r
    {
      if i < |p| - 1 {
        assert [p[i], p[i + 1]] in r;
      } else {
        var j := i - (|p| - 1);
        assert w[i] == q[j] && w[i + 1] == q[j + 1];
        assert [q[j], q[j + 1]] in r;
      }
    }
    assert IsPath(r, w) && w[0] == x && w[|w| - 1] == z;
  }

  lemma ClosureExtends(r: TupleSet)
    requires HasArity(r, 2)
    ensures r <= TransClosure(r)
  {
    forall t | t in r
      ensures t in TransClosure(r)
    {
      assert t == [t[0], t[1]];
      StepLinked(r, t[0], t[1]);
      InClosure(r, t[0], t[1]);
    }
  }

  lemma ClosureIsTransitive(r: TupleSet)
    ensures Transitive(TransClosure(r))
  {
    var c := TransClosure(r);
    forall w | w in Join(c, c)
      ensures w in c
    {
      var t, u :| t in c && u in c && Joinable(t, u) && w == JoinTuple(t, u);
      assert t == [t[0], t[1]] && u == [u[0], u[1]] && w == [t[0], u[1]];
      InClosure(r, t[0], t[1]);
      InClosure(r, u[0], u[1]);
      LinkedTransitive(r, t[0], t[1], u[1]);
      InClosure(r, t[0], u[1]);
    }
  }

  /** A set that contains `r` and absorbs one more step of `r` on the right contains every path. */
  lemma {:induction false} PathAbsorbed(r: TupleSet, s: TupleSet, p: seq<Atom>)
    requires r <= s && Join(s, r) <= s
    requires IsPath(r, p)
    ensures [p[0], p[|p| - 1]] in s
    decreases |p|
  {
    if |p| == 2 {
      assert [p[0], p[1]] in r;
    } else {
      var q := p[..|p| - 1];
      assert forall i | 0 <= i < |q| - 1 :: [q[i], q[i + 1]] == [p[i], p[i + 1]];
      PathAbsorbed(r, s, q);
      var t, u := [p[0], p[|p| - 2]], [p[|p| - 2], p[|p| - 2 + 1]];
      assert t in s && u in r && Joinable(t, u);
      InJoin(s, r, t, u);
      assert JoinTuple(t, u) == [p[0], p[|p| - 1]];
    }
  }

  lemma AbsorbsClosure(r: TupleSet, s: TupleSet)
    requires r <= s && Join(s, r) <= s
    ensures TransClosure(r) <= s
  {
    forall t | t in TransClosure(r)
      ensures t in s
    {
      var x, y :| x in Ends(r) && y in Ends(r) && Linked(r, x, y) && t == [x, y];
      var p :| IsPath(r, p) && p[0] == x && p[|p| - 1] == y;
      PathAbsorbed(r, s, p);
    }
  }

  /** The closure is the least transitive set containing `r`. */
  lemma ClosureIsLeast(r: TupleSet, s: TupleSet)
    requires HasArity(r, 2)
    ensures r <= TransClosure(r) && Transitive(TransClosure(r))
    ensures r <= s && Transitive(s) ==> TransClosure(r) <= s
  {
    ClosureExtends(r);
    ClosureIsTransitive(r);
    if r <= s && Transitive(s) {
      JoinMonotone(s, r, s, s);
      AbsorbsClosure(r, s);
    }
  }

  lemma ClosureMonotone(r: TupleSet, s: TupleSet)
    requires r <= s
    ensures TransClosure(r) <= TransClosure(s)
  {
    forall t | t in TransClosure(r)
      ensures t in TransClosure(s)
    {
      var x, y :| x in Ends(r) && y in Ends(r) && Linked(r, x, y) && t == [x, y];
      var p :| IsPath(r, p) && p[0] == x && p[|p| - 1] == y;
      assert IsPath(s, p);
      InClosure(s, x, y);
    }
  }

  lemma ClosureEmptiness(r: TupleSet)
    requires HasArity(r, 2)
    ensures TransClosure(r) == {} <==> r == {}
  {
    ClosureExtends(r);
  }

  /** Squaring until the size is stable: `s := s + s.s`. */
  method ClosureBySquaring(r: TupleSet) returns (c: TupleSet)
    requires HasArity(r, 2)
    ensures c == TransClosure(r)
  {
    var s := r;
    ClosureExtends(r);
    ClosureArity(r);
    while true
      invariant r <= s <= TransClosure(r)
      decreases |TransClosure(r)| - |s|
    {
      var sq := JoinLoop(s, s);
      var grown := UnionLoop(s, sq);
      ClosureIsTransitive(r);
      JoinMonotone(s, s, TransClosure(r), TransClosure(r));
      if |grown| == |s| {
        SubsetSize(s, grown);
        ClosureIsLeast(r, s);
        return grown;
      }
      SubsetSize(s, grown);
      SubsetSize(grown, TransClosure(r));
      s := grown;
    }
  }

  /** Extension by one step of `r` until nothing is inserted: `out := out + out.r`. */
  method ClosureByExtension(r: TupleSet) returns (out: TupleSet)
    requires HasArity(r, 2)
    ensures out == TransClosure(r)
  {
    out := r;
    ClosureExtends(r);
    while true
      invariant r <= out <= TransClosure(r)
      decreases |TransClosure(r)| - |out|
    {
      var step := JoinLoop(out, r);
      ClosureIsTransitive(r);
      JoinMonotone(out, r, TransClosure(r), TransClosure(r));
      ghost var before := out;
      var grew;
      out, grew := InsertAll(out, step);
      if !grew {
        AbsorbsClosure(r, out);
        return;
      }
      SubsetSize(out, TransClosure(r));
      ProperSubsetSize(before, out);
    }
  }

  /** The tuples of `step` outside `rest` have been inserted. */
  ghost predicate Inserted(s: TupleSet, step: TupleSet, rest: TupleSet, out: TupleSet, grew: bool) {
    rest <= step && out == s + (step - rest) && (grew <==> out != s)
  }

  lemma InsertOne(s: TupleSet, step: TupleSet, rest: TupleSet, out: TupleSet, grew: bool, t: Tuple)
    requires Inserted(s, step, rest, out, grew) && t in rest
    ensures Inserted(s, step, rest - {t}, out + {t}, grew || t !in out)
  {
    assert step - (rest - {t}) == (step - rest) + {t};
    assert out + {t} == s + (step - (rest - {t}));
  }

  lemma AllInserted(s: TupleSet, step: TupleSet, out: TupleSet, grew: bool)
    requires Inserted(s, step, {}, out, grew)
    ensures out == s + step && (grew <==> !(step <= s))
  {
    assert step - {} == step;
  }

  /** Inserts every tuple of `step`, reporting whether any of them was new. */
  method InsertAll(s: TupleSet, step: TupleSet) returns (out: TupleSet, grew: bool)
    ensures out == s + step
    ensures grew <==> !(step <= s)
  {
    out, grew := s, false;
    var rest := step;
    assert Inserted(s, step, rest, out, grew) by { assert step - step == {}; }
    hide Inserted;
    while rest != {}
      invariant Inserted(s, step, rest, out, grew)
      decreases |rest|
    {
      var t :| t in rest;
      InsertOne(s, step, rest, out, grew, t);
      if t !in out { grew := true; }
      rest, out := rest - {t}, out + {t};
    }
    AllInserted(s, step, out, grew);
  }
}
