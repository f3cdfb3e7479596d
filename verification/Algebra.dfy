/** Atoms, tuples, tuple sets and the concrete set algebra of the evaluator
    (crates/als-core/src/bounds.rs, crates/als-core/src/eval.rs). A tuple set is a finite set of
    atom sequences; arities agree because the intermediate representation is well typed. */
module Algebra {

  type Atom = nat
  type Tuple = seq<Atom>
  type TupleSet = set<Tuple>

  function Product(a: TupleSet, b: TupleSet): TupleSet {
    set t, u | t in a && u in b :: t + u
  }

  predicate Joinable(t: Tuple, u: Tuple) {
    |t| > 0 && |u| > 0 && t[|t| - 1] == u[0]
  }

  function JoinTuple(t: Tuple, u: Tuple): Tuple
    requires Joinable(t, u)
  {
    t[..|t| - 1] + u[1..]
  }

  /** `a . b` over the shared middle atom. */
  function Join(a: TupleSet, b: TupleSet): TupleSet {
    set t, u | t in a && u in b && Joinable(t, u) :: JoinTuple(t, u)
  }

  function Domain(a: TupleSet): set<Atom> {
    set t | t in a && |t| > 0 :: t[0]
  }

  /** `a ++ b`: every row of `b`, and the rows of `a` whose first atom starts no row of `b`. */
  function Override(a: TupleSet, b: TupleSet): TupleSet {
    b + set t | t in a && (|t| > 0 ==> t[0] !in Domain(b))
  }

  function Transpose(a: TupleSet): TupleSet {
    set t | t in a && |t| == 2 :: [t[1], t[0]]
  }

  function UnivSet(n: nat): TupleSet {
    set i | 0 <= i < n :: [i]
  }

  function IdenSet(n: nat): TupleSet {
    set i | 0 <= i < n :: [i, i]
  }

  predicate HasArity(a: TupleSet, n: nat) {
    forall t | t in a :: |t| == n
  }

  /** The rows starting with an atom. */
  function RowsOf(a: TupleSet, x: Atom): TupleSet {
    set t | t in a && |t| > 0 && t[0] == x
  }

  /** Override works row by row: an atom keeps its rows of `a` exactly when it has none in `b`. */
  lemma OverrideByAtom(a: TupleSet, b: TupleSet, x: Atom)
    ensures RowsOf(Override(a, b), x) == if RowsOf(b, x) != {} then RowsOf(b, x) else RowsOf(a, x)
    ensures HasArity(a, 0) ==> Override(a, b) == a + b
  {
    assert x in Domain(b) <==> RowsOf(b, x) != {} by {
      if RowsOf(b, x) != {} {
        var t :| t in RowsOf(b, x);
        assert t in b && |t| > 0 && t[0] == x;
      }
      if x in Domain(b) {
        var t :| t in b && |t| > 0 && t[0] == x;
        assert t in RowsOf(b, x);
      }
    }
    forall t ensures t in RowsOf(Override(a, b), x) <==> t in if RowsOf(b, x) != {} then RowsOf(b, x) else RowsOf(a, x) {
      if |t| > 0 && t[0] == x && t in b { assert t in RowsOf(b, x); }
    }
  }

  /** A row of a product is a row of the left followed by a row of the right. */
  lemma ProductSplits(a: TupleSet, b: TupleSet, n: nat, s: Tuple)
    requires HasArity(a, n)
    ensures s in Product(a, b) <==> |s| >= n && s[..n] in a && s[n..] in b
  {
    if s in Product(a, b) {
      var t, u :| t in a && u in b && s == t + u;
      assert s[..n] == t && s[n..] == u;
    }
    if |s| >= n && s[..n] in a && s[n..] in b {
      assert s == s[..n] + s[n..];
    }
  }

  lemma JoinMonotone(a: TupleSet, b: TupleSet, a': TupleSet, b': TupleSet)
    requires a <= a' && b <= b'
    ensures Join(a, b) <= Join(a', b')
  {
  }

  lemma ProductMonotone(a: TupleSet, b: TupleSet, a': TupleSet, b': TupleSet)
    requires a <= a' && b <= b'
    ensures Product(a, b) <= Product(a', b')
  {
  }

  lemma InJoin(a: TupleSet, b: TupleSet, t: Tuple, u: Tuple)
    requires t in a && u in b && Joinable(t, u)
    ensures JoinTuple(t, u) in Join(a, b)
  {
  }

  // The loops of the source over ordered sets only insert, so the order of the walk is not observable.

  method UnionLoop(a: TupleSet, b: TupleSet) returns (out: TupleSet)
    ensures out == a + b
  {
    out := a;
    var rest := b;
    while rest != {}
      invariant rest <= b && out == a + (b - rest)
      decreases |rest|
    {
      var t :| t in rest;
      rest := rest - {t};
      out := out + {t};
    }
  }

  method IntersectLoop(a: TupleSet, b: TupleSet) returns (out: TupleSet)
    ensures out == a * b
  {
    out := {};
    var rest := a;
    while rest != {}
      invariant rest <= a && out == (a - rest) * b
      decreases |rest|
    {
      var t :| t in rest;
      rest := rest - {t};
      if t in b {
        out := out + {t};
      }
    }
  }

  method DiffLoop(a: TupleSet, b: TupleSet) returns (out: TupleSet)
    ensures out == a - b
  {
    out := {};
    var rest := a;
    while rest != {}
      invariant rest <= a && out == (a - rest) - b
      decreases |rest|
    {
      var t :| t in rest;
      rest := rest - {t};
      if t !in b {
        out := out + {t};
      }
    }
  }

  lemma ProductByRow(a: TupleSet, b: TupleSet, t: Tuple)
    ensures Product(a + {t}, b) == Product(a, b) + Product({t}, b)
  {
  }

  lemma ProductByColumn(t: Tuple, b: TupleSet, u: Tuple)
    ensures Product({t}, b + {u}) == Product({t}, b) + {t + u}
  {
  }

  method ProductLoop(a: TupleSet, b: TupleSet) returns (out: TupleSet)
    ensures out == Product(a, b)
  {
    hide Product;
    out := {};
    var rest := a;
    assert Product(a - rest, b) == {} by { EmptyProduct(a - rest, b); }
    while rest != {}
      invariant rest <= a && out == Product(a - rest, b)
      decreases |rest|
    {
      var t :| t in rest;
      var cols := b;
      ghost var before := out;
      EmptyProduct(b - cols, {t});
      while cols != {}
        invariant cols <= b && out == before + Product({t}, b - cols)
        decreases |cols|
      {
        var u :| u in cols;
        ProductByColumn(t, b - cols, u);
        assert b - (cols - {u}) == (b - cols) + {u};
        cols := cols - {u};
        out := out + {t + u};
      }
      assert b - cols == b;
      ProductByRow(a - rest, b, t);
      assert a - (rest - {t}) == (a - rest) + {t};
      rest := rest - {t};
    }
    assert a - rest == a;
  }

  lemma EmptyProduct(none: TupleSet, b: TupleSet)
    requires none == {}
    ensures Product(none, b) == {} && Product(b, none) == {}
  {
  }

  lemma JoinByRow(a: TupleSet, b: TupleSet, t: Tuple)
    ensures Join(a + {t}, b) == Join(a, b) + Join({t}, b)
  {
  }

  lemma JoinByColumn(t: Tuple, b: TupleSet, u: Tuple)
    ensures Join({t}, b + {u}) == Join({t}, b) + if Joinable(t, u) then {JoinTuple(t, u)} else {}
  {
  }

  lemma EmptyJoin(none: TupleSet, b: TupleSet)
    requires none == {}
    ensures Join(none, b) == {} && Join(b, none) == {}
  {
  }

  method JoinRow(t: Tuple, b: TupleSet) returns (row: TupleSet)
    ensures row == Join({t}, b)
  {
    hide Join;
    row := {};
    var cols := b;
    EmptyJoin(b - cols, {t});
    while cols != {}
      invariant cols <= b && row == Join({t}, b - cols)
      decreases |cols|
    {
      var u :| u in cols;
      JoinByColumn(t, b - cols, u);
      assert b - (cols - {u}) == (b - cols) + {u};
      cols := cols - {u};
      if Joinable(t, u) { row := row + {JoinTuple(t, u)}; }
    }
    assert b - cols == b;
  }

  method JoinLoop(a: TupleSet, b: TupleSet) returns (out: TupleSet)
    ensures out == Join(a, b)
  {
    hide Join;
    out := {};
    var rest := a;
    EmptyJoin(a - rest, b);
    while rest != {}
      invariant rest <= a && out == Join(a - rest, b)
      decreases |rest|
    {
      var t :| t in rest;
      var row := JoinRow(t, b);
      JoinByRow(a - rest, b, t);
      assert a - (rest - {t}) == (a - rest) + {t};
      rest := rest - {t};
      out := out + row;
    }
    assert a - rest == a;
  }

  method OverrideLoop(a: TupleSet, b: TupleSet) returns (out: TupleSet)
    ensures out == Override(a, b)
  {
    var dom := Domain(b);
    out := {};
    var rest := a;
    while rest != {}
      invariant rest <= a && out == set t | t in a - rest && (|t| > 0 ==> t[0] !in dom)
      decreases |rest|
    {
      var t :| t in rest;
      rest := rest - {t};
      if |t| > 0 ==> t[0] !in dom {
        out := out + {t};
      }
    }
    out := UnionLoop(out, b);
  }

  method TransposeLoop(a: TupleSet) returns (out: TupleSet)
    ensures out == Transpose(a)
  {
    out := {};
    var rest := a;
    while rest != {}
      invariant rest <= a && out == Transpose(a - rest)
      decreases |rest|
    {
      var t :| t in rest;
      ghost var done := a - rest;
      rest := rest - {t};
      assert a - rest == done + {t};
      if |t| == 2 {
        assert Transpose(done + {t}) == Transpose(done) + {[t[1], t[0]]};
        out := out + {[t[1], t[0]]};
      } else {
        assert Transpose(done + {t}) == Transpose(done);
      }
    }
    assert a - rest == a;
  }
}
