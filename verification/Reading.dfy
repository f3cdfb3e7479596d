/** How the lowerer reads the bound of a higher-order group: again for every name, under the names before
    it (crates/als-core/src/lower.rs). Source formulas get a second meaning from that reading, which is the
    lexical one wherever no group captures its own names. */
module Reading {
  import opened Algebra
  import opened Plain
  import opened Surface
  import opened Capture

  /** Value `j` lies in the group's bound, read under the earlier names when the bound is marked. */
  ghost predicate ReadBound(i: Inst, s: SEnv, d: SDecl, values: seq<TupleSet>, j: nat)
    requires j < |values| == |d.names|
  {
    var t := if d.bound.Marked? then s + Bind(d.names[..j], values[..j]) else s;
    InBound(d.bound, SrcValue(i, t, d.bound.e), values[j])
  }

  ghost predicate ReadAdmissible(i: Inst, s: SEnv, d: SDecl, values: seq<TupleSet>) {
    && |values| == |d.names|
    && (forall j | 0 <= j < |values| :: ReadBound(i, s, d, values, j))
    && (d.disj ==> PairwiseDisjoint(values))
  }

  ghost predicate ReadExtends(i: Inst, s: SEnv, ds: seq<SDecl>, s': SEnv)
    decreases ds
  {
    if ds == [] then s' == s
    else exists values :: ReadAdmissible(i, s, ds[0], values) && ReadExtends(i, s + Bind(ds[0].names, values), ds[1..], s')
  }

  /** The meaning of a formula when every group a quantifier may have skolemised is read that way. Tests,
      comparisons, counts, `iff` and `if` are always lowered blocked and keep their lexical meaning. */
  ghost predicate ReadHolds(i: Inst, s: SEnv, f: SFormula)
    decreases f
  {
    match f
    case FBlock(parts) => forall k | 0 <= k < |parts| :: ReadHolds(i, s, parts[k])
    case FNot(g) => !ReadHolds(i, s, g)
    case FAnd(l, r) => ReadHolds(i, s, l) && ReadHolds(i, s, r)
    case FOr(l, r) => ReadHolds(i, s, l) || ReadHolds(i, s, r)
    case FImplies(l, r) => ReadHolds(i, s, l) ==> ReadHolds(i, s, r)
    case FQuant(q, decls, body) =>
      (match q
       case QuAll => forall s' :: ReadExtends(i, s, decls, s') ==> ReadHolds(i, s', body)
       case QuSome => exists s' :: ReadExtends(i, s, decls, s') && ReadHolds(i, s', body)
       case QuNo => !exists s' :: ReadExtends(i, s, decls, s') && ReadHolds(i, s', body)
       case _ => SrcHolds(i, s, f))
    case FLet(lets, body) => ReadHolds(i, SrcLets(i, s, lets), body)
    case FName(x, target) =>
      var n := Find(s, x);
      n.Some? && s[n.value].1 == VFormula(target) && ReadHolds(i, s[..n.value], target)
    case _ => SrcHolds(i, s, f)
  }

  /** Some extension of the environment gives the body this truth value. */
  ghost predicate ReadReaches(i: Inst, s: SEnv, decls: seq<SDecl>, body: SFormula, p: bool) {
    exists t :: ReadExtends(i, s, decls, t) && ReadHolds(i, t, body) == p
  }

  lemma ReadQuant(i: Inst, s: SEnv, f: SFormula)
    requires f.FQuant? && (f.quant == QuAll || f.quant == QuSome || f.quant == QuNo)
    ensures ReadHolds(i, s, f) == match f.quant {
      case QuSome => ReadReaches(i, s, f.decls, f.body, true)
      case QuAll => !ReadReaches(i, s, f.decls, f.body, false)
      case _ => !ReadReaches(i, s, f.decls, f.body, true) }
  {
  }

  // ------------------------------------------------------------------ groups that capture nothing

  /** No higher-order group where a quantifier may be skolemised reads its bound under its own names. */
  predicate CaptureFree(f: SFormula) {
    match f
    case FBlock(parts) => forall j | 0 <= j < |parts| :: CaptureFree(parts[j])
    case FNot(g) => CaptureFree(g)
    case FAnd(l, r) => CaptureFree(l) && CaptureFree(r)
    case FOr(l, r) => CaptureFree(l) && CaptureFree(r)
    case FImplies(l, r) => CaptureFree(l) && CaptureFree(r)
    case FQuant(_, decls, body) => UncapturedAll(decls) && CaptureFree(body)
    case FLet(_, body) => CaptureFree(body)
    case FName(_, target) => CaptureFree(target)
    case _ => true
  }

  predicate UncapturedAll(decls: seq<SDecl>) {
    forall j | 0 <= j < |decls| :: Uncaptured(decls[j])
  }

  /** Read once outside the group or again for every name, an uncaptured bound admits the same values. */
  lemma UncapturedReads(i: Inst, s: SEnv, d: SDecl, values: seq<TupleSet>)
    requires Uncaptured(d)
    ensures ReadAdmissible(i, s, d, values) <==> Admissible(i, s, d, values)
  {
    if |values| == |d.names| {
      forall j | 0 <= j < |values|
        ensures ReadBound(i, s, d, values, j) <==> InBound(d.bound, SrcValue(i, s, d.bound.e), values[j])
      {
        if d.bound.Marked? { UncapturedStable(i, s, d, j, values[..j]); }
      }
    }
  }

  lemma {:induction false} UncapturedExtends(i: Inst, s: SEnv, ds: seq<SDecl>, s': SEnv)
    requires UncapturedAll(ds)
    ensures ReadExtends(i, s, ds, s') <==> Extends(i, s, ds, s')
    decreases |ds|
  {
    if ds != [] {
      assert UncapturedAll(ds[1..]) by { assert forall j | 0 <= j < |ds[1..]| :: ds[1..][j] == ds[j + 1]; }
      forall values
        ensures ReadAdmissible(i, s, ds[0], values) <==> Admissible(i, s, ds[0], values)
      {
        UncapturedReads(i, s, ds[0], values);
      }
      forall values | Admissible(i, s, ds[0], values)
        ensures ReadExtends(i, s + Bind(ds[0].names, values), ds[1..], s') <==> Extends(i, s + Bind(ds[0].names, values), ds[1..], s')
      {
        UncapturedExtends(i, s + Bind(ds[0].names, values), ds[1..], s');
      }
    }
  }

  /** Then both meanings agree. */
  lemma {:induction false} LexicallyRead(i: Inst, s: SEnv, f: SFormula)
    requires CaptureFree(f)
    ensures ReadHolds(i, s, f) == SrcHolds(i, s, f)
    decreases f, 1
  {
    match f
    case FBlock(parts) =>
      forall k | 0 <= k < |parts|
        ensures ReadHolds(i, s, parts[k]) == SrcHolds(i, s, parts[k])
      {
        LexicallyRead(i, s, parts[k]);
      }
    case FNot(g) => LexicallyRead(i, s, g);
    case FAnd(l, r) => LexicallyRead(i, s, l); LexicallyRead(i, s, r);
    case FOr(l, r) => LexicallyRead(i, s, l); LexicallyRead(i, s, r);
    case FImplies(l, r) => LexicallyRead(i, s, l); LexicallyRead(i, s, r);
    case FQuant(_, _, _) => QuantLexicallyRead(i, s, f);
    case FLet(lets, body) => LexicallyRead(i, SrcLets(i, s, lets), body);
    case FName(x, target) =>
      var n := Find(s, x);
      if n.Some? { LexicallyRead(i, s[..n.value], target); }
    case _ =>
  }

  lemma {:induction false} QuantLexicallyRead(i: Inst, s: SEnv, f: SFormula)
    requires f.FQuant? && CaptureFree(f)
    ensures ReadHolds(i, s, f) == SrcHolds(i, s, f)
    decreases f, 0
  {
    forall s'
      ensures ReadExtends(i, s, f.decls, s') <==> Extends(i, s, f.decls, s')
      ensures ReadHolds(i, s', f.body) == SrcHolds(i, s', f.body)
    {
      UncapturedExtends(i, s, f.decls, s');
      LexicallyRead(i, s', f.body);
    }
  }

  // ------------------------------------------------------------------ which groups are read lexically

  /** None of the values the source admits changes what the group's bound reads. */
  ghost predicate Unmoved(i: Inst, s: SEnv, d: SDecl) {
    forall values, m: nat | m < |d.names| && Admissible(i, s, d, values) :: BoundAt(i, s, d, values, m) == BoundAt(i, s, d, values, 0)
  }

  /** The group's bound read under the first `m` values. */
  ghost function BoundAt(i: Inst, s: SEnv, d: SDecl, values: seq<TupleSet>, m: nat): TupleSet
    requires m <= |values| == |d.names|
  {
    SrcValue(i, s + Bind(d.names[..m], values[..m]), d.bound.e)
  }

  /** Groups whose bound always admits the empty relation. */
  predicate MayBeEmpty(d: SDecl) {
    d.bound.Marked? && (d.bound.mult == MSet || d.bound.mult == MLone) && !d.disj
  }

  /** `set` and `lone` groups are read lexically exactly when their names cannot move their bound. */
  lemma GroupExact(i: Inst, s: SEnv, d: SDecl)
    requires MayBeEmpty(d)
    ensures (forall values :: ReadAdmissible(i, s, d, values) <==> Admissible(i, s, d, values)) <==> Unmoved(i, s, d)
  {
    if Unmoved(i, s, d) {
      forall values ensures ReadAdmissible(i, s, d, values) <==> Admissible(i, s, d, values) { UnmovedReads(i, s, d, values); }
    }
    if forall values :: ReadAdmissible(i, s, d, values) <==> Admissible(i, s, d, values) {
      forall values, m: nat | m < |d.names| && Admissible(i, s, d, values)
        ensures BoundAt(i, s, d, values, m) == BoundAt(i, s, d, values, 0)
      {
        forall t ensures t in BoundAt(i, s, d, values, m) <==> t in BoundAt(i, s, d, values, 0) {
          var w := Padded(d, values[..m] + [{t}]);
          PaddedReads(i, s, d, values, m, t);
          assert ReadAdmissible(i, s, d, w) <==> Admissible(i, s, d, w);
        }
      }
    }
  }

  /** The values followed by empty ones. */
  function Padded(d: SDecl, values: seq<TupleSet>): (w: seq<TupleSet>)
    requires |values| <= |d.names|
    ensures |w| == |d.names| && values <= w && forall j | |values| <= j < |w| :: w[j] == {}
  {
    values + seq(|d.names| - |values|, _ => {})
  }

  lemma BoundAtStart(i: Inst, s: SEnv, d: SDecl, values: seq<TupleSet>)
    requires |values| == |d.names|
    ensures BoundAt(i, s, d, values, 0) == SrcValue(i, s, d.bound.e)
  {
    assert s + Bind(d.names[..0], values[..0]) == s;
  }

  /** One tuple after admitted values: each reading admits it when its own range holds it. */
  lemma PaddedReads(i: Inst, s: SEnv, d: SDecl, values: seq<TupleSet>, m: nat, t: Tuple)
    requires MayBeEmpty(d) && m < |d.names| && Admissible(i, s, d, values) && ReadAdmissible(i, s, d, values)
    ensures var w := Padded(d, values[..m] + [{t}]);
      && (Admissible(i, s, d, w) <==> t in BoundAt(i, s, d, values, 0))
      && (ReadAdmissible(i, s, d, w) <==> t in BoundAt(i, s, d, values, m))
  {
    var w := Padded(d, values[..m] + [{t}]);
    BoundAtStart(i, s, d, values);
    assert w[m] == {t} && w[..m] == values[..m];
    assert ReadBound(i, s, d, w, m) <==> t in BoundAt(i, s, d, values, m);
    forall j: nat | j < |w| && j != m
      ensures ReadBound(i, s, d, w, j) && InBound(d.bound, SrcValue(i, s, d.bound.e), w[j])
    {
      if j < m {
        assert w[j] == values[j] && w[..j] == values[..j] && ReadBound(i, s, d, values, j);
      }
    }
  }

  lemma {:induction false} UnmovedReads(i: Inst, s: SEnv, d: SDecl, values: seq<TupleSet>)
    requires MayBeEmpty(d) && Unmoved(i, s, d)
    ensures ReadAdmissible(i, s, d, values) <==> Admissible(i, s, d, values)
  {
    if |values| == |d.names| {
      BoundAtStart(i, s, d, values);
      if Admissible(i, s, d, values) {
        forall j | 0 <= j < |values| ensures ReadBound(i, s, d, values, j) {
          assert BoundAt(i, s, d, values, j) == BoundAt(i, s, d, values, 0);
        }
      }
      if ReadAdmissible(i, s, d, values) { ReadPrefix(i, s, d, values, |values|); }
    }
  }

  /** The first values of a group that is read admissibly are admitted by the source. */
  lemma {:induction false} ReadPrefix(i: Inst, s: SEnv, d: SDecl, values: seq<TupleSet>, m: nat)
    requires MayBeEmpty(d) && Unmoved(i, s, d) && ReadAdmissible(i, s, d, values) && m <= |values|
    ensures Admissible(i, s, d, Padded(d, values[..m]))
    ensures m == |values| ==> Admissible(i, s, d, values)
    decreases m
  {
    if m > 0 {
      ReadPrefix(i, s, d, values, m - 1);
      var u, w := Padded(d, values[..m - 1]), Padded(d, values[..m]);
      BoundAtStart(i, s, d, u);
      assert BoundAt(i, s, d, u, m - 1) == BoundAt(i, s, d, u, 0);
      assert u[..m - 1] == values[..m - 1] && ReadBound(i, s, d, values, m - 1);
      forall j | 0 <= j < |w| ensures InBound(d.bound, SrcValue(i, s, d.bound.e), w[j]) {
        if j < m - 1 { assert w[j] == u[j]; }
      }
    }
    if m == |values| { assert Padded(d, values[..m]) == values; }
  }
}
