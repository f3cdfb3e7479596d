/** The size formulas over atoms (crates/als-core/src/bounds_builder.rs): nested existentials whose
    witnesses cover a sig say how many atoms it has without counting. */
module SizeWitness {
  import opened Algebra
  import opened Ir
  import opened Folder
  import opened Plain
  import opened Freshness
  import opened Lowering
  import opened LoweringMeaning

  /** A left-nested union; of nothing, the empty relation. */
  function UnionOf(parts: seq<RelExpr>): RelExpr {
    if parts == [] then RConst(CNone)
    else if |parts| == 1 then parts[0]
    else RBin(Union, UnionOf(parts[..|parts| - 1]), parts[|parts| - 1])
  }

  /** `some v0..: d | v0 + .. = d`, witnesses free to overlap. */
  function AtMostWitness(d: RelExpr, n: nat, v: VarId): Formula {
    WrapQuants(QSome, VarDecls(v, n, d), RelCompare(Equal, UnionOf(VarRange(v, n)), d))
  }

  /** Each witness after the first lies outside the union of those before it. */
  function StagedDisjoint(n: nat, v: VarId): seq<Formula> {
    if n <= 1 then []
    else StagedDisjoint(n - 1, v) + [MultTest(TNo, RBin(Intersect, Var(v + n - 1), UnionOf(VarRange(v, n - 1))))]
  }

  function ExactBody(d: RelExpr, n: nat, v: VarId): Formula {
    var parts := [RelCompare(Equal, UnionOf(VarRange(v, n)), d)] + StagedDisjoint(n, v);
    if |parts| == 1 then parts[0] else And(parts)
  }

  /** The same with pairwise distinct witnesses. */
  function ExactWitness(d: RelExpr, n: nat, v: VarId): Formula {
    WrapQuants(QSome, VarDecls(v, n, d), ExactBody(d, n, v))
  }

  // ------------------------------------------------------------------ covering a set

  function AsSet(ts: seq<Tuple>): TupleSet {
    set t | t in ts
  }

  ghost predicate AllDifferent(ts: seq<Tuple>) {
    forall a, b | 0 <= a < b < |ts| :: ts[a] != ts[b]
  }

  lemma {:induction false} CoverSize(ts: seq<Tuple>)
    ensures |AsSet(ts)| <= |ts|
    ensures |AsSet(ts)| == |ts| <==> AllDifferent(ts)
    decreases |ts|
  {
    if ts != [] {
      var front, last := ts[..|ts| - 1], ts[|ts| - 1];
      CoverSize(front);
      assert ts == front + [last];
      assert AsSet(ts) == AsSet(front) + {last};
      if last in front {
        assert AsSet(ts) == AsSet(front);
        var j :| 0 <= j < |front| && front[j] == last;
        assert ts[j] == ts[|ts| - 1];
      } else {
        assert last !in AsSet(front);
        if AllDifferent(front) {
          forall a, b | 0 <= a < b < |ts| ensures ts[a] != ts[b] {
            if b == |ts| - 1 { assert front[a] == ts[a]; } else { assert front[a] == ts[a] && front[b] == ts[b]; }
          }
        } else {
          var a, b :| 0 <= a < b < |front| && front[a] == front[b];
          assert ts[a] == ts[b];
        }
      }
    }
  }

  /** A set of at least one and at most `n` elements is covered by `n` witnesses. */
  lemma {:induction false} CoverBy(s: TupleSet, n: nat) returns (ts: seq<Tuple>)
    requires 1 <= |s| <= n
    ensures |ts| == n && AsSet(ts) == s
    decreases n
  {
    var t :| t in s;
    if |s| == 1 {
      assert |s - {t}| == 0;
      ts := seq(n, _ => t);
      assert ts[0] == t;
      assert AsSet(ts) == {t};
    } else {
      var rest := CoverBy(s - {t}, n - 1);
      ts := rest + [t];
      assert AsSet(ts) == AsSet(rest) + {t};
    }
  }

  // ------------------------------------------------------------------ what the bodies say

  lemma {:induction false} UnionVars(i: Inst, env: Env, v: VarId, n: nat, ts: seq<Tuple>)
    requires n <= |ts| && BoundTo(env, v, ts)
    ensures Value(i, env, UnionOf(VarRange(v, n))) == AsSet(ts[..n])
    decreases n
  {
    var parts := VarRange(v, n);
    if n > 0 {
      assert v + n - 1 in env && Value(i, env, Var(v + n - 1)) == {ts[n - 1]};
      assert ts[..n] == ts[..n - 1] + [ts[n - 1]];
      assert AsSet(ts[..n]) == AsSet(ts[..n - 1]) + {ts[n - 1]};
      UnionVars(i, env, v, n - 1, ts);
      assert parts[..n - 1] == VarRange(v, n - 1) && parts[n - 1] == Var(v + n - 1);
      if n == 1 { assert AsSet(ts[..0]) == {}; }
    }
  }

  lemma {:induction false} StagedMeaning(i: Inst, env: Env, v: VarId, n: nat, ts: seq<Tuple>)
    requires n <= |ts| && BoundTo(env, v, ts)
    ensures AllHold(i, env, StagedDisjoint(n, v)) <==> AllDifferent(ts[..n])
    decreases n
  {
    if n > 1 {
      var last := MultTest(TNo, RBin(Intersect, Var(v + n - 1), UnionOf(VarRange(v, n - 1))));
      StagedMeaning(i, env, v, n - 1, ts);
      UnionVars(i, env, v, n - 1, ts);
      AllHoldJoin(i, env, StagedDisjoint(n - 1, v), [last]);
      assert v + n - 1 in env && Value(i, env, Var(v + n - 1)) == {ts[n - 1]};
      OneHolds(i, env, last);
      assert Holds(i, env, last) <==> ts[n - 1] !in AsSet(ts[..n - 1]);
      MoreDifferent(ts, n);
    }
  }

  lemma OneHolds(i: Inst, env: Env, f: Formula)
    ensures AllHold(i, env, [f]) <==> Holds(i, env, f)
  {
    assert [f][0] == f;
  }

  lemma MoreDifferent(ts: seq<Tuple>, n: nat)
    requires 0 < n <= |ts|
    ensures AllDifferent(ts[..n]) <==> AllDifferent(ts[..n - 1]) && ts[n - 1] !in AsSet(ts[..n - 1])
  {
    var all, front := ts[..n], ts[..n - 1];
    if AllDifferent(all) {
      forall a, b | 0 <= a < b < n - 1 ensures front[a] != front[b] { assert all[a] != all[b]; }
      forall a | 0 <= a < n - 1 ensures front[a] != ts[n - 1] { assert all[a] != all[n - 1]; }
    }
    if AllDifferent(front) && ts[n - 1] !in AsSet(front) {
      forall a, b | 0 <= a < b < n ensures all[a] != all[b] {
        assert front[a] in AsSet(front);
        if b < n - 1 { assert front[a] != front[b]; }
      }
    }
  }

  /** Under a binding of the witnesses the first body says they cover `d`, the second that they are also distinct. */
  lemma BodiesMean(i: Inst, env: Env, d: RelExpr, n: nat, v: VarId, nr: nat, ts: seq<Tuple>)
    requires BelowRel(d, v, nr) && |ts| == n && n >= 1
    ensures HoldsUnder(i, env, VarDecls(v, n, d), ts, RelCompare(Equal, UnionOf(VarRange(v, n)), d))
            <==> AsSet(ts) == Value(i, env, d)
    ensures HoldsUnder(i, env, VarDecls(v, n, d), ts, ExactBody(d, n, v))
            <==> AsSet(ts) == Value(i, env, d) && AllDifferent(ts)
  {
    hide Value, BelowRel, BindEnv, VarDecls, StagedDisjoint, UnionOf;
    var fo := VarDecls(v, n, d);
    assert |fo| == n by { GroupLength(v, n, d); }
    var env' := BindEnv(env, fo, ts);
    VarGroupEnv(env, v, n, d, ts);
    RelFrame(i, i, env, env', d, v, nr);
    UnionVars(i, env', v, n, ts);
    StagedMeaning(i, env', v, n, ts);
    assert ts[..n] == ts;
    var eq := RelCompare(Equal, UnionOf(VarRange(v, n)), d);
    assert Holds(i, env', eq) <==> AsSet(ts) == Value(i, env, d);
    AllHoldJoin(i, env', [eq], StagedDisjoint(n, v));
    OneHolds(i, env', eq);
    var parts := [eq] + StagedDisjoint(n, v);
    assert Holds(i, env', ExactBody(d, n, v)) <==> AllHold(i, env', parts) by { ConjunctionOrOne(i, env', parts); }
  }

  lemma GroupLength(v: VarId, n: nat, d: RelExpr)
    ensures |VarDecls(v, n, d)| == n
  {
  }

  lemma ConjunctionOrOne(i: Inst, env: Env, parts: seq<Formula>)
    requires parts != []
    ensures Holds(i, env, if |parts| == 1 then parts[0] else And(parts)) <==> AllHold(i, env, parts)
  {
  }

  lemma WitnessesIn(i: Inst, env: Env, d: RelExpr, n: nat, v: VarId, nr: nat, ts: seq<Tuple>)
    requires BelowRel(d, v, nr) && |ts| == n
    ensures Binds(i, env, VarDecls(v, n, d), ts) <==> forall j | 0 <= j < n :: ts[j] in Value(i, env, d)
  {
    VarGroupBinds(i, env, v, n, d, ts, v, nr);
  }

  /** The overlapping form holds exactly of one to `n` elements. */
  lemma AtMostMeaning(i: Inst, env: Env, d: RelExpr, n: nat, v: VarId, nr: nat)
    requires BelowRel(d, v, nr) && n >= 1
    ensures Holds(i, env, AtMostWitness(d, n, v)) <==> 1 <= |Value(i, env, d)| <= n
  {
    hide Value, Holds, BelowRel, Binds, HoldsUnder, VarDecls, UnionOf;
    var fo, body, s := VarDecls(v, n, d), RelCompare(Equal, UnionOf(VarRange(v, n)), d), Value(i, env, d);
    GroupLength(v, n, d);
    WrapSome(i, env, fo, body);
    if ts :| Binds(i, env, fo, ts) && HoldsUnder(i, env, fo, ts, body) {
      BindsLength(i, env, fo, ts);
      BodiesMean(i, env, d, n, v, nr, ts);
      CoverSize(ts);
      assert ts[0] in AsSet(ts);
    }
    if 1 <= |s| <= n {
      var ts := CoverBy(s, n);
      BodiesMean(i, env, d, n, v, nr, ts);
      forall j | 0 <= j < n ensures ts[j] in s { assert ts[j] in AsSet(ts); }
      WitnessesIn(i, env, d, n, v, nr, ts);
    }
  }

  lemma BindsLength(i: Inst, env: Env, fo: seq<CompDecl>, ts: seq<Tuple>)
    requires Binds(i, env, fo, ts)
    ensures |ts| == |fo|
  {
  }

  /** The distinct form holds exactly of `n` elements. */
  lemma ExactMeaning(i: Inst, env: Env, d: RelExpr, n: nat, v: VarId, nr: nat)
    requires BelowRel(d, v, nr) && n >= 1
    ensures Holds(i, env, ExactWitness(d, n, v)) <==> |Value(i, env, d)| == n
  {
    hide Value, Holds, BelowRel, Binds, HoldsUnder, VarDecls, ExactBody;
    var fo, body, s := VarDecls(v, n, d), ExactBody(d, n, v), Value(i, env, d);
    GroupLength(v, n, d);
    WrapSome(i, env, fo, body);
    if ts :| Binds(i, env, fo, ts) && HoldsUnder(i, env, fo, ts, body) {
      BindsLength(i, env, fo, ts);
      BodiesMean(i, env, d, n, v, nr, ts);
      CoverSize(ts);
    }
    if |s| == n {
      var ts := CoverBy(s, n);
      CoverSize(ts);
      BodiesMean(i, env, d, n, v, nr, ts);
      forall j | 0 <= j < n ensures ts[j] in s { assert ts[j] in AsSet(ts); }
      WitnessesIn(i, env, d, n, v, nr, ts);
    }
  }
}
