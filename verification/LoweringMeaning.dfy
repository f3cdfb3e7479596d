/** What lowering preserves. With skolemisation blocked the lowered formula means exactly what the source
    means; the bindings of a declaration list correspond to the source's extensions of its environment,
    through quantified variables and minted skolems alike. */
module LoweringMeaning {
  import opened Algebra
  import opened Ir
  import opened Folder
  import opened Plain
  import opened Freshness
  import opened Surface
  import opened AbstractUpper
  import opened Lowering
  import opened LoweringFacts

  // ------------------------------------------------------------------ the correspondence

  ghost predicate Denotes(i: Inst, env: Env, b: Binding, v: SVal) {
    match b
    case BVar(x) => x in env && v == VRel({env[x]})
    case BExpr(e) => v == VRel(Value(i, env, e))
    case BFormula(t, _) => v == VFormula(t)
  }

  /** Every binder stack entry denotes what the source environment gives the same name. */
  ghost predicate Corr(i: Inst, env: Env, bs: Binders, s: SEnv) {
    |bs| == |s| && forall j | 0 <= j < |bs| :: bs[j].0 == s[j].0 && Denotes(i, env, bs[j].1, s[j].1)
  }

  /** The setting of one lowering step: `b` interprets the model's own relations, `i` extends it by the
      skolems minted so far. */
  ghost predicate Setting(k: Tables, b: Inst, st: LState, i: Inst, env: Env, bs: Binders, s: SEnv) {
    && Ready(k, st, bs) && SameInst(b, i, k.nextRel) && Corr(i, env, bs, s)
    && forall v | v in env :: v < st.nextVar
  }

  lemma CorrFrame(k: Tables, st: LState, i: Inst, env: Env, i': Inst, env': Env, bs: Binders, s: SEnv)
    requires ValidBinders(k, bs, st) && Corr(i, env, bs, s)
    requires SameInst(i, i', st.nextRel) && SameEnv(env, env', st.nextVar)
    ensures Corr(i', env', bs, s)
  {
    forall j | 0 <= j < |bs|
      ensures Denotes(i', env', bs[j].1, s[j].1)
    {
      assert ValidBinding(k, bs[j].1, j, st) && Denotes(i, env, bs[j].1, s[j].1);
      if bs[j].1.BExpr? { RelFrame(i, i', env, env', bs[j].1.value, st.nextVar, st.nextRel); }
    }
  }

  lemma {:induction false} FindSame(bs: Binders, s: SEnv, x: string)
    requires |bs| == |s| && forall j | 0 <= j < |bs| :: bs[j].0 == s[j].0
    ensures Find(bs, x) == Find(s, x)
    decreases |bs|
  {
    if bs != [] && bs[|bs| - 1].0 != x {
      FindSame(bs[..|bs| - 1], s[..|s| - 1], x);
    }
  }

  // ------------------------------------------------------------------ nests of quantifiers

  function BindEnv(env: Env, fo: seq<CompDecl>, ts: seq<Tuple>): Env
    requires |fo| == |ts|
    decreases |fo|
  {
    if fo == [] then env else BindEnv(env[fo[0].v := ts[0]], fo[1..], ts[1..])
  }

  /** Each tuple lies in its variable's bound, read under the variables before it. */
  ghost predicate InBounds(i: Inst, env: Env, fo: seq<CompDecl>, ts: seq<Tuple>)
    requires |fo| == |ts|
    decreases |fo|
  {
    fo == [] || (ts[0] in Value(i, env, fo[0].bound) && InBounds(i, env[fo[0].v := ts[0]], fo[1..], ts[1..]))
  }

  /** One way of binding a nest's variables. */
  ghost predicate Binds(i: Inst, env: Env, fo: seq<CompDecl>, ts: seq<Tuple>) {
    |fo| == |ts| && InBounds(i, env, fo, ts)
  }

  ghost predicate HoldsUnder(i: Inst, env: Env, fo: seq<CompDecl>, ts: seq<Tuple>, g: Formula) {
    |fo| == |ts| && Holds(i, BindEnv(env, fo, ts), g)
  }

  /** Peeling the outermost variable off a binding of a nest. */
  lemma PeelBinding(i: Inst, env: Env, fo: seq<CompDecl>, ts: seq<Tuple>, g: Formula)
    requires fo != [] && |ts| == |fo|
    ensures Binds(i, env, fo, ts) <==>
            ts[0] in Value(i, env, fo[0].bound) && Binds(i, env[fo[0].v := ts[0]], fo[1..], ts[1..])
    ensures HoldsUnder(i, env, fo, ts, g) <==> HoldsUnder(i, env[fo[0].v := ts[0]], fo[1..], ts[1..], g)
  {
  }

  lemma PushBinding(i: Inst, env: Env, fo: seq<CompDecl>, t: Tuple, ts: seq<Tuple>, g: Formula)
    requires fo != [] && |ts| == |fo| - 1
    ensures Binds(i, env, fo, [t] + ts) <==>
            t in Value(i, env, fo[0].bound) && Binds(i, env[fo[0].v := t], fo[1..], ts)
    ensures HoldsUnder(i, env, fo, [t] + ts, g) <==> HoldsUnder(i, env[fo[0].v := t], fo[1..], ts, g)
  {
    PeelBinding(i, env, fo, [t] + ts, g);
    assert ([t] + ts)[1..] == ts;
  }

  lemma EmptyNest(i: Inst, env: Env, g: Formula)
    ensures Binds(i, env, [], []) && (HoldsUnder(i, env, [], [], g) <==> Holds(i, env, g))
    ensures forall ts :: Binds(i, env, [], ts) ==> ts == []
  {
  }

  /** A nest of existentials holds when some binding of its variables satisfies the body. */
  lemma {:induction false} WrapSome(i: Inst, env: Env, fo: seq<CompDecl>, g: Formula)
    ensures Holds(i, env, WrapQuants(QSome, fo, g)) <==> exists ts :: Binds(i, env, fo, ts) && HoldsUnder(i, env, fo, ts, g)
    decreases |fo|
  {
    EmptyNest(i, env, g);
    if fo != [] {
      var v, bound, fo1, rest := fo[0].v, fo[0].bound, fo[1..], WrapQuants(QSome, fo[1..], g);
      if Holds(i, env, WrapQuants(QSome, fo, g)) {
        var t :| t in Value(i, env, bound) && Holds(i, env[v := t], rest);
        var env1 := env[v := t];
        WrapSome(i, env1, fo1, g);
        var ts :| Binds(i, env1, fo1, ts) && HoldsUnder(i, env1, fo1, ts, g);
        PushBinding(i, env, fo, t, ts, g);
      }
      if ts :| Binds(i, env, fo, ts) && HoldsUnder(i, env, fo, ts, g) {
        PeelBinding(i, env, fo, ts, g);
        WrapSome(i, env[v := ts[0]], fo1, g);
        assert Holds(i, env[v := ts[0]], rest);
      }
    }
  }

  /** A nest of universals holds when every binding of its variables satisfies the body. */
  lemma {:induction false} WrapAll(i: Inst, env: Env, fo: seq<CompDecl>, g: Formula)
    ensures Holds(i, env, WrapQuants(QAll, fo, g)) <==> forall ts :: Binds(i, env, fo, ts) ==> HoldsUnder(i, env, fo, ts, g)
    decreases |fo|
  {
    EmptyNest(i, env, g);
    if fo != [] {
      var v, bound, fo1, rest := fo[0].v, fo[0].bound, fo[1..], WrapQuants(QAll, fo[1..], g);
      if Holds(i, env, WrapQuants(QAll, fo, g)) {
        forall ts | Binds(i, env, fo, ts)
          ensures HoldsUnder(i, env, fo, ts, g)
        {
          PeelBinding(i, env, fo, ts, g);
          WrapAll(i, env[v := ts[0]], fo1, g);
        }
      } else {
        var t :| t in Value(i, env, bound) && !Holds(i, env[v := t], rest);
        var env1 := env[v := t];
        WrapAll(i, env1, fo1, g);
        var ts :| Binds(i, env1, fo1, ts) && !HoldsUnder(i, env1, fo1, ts, g);
        PushBinding(i, env, fo, t, ts, g);
      }
    }
  }

  /** A comprehension collects one tuple per binding of its variables that satisfies the body. */
  lemma {:induction false} CollectBinds(i: Inst, env: Env, r: RelExpr, k: nat, prefix: Tuple, u: Tuple)
    requires r.Comprehension? && k <= |r.decls|
    ensures u in Collect(i, env, r, k, prefix) <==>
            exists ts :: Binds(i, env, r.decls[k..], ts) && HoldsUnder(i, env, r.decls[k..], ts, r.body) && u == prefix + Flatten(ts)
    decreases |r.decls| - k
  {
    var fo := r.decls[k..];
    EmptyNest(i, env, r.body);
    if k == |r.decls| {
      assert prefix + Flatten([]) == prefix;
    } else {
      var d, fo1 := r.decls[k], r.decls[k + 1..];
      assert fo[0] == d && fo[1..] == fo1;
      InCollect(i, env, r, k, prefix, u);
      if u in Collect(i, env, r, k, prefix) {
        var t :| t in Value(i, env, d.bound) && u in CollectOne(i, env, r, k, prefix, t);
        var env1 := env[d.v := t];
        CollectBinds(i, env1, r, k + 1, prefix + t, u);
        var ts :| Binds(i, env1, fo1, ts) && HoldsUnder(i, env1, fo1, ts, r.body) && u == (prefix + t) + Flatten(ts);
        PushBinding(i, env, fo, t, ts, r.body);
        assert ([t] + ts)[1..] == ts && (prefix + t) + Flatten(ts) == prefix + Flatten([t] + ts);
      }
      if ts :| Binds(i, env, fo, ts) && HoldsUnder(i, env, fo, ts, r.body) && u == prefix + Flatten(ts) {
        PeelBinding(i, env, fo, ts, r.body);
        assert u == (prefix + ts[0]) + Flatten(ts[1..]);
        CollectBinds(i, env[d.v := ts[0]], r, k + 1, prefix + ts[0], u);
        assert u in CollectOne(i, env, r, k, prefix, ts[0]);
      }
    }
  }

  // ------------------------------------------------------------------ binding variables

  lemma {:induction false} BindEnvSame(env: Env, fo: seq<CompDecl>, ts: seq<Tuple>, nv: nat)
    requires |fo| == |ts| && forall j | 0 <= j < |fo| :: fo[j].v >= nv
    ensures SameEnv(env, BindEnv(env, fo, ts), nv)
    decreases |fo|
  {
    if fo != [] {
      BindEnvSame(env[fo[0].v := ts[0]], fo[1..], ts[1..], nv);
    }
  }

  /** With distinct ascending variables every one of them keeps its tuple; nothing else is bound. */
  lemma {:induction false} BindEnvLookup(env: Env, fo: seq<CompDecl>, ts: seq<Tuple>)
    requires |fo| == |ts| && forall a, b | 0 <= a < b < |fo| :: fo[a].v < fo[b].v
    ensures forall j | 0 <= j < |fo| :: fo[j].v in BindEnv(env, fo, ts) && BindEnv(env, fo, ts)[fo[j].v] == ts[j]
    ensures forall v | v in BindEnv(env, fo, ts) :: v in env || exists j | 0 <= j < |fo| :: fo[j].v == v
    decreases |fo|
  {
    if fo != [] {
      var env1 := env[fo[0].v := ts[0]];
      BindEnvLookup(env1, fo[1..], ts[1..]);
      forall j | 0 <= j < |fo[1..]|
        ensures fo[1..][j].v >= fo[0].v + 1
      { assert fo[1..][j] == fo[j + 1]; }
      BindEnvSame(env1, fo[1..], ts[1..], fo[0].v + 1);
      forall j | 0 <= j < |fo|
        ensures fo[j].v in BindEnv(env, fo, ts) && BindEnv(env, fo, ts)[fo[j].v] == ts[j]
      {
        if j > 0 { assert fo[1..][j - 1] == fo[j] && ts[1..][j - 1] == ts[j]; }
      }
      forall v | v in BindEnv(env, fo, ts)
        ensures v in env || exists j | 0 <= j < |fo| :: fo[j].v == v
      {
        if v !in env1 {
          var j :| 0 <= j < |fo[1..]| && fo[1..][j].v == v;
          assert fo[j + 1].v == v;
        } else if v == fo[0].v { }
      }
    }
  }

  lemma {:induction false} BindEnvJoin(env: Env, a: seq<CompDecl>, b: seq<CompDecl>, ta: seq<Tuple>, tb: seq<Tuple>)
    requires |a| == |ta| && |b| == |tb|
    ensures BindEnv(env, a + b, ta + tb) == BindEnv(BindEnv(env, a, ta), b, tb)
    decreases |a|
  {
    if a == [] {
      assert a + b == b && ta + tb == tb;
    } else {
      assert (a + b)[1..] == a[1..] + b && (ta + tb)[1..] == ta[1..] + tb;
      BindEnvJoin(env[a[0].v := ta[0]], a[1..], b, ta[1..], tb);
    }
  }

  lemma {:induction false} BindsJoin(i: Inst, env: Env, a: seq<CompDecl>, b: seq<CompDecl>, ta: seq<Tuple>, tb: seq<Tuple>)
    requires |a| == |ta| && |b| == |tb|
    ensures InBounds(i, env, a + b, ta + tb) <==> InBounds(i, env, a, ta) && InBounds(i, BindEnv(env, a, ta), b, tb)
    decreases |a|
  {
    if a == [] {
      assert a + b == b && ta + tb == tb;
    } else {
      assert (a + b)[1..] == a[1..] + b && (ta + tb)[1..] == ta[1..] + tb;
      BindsJoin(i, env[a[0].v := ta[0]], a[1..], b, ta[1..], tb);
    }
  }

  lemma {:induction false} BindsFrame(i: Inst, i': Inst, env: Env, fo: seq<CompDecl>, ts: seq<Tuple>, nr: nat)
    requires |fo| == |ts| && SameInst(i, i', nr)
    requires forall j | 0 <= j < |fo| :: BelowRel(fo[j].bound, fo[j].v, nr)
    ensures InBounds(i, env, fo, ts) <==> InBounds(i', env, fo, ts)
    decreases |fo|
  {
    if fo != [] {
      RelFrame(i, i', env, env, fo[0].bound, fo[0].v, nr);
      BindsFrame(i, i', env[fo[0].v := ts[0]], fo[1..], ts[1..], nr);
    }
  }

  // ------------------------------------------------------------------ lists of guards

  ghost predicate AllHold(i: Inst, env: Env, gs: seq<Formula>) {
    forall j | 0 <= j < |gs| :: Holds(i, env, gs[j])
  }

  lemma ConjoinHolds(i: Inst, env: Env, gs: seq<Formula>)
    ensures Holds(i, env, Conjoin(gs)) <==> AllHold(i, env, gs)
  {
  }

  lemma AllHoldFrame(i: Inst, env: Env, i': Inst, env': Env, gs: seq<Formula>, st: LState)
    requires CleanAll(gs, st) && SameInst(i, i', st.nextRel) && SameEnv(env, env', st.nextVar)
    ensures AllHold(i, env, gs) <==> AllHold(i', env', gs)
  {
    forall j | 0 <= j < |gs| { FormulaFrame(i, i', env, env', gs[j], st.nextVar, st.nextRel); }
  }

  lemma AllHoldJoin(i: Inst, env: Env, a: seq<Formula>, b: seq<Formula>)
    ensures AllHold(i, env, a + b) <==> AllHold(i, env, a) && AllHold(i, env, b)
  {
    if AllHold(i, env, a + b) {
      forall j | 0 <= j < |a| ensures Holds(i, env, a[j]) { assert (a + b)[j] == a[j]; }
      forall j | 0 <= j < |b| ensures Holds(i, env, b[j]) { assert (a + b)[|a| + j] == b[j]; }
    }
  }

  lemma GuardedHolds(i: Inst, env: Env, q: SQuant, b: Bound, inner: Formula)
    ensures q == QuSome ==>
      (Holds(i, env, Guarded(q, b, inner)) <==> AllHold(i, env, b.disj) && AllHold(i, env, b.cons) && Holds(i, env, inner))
    ensures q != QuSome ==>
      (Holds(i, env, Guarded(q, b, inner)) <==> (AllHold(i, env, b.disj) && AllHold(i, env, b.cons) ==> Holds(i, env, inner)))
  {
    var head := if b.disj == [] then [] else [Conjoin(b.disj)];
    var guards := head + b.cons;
    ConjoinHolds(i, env, b.disj);
    assert AllHold(i, env, head) <==> AllHold(i, env, b.disj) by {
      if b.disj != [] { assert head[0] == Conjoin(b.disj); }
    }
    AllHoldJoin(i, env, head, b.cons);
    ConjoinHolds(i, env, guards);
    AllHoldJoin(i, env, guards, [inner]);
    assert AllHold(i, env, [inner]) <==> Holds(i, env, inner) by { assert [inner][0] == inner; }
    assert guards == [] ==> AllHold(i, env, guards);
    assert Holds(i, env, And(guards + [inner])) <==> AllHold(i, env, guards + [inner]);
  }

  ghost function GroupValues(i: Inst, env: Env, group: seq<RelExpr>): seq<TupleSet> {
    seq(|group|, j requires 0 <= j < |group| => Value(i, env, group[j]))
  }

  /** The emitted pairs say exactly that the group's values are pairwise disjoint. */
  lemma {:induction false} PairsHold(i: Inst, env: Env, group: seq<RelExpr>)
    ensures AllHold(i, env, PairDisjoint(group)) <==> PairwiseDisjoint(GroupValues(i, env, group))
    decreases |group|
  {
    if group != [] {
      var head := seq(|group| - 1, j requires 0 <= j < |group| - 1 => MultTest(TNo, RBin(Intersect, group[0], group[j + 1])));
      var vs, ws := GroupValues(i, env, group), GroupValues(i, env, group[1..]);
      PairsHold(i, env, group[1..]);
      AllHoldJoin(i, env, head, PairDisjoint(group[1..]));
      assert forall a | 0 <= a < |ws| :: ws[a] == vs[a + 1];
      assert forall j | 0 <= j < |head| :: Holds(i, env, head[j]) <==> vs[0] * vs[j + 1] == {};
      if AllHold(i, env, head) && PairwiseDisjoint(ws) {
        forall a, b | 0 <= a < b < |vs|
          ensures vs[a] * vs[b] == {}
        {
          if a == 0 { assert Holds(i, env, head[b - 1]); } else { assert ws[a - 1] * ws[b - 1] == {}; }
        }
      }
      if PairwiseDisjoint(vs) {
        forall a, b | 0 <= a < b < |ws| ensures ws[a] * ws[b] == {} { assert vs[a + 1] * vs[b + 1] == {}; }
      }
    }
  }

  lemma GroupDisjointHolds(i: Inst, env: Env, disj: bool, group: seq<RelExpr>)
    ensures AllHold(i, env, GroupDisjoint(disj, group)) <==> (disj ==> PairwiseDisjoint(GroupValues(i, env, group)))
  {
    PairsHold(i, env, group);
  }

  // ------------------------------------------------------------------ skolem values

  /** Gives consecutive relations these values. */
  function Install(i: Inst, first: RelId, values: seq<TupleSet>): (r: Inst)
    ensures r.univ == i.univ
    ensures forall j | 0 <= j < |values| :: RelValue(r, first + j) == values[j]
    ensures forall q: RelId | !(first <= q < first + |values|) :: RelValue(r, q) == RelValue(i, q)
    decreases |values|
  {
    if values == [] then i
    else
      var n := |values| - 1;
      var r := Install(i, first, values[..n]);
      Inst(r.rels[first + n := values[n]], r.univ)
  }

  /** The skolem constraints say that each relation holds exactly one tuple of the bound. */
  lemma {:induction false} SkolemConsHold(i: Inst, env: Env, group: seq<RelExpr>, bound: RelExpr)
    ensures AllHold(i, env, SkolemCons(group, bound)) <==>
            forall j | 0 <= j < |group| :: Value(i, env, group[j]) <= Value(i, env, bound) && |Value(i, env, group[j])| == 1
    decreases |group|
  {
    if group != [] {
      var head := [RelCompare(Subset, group[0], bound), MultTest(TOne, group[0])];
      AllHoldJoin(i, env, head, SkolemCons(group[1..], bound));
      SkolemConsHold(i, env, group[1..], bound);
      assert AllHold(i, env, head) <==> Holds(i, env, head[0]) && Holds(i, env, head[1]);
      var tail := group[1..];
      assert forall j | 0 <= j < |tail| :: tail[j] == group[j + 1];
      if forall j | 0 <= j < |tail| :: Value(i, env, tail[j]) <= Value(i, env, bound) && |Value(i, env, tail[j])| == 1 {
        forall j | 0 < j < |group|
          ensures Value(i, env, group[j]) <= Value(i, env, bound) && |Value(i, env, group[j])| == 1
        { assert tail[j - 1] == group[j]; }
      }
    }
  }

  lemma MarkedConsHold(i: Inst, env: Env, mult: SetMult, x: RelExpr, bound: RelExpr, e: SExpr)
    requires mult != MExactly
    ensures AllHold(i, env, MarkedCons(mult, x, bound)) <==> InBound(Marked(mult, e), Value(i, env, bound), Value(i, env, x))
  {
    var cons := MarkedCons(mult, x, bound);
    assert Holds(i, env, cons[0]) <==> Value(i, env, x) <= Value(i, env, bound);
    if |cons| == 2 {
      assert AllHold(i, env, cons) <==> Holds(i, env, cons[0]) && Holds(i, env, cons[1]);
    } else {
      assert AllHold(i, env, cons) <==> Holds(i, env, cons[0]);
    }
  }

  lemma SingletonOf(a: TupleSet, range: TupleSet)
    ensures a <= range && |a| == 1 <==> exists t :: t in range && a == {t}
  {
    if a <= range && |a| == 1 {
      var t :| t in a;
      assert |a - {t}| == 0;
      assert a == {t};
    }
  }

  // ------------------------------------------------------------------ variable groups

  function VarDecls(first: VarId, n: nat, bound: RelExpr): seq<CompDecl> {
    seq(n, j requires 0 <= j < n => CompDecl(first + j, bound))
  }

  /** Fresh variables sharing one earlier-built bound each range over that bound alone. */
  lemma {:induction false} VarGroupBinds(i: Inst, env: Env, first: VarId, n: nat, bound: RelExpr, ts: seq<Tuple>, nv: nat, nr: nat)
    requires |ts| == n && BelowRel(bound, nv, nr) && nv <= first
    ensures InBounds(i, env, VarDecls(first, n, bound), ts) <==> forall j | 0 <= j < n :: ts[j] in Value(i, env, bound)
    decreases n
  {
    if n > 0 {
      var fo := VarDecls(first, n, bound);
      var env1 := env[first := ts[0]];
      assert fo[0].v == first && fo[1..] == VarDecls(first + 1, n - 1, bound);
      RelFrame(i, i, env, env1, bound, nv, nr);
      VarGroupBinds(i, env1, first + 1, n - 1, bound, ts[1..], nv, nr);
      if forall j | 0 <= j < n - 1 :: ts[1..][j] in Value(i, env, bound) {
        forall j | 0 < j < n ensures ts[j] in Value(i, env, bound) { assert ts[1..][j - 1] == ts[j]; }
      }
    }
  }

  /** The environment gives `n` consecutive variables these tuples. */
  ghost predicate BoundTo(env: Env, first: VarId, ts: seq<Tuple>) {
    forall v: VarId | first <= v < first + |ts| :: v in env && env[v] == ts[v - first]
  }

  /** Binding the group gives its variables their tuples and changes nothing else. */
  lemma {:induction false} VarGroupEnv(env: Env, first: VarId, n: nat, bound: RelExpr, ts: seq<Tuple>)
    requires |ts| == n
    ensures var env' := BindEnv(env, VarDecls(first, n, bound), ts);
      && BoundTo(env', first, ts)
      && SameEnv(env, env', first)
      && (forall v | v in env' :: v in env || first <= v < first + n)
    decreases n
  {
    var fo := VarDecls(first, n, bound);
    if n > 0 {
      assert fo[0] == CompDecl(first, bound) && fo[1..] == VarDecls(first + 1, n - 1, bound);
      VarGroupEnv(env[first := ts[0]], first + 1, n - 1, bound, ts[1..]);
    }
  }

  lemma VarGroupValues(i: Inst, env: Env, first: VarId, n: nat, ts: seq<Tuple>)
    requires |ts| == n && BoundTo(env, first, ts)
    ensures GroupValues(i, env, VarRange(first, n)) == Singletons(ts)
  {
    var g, h := GroupValues(i, env, VarRange(first, n)), Singletons(ts);
    forall j | 0 <= j < n
      ensures g[j] == h[j]
    {
      var v := first + j;
      assert VarRange(first, n)[j] == Var(v) && v in env;
    }
  }

  lemma RelGroupValues(i: Inst, env: Env, first: RelId, values: seq<TupleSet>)
    requires forall j | 0 <= j < |values| :: RelValue(i, first + j) == values[j]
    ensures GroupValues(i, env, RelRange(first, |values|)) == values
  {
    var g := GroupValues(i, env, RelRange(first, |values|));
    forall j | 0 <= j < |values|
      ensures g[j] == values[j]
    { assert RelRange(first, |values|)[j] == Relation(first + j); }
  }

  lemma CorrPush(i: Inst, env: Env, bs: Binders, s: SEnv, b: (string, Binding), v: SVal)
    requires Corr(i, env, bs, s) && Denotes(i, env, b.1, v)
    ensures Corr(i, env, bs + [b], s + [(b.0, v)])
  {
  }

  lemma CorrPushVars(i: Inst, env: Env, bs: Binders, s: SEnv, names: seq<string>, first: VarId, ts: seq<Tuple>)
    requires Corr(i, env, bs, s) && |ts| == |names|
    requires BoundTo(env, first, ts)
    ensures Corr(i, env, PushVars(bs, names, first), s + Bind(names, Singletons(ts)))
  {
    var bs', s' := PushVars(bs, names, first), s + Bind(names, Singletons(ts));
    forall j | 0 <= j < |bs'|
      ensures bs'[j].0 == s'[j].0 && Denotes(i, env, bs'[j].1, s'[j].1)
    {
      if j >= |bs| { var v := first + (j - |bs|); assert v in env; }
    }
  }

  lemma CorrPushRels(i: Inst, env: Env, bs: Binders, s: SEnv, names: seq<string>, first: RelId, values: seq<TupleSet>)
    requires Corr(i, env, bs, s) && |values| == |names|
    requires forall j | 0 <= j < |values| :: RelValue(i, first + j) == values[j]
    ensures Corr(i, env, PushExprs(bs, names, RelRange(first, |names|)), s + Bind(names, values))
  {
    var bs', s' := PushExprs(bs, names, RelRange(first, |names|)), s + Bind(names, values);
    forall j | 0 <= j < |bs'|
      ensures bs'[j].0 == s'[j].0 && Denotes(i, env, bs'[j].1, s'[j].1)
    {
      if j >= |bs| { assert RelValue(i, first + (j - |bs|)) == values[j - |bs|]; }
    }
  }
}
