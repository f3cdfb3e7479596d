/** The lasso machinery (crates/als-core/src/temporal.rs, crates/als-core/src/temporal_solve.rs): the
    back-loop selector, unrolling to a trace length, and splitting a flat instance back into states. */
module LassoMachinery {
  import opened Wrappers
  import opened Arithmetic
  import opened Sat
  import opened Decoding
  import opened TraceKey

  // ------------------------------------------------------------------ the selector

  /** `!v[i] or !v[j]` for the pairs `i < j` with `j < upto`. */
  function RowClauses(first: SatVar, i: nat, upto: nat): seq<Clause> {
    if upto <= i + 1 then [] else RowClauses(first, i, upto - 1) + [[Lit(first + i, false), Lit(first + upto - 1, false)]]
  }

  function PairClauses(first: SatVar, k: nat, upto: nat): seq<Clause> {
    if upto == 0 then [] else PairClauses(first, k, upto - 1) + RowClauses(first, upto - 1, k)
  }

  function SomeClause(first: SatVar, k: nat): Clause {
    seq(k, j requires 0 <= j < k => Lit(first + j, true))
  }

  function SelectorClauses(first: SatVar, k: nat): seq<Clause> {
    [SomeClause(first, k)] + PairClauses(first, k, k)
  }

  /** At least one, then pairwise at most one. */
  method MintSelector(first: SatVar, k: nat) returns (clauses: seq<Clause>)
    ensures clauses == SelectorClauses(first, k)
  {
    var some: Clause := [];
    var s := 0;
    while s < k
      invariant 0 <= s <= k && some == SomeClause(first, s)
    {
      some := some + [Lit(first + s, true)];
      s := s + 1;
    }
    clauses := [some];
    var i := 0;
    while i < k
      invariant 0 <= i <= k && clauses == [SomeClause(first, k)] + PairClauses(first, k, i)
    {
      ghost var before := clauses;
      var j := i + 1;
      while j < k
        invariant i + 1 <= j && (j <= k || j == i + 1) && clauses == before + RowClauses(first, i, j)
      {
        clauses := clauses + [[Lit(first + i, false), Lit(first + j, false)]];
        j := j + 1;
      }
      assert RowClauses(first, i, j) == RowClauses(first, i, k);
      i := i + 1;
    }
  }

  /** The trace loops back to state `s`. */
  predicate LoopVar(m: Assignment, first: SatVar, s: nat) {
    Value(m, first + s)
  }

  /** Exactly one loop variable is true. */
  ghost predicate ExactlyOne(m: Assignment, first: SatVar, k: nat) {
    exists s: nat :: OnlyLoop(m, first, k, s)
  }

  ghost predicate OnlyLoop(m: Assignment, first: SatVar, k: nat, s: nat) {
    s < k && forall t: nat | t < k :: LoopVar(m, first, t) <==> t == s
  }

  lemma {:induction false} RowHolds(m: Assignment, first: SatVar, i: nat, upto: nat)
    requires first + upto <= |m| && i < upto
    ensures Satisfies(m, RowClauses(first, i, upto)) <==> forall j: nat | i < j < upto :: !(LoopVar(m, first, i) && LoopVar(m, first, j))
    decreases upto
  {
    if upto > i + 1 {
      var last: nat := upto - 1;
      var c := [Lit(first + i, false), Lit(first + upto - 1, false)];
      RowHolds(m, first, i, upto - 1);
      SatisfiesAdd(m, RowClauses(first, i, upto - 1), c);
      assert ClauseHolds(m, c) <==> LitHolds(m, c[0]) || LitHolds(m, c[1]);
      assert ClauseHolds(m, c) <==> !(LoopVar(m, first, i) && LoopVar(m, first, last));
    }
  }

  ghost predicate NoPair(m: Assignment, first: SatVar, k: nat, i: nat) {
    forall j: nat | i < j < k :: !(LoopVar(m, first, i) && LoopVar(m, first, j))
  }

  lemma {:induction false} PairsHold(m: Assignment, first: SatVar, k: nat, upto: nat)
    requires first + k <= |m| && upto <= k
    ensures Satisfies(m, PairClauses(first, k, upto)) <==> forall i: nat | i < upto :: NoPair(m, first, k, i)
    decreases upto
  {
    if upto > 0 {
      PairsHold(m, first, k, upto - 1);
      RowHolds(m, first, upto - 1, k);
      SatisfiesJoin(m, PairClauses(first, k, upto - 1), RowClauses(first, upto - 1, k));
      var last: nat := upto - 1;
      assert NoPair(m, first, k, last) <==> Satisfies(m, RowClauses(first, last, k));
    }
  }

  /** The selector's clauses hold exactly when one loop variable is true. */
  lemma SelectorExact(m: Assignment, first: SatVar, k: nat)
    requires first + k <= |m|
    ensures Satisfies(m, SelectorClauses(first, k)) <==> ExactlyOne(m, first, k)
  {
    var c := SomeClause(first, k);
    SatisfiesJoin(m, [c], PairClauses(first, k, k));
    assert Satisfies(m, [c]) <==> ClauseHolds(m, c) by { assert [c][0] == c; }
    PairsHold(m, first, k, k);
    if Satisfies(m, SelectorClauses(first, k)) {
      var s :| 0 <= s < |c| && LitHolds(m, c[s]);
      assert LoopVar(m, first, s);
      forall t: nat | t < k
        ensures LoopVar(m, first, t) <==> t == s
      {
        assert NoPair(m, first, k, s) && NoPair(m, first, k, t);
      }
      assert OnlyLoop(m, first, k, s);
    }
    if ExactlyOne(m, first, k) {
      var s: nat :| OnlyLoop(m, first, k, s);
      assert LoopVar(m, first, s) && LitHolds(m, c[s]);
      assert forall i: nat | i < k :: NoPair(m, first, k, i);
      assert SelectorClauses(first, k) == [c] + PairClauses(first, k, k);
    }
  }

  /** The loop target of a model. */
  function LoopOf(m: Assignment, first: SatVar, k: nat): nat {
    if k == 0 then 0 else if LoopVar(m, first, k - 1) then k - 1 else LoopOf(m, first, k - 1)
  }

  lemma {:induction false} LoopUnique(m: Assignment, first: SatVar, k: nat, s: nat)
    requires OnlyLoop(m, first, k, s)
    ensures LoopOf(m, first, k) == s
    decreases k
  {
    var last: nat := k - 1;
    assert LoopVar(m, first, last) <==> last == s;
    if s != last { LoopUnique(m, first, last, s); }
  }

  /** Reads the loop target; neither of the source's panics can happen on a model of the selector. */
  method RecoverLoopState(m: Assignment, first: SatVar, k: nat) returns (state: nat)
    requires ExactlyOne(m, first, k)
    ensures state < k && OnlyLoop(m, first, k, state) && state == LoopOf(m, first, k)
  {
    ghost var only: nat :| OnlyLoop(m, first, k, only);
    var found: Option<nat> := None;
    var s := 0;
    while s < k
      invariant 0 <= s <= k
      invariant found == if only < s then Some(only) else None
    {
      if LoopVar(m, first, s) {
        assert found.None?;
        found := Some(s);
      }
      s := s + 1;
    }
    state := found.value;
    LoopUnique(m, first, k, only);
  }

  // ------------------------------------------------------------------ positions of a trace

  /** Maps a position of any size, or a negative one, onto a stored state. */
  function NormalizeState(state: int, k: nat, loop: nat): (r: nat)
    requires loop < k
    ensures r < k
  {
    var clamped := if state < 0 then 0 else state;
    if clamped > loop then (clamped - loop) % (k - loop) + loop else clamped
  }

  /** It is the enumerator's own index map, clamped at zero, and commutes with the lasso's successor. */
  lemma NormalizeMeaning(l: Lasso, i: nat)
    requires Valid(l)
    ensures l.states[NormalizeState(i, |l.states|, l.loop)] == At(l, i)
    ensures forall j: int | j <= 0 :: NormalizeState(j, |l.states|, l.loop) == 0
    ensures var n := NormalizeState(i, |l.states|, l.loop);
      NormalizeState(i + 1, |l.states|, l.loop) == if n + 1 < |l.states| then n + 1 else l.loop
  {
    var k, loop := |l.states|, l.loop;
    var c := k - loop;
    if i >= loop {
      AtLoop(l, i);
      assert NormalizeState(i, k, loop) == (i - loop) % c + loop;
      SuccessorMod(i - loop, c);
    }
  }

  lemma SuccessorMod(d: nat, c: nat)
    requires c >= 1
    ensures (d + 1) % c == if d % c + 1 < c then d % c + 1 else 0
  {
    var q, r := d / c, d % c;
    if r + 1 < c {
      DivModUnique(d + 1, c, q, r + 1);
    } else {
      DivModUnique(d + 1, c, q + 1, 0);
    }
  }
}
