/** The SAT boundary (crates/als-solve/src/lib.rs): literals, clauses, blocking, and a live solver of
    which callers know only its contract. */
module Sat {
  import opened Wrappers
  import opened Sets

  type SatVar = nat
  datatype Lit = Lit(v: SatVar, positive: bool)
  type Clause = seq<Lit>
  type Assignment = seq<bool>

  predicate LitHolds(m: Assignment, l: Lit) {
    l.v < |m| && m[l.v] == l.positive
  }

  predicate ClauseHolds(m: Assignment, c: Clause) {
    exists j | 0 <= j < |c| :: LitHolds(m, c[j])
  }

  /** Every clause of the formula holds. */
  predicate Satisfies(m: Assignment, cs: seq<Clause>) {
    forall j | 0 <= j < |cs| :: ClauseHolds(m, cs[j])
  }

  predicate Minted(c: Clause, n: nat) {
    forall j | 0 <= j < |c| :: c[j].v < n
  }

  lemma SatisfiesAdd(m: Assignment, cs: seq<Clause>, c: Clause)
    ensures Satisfies(m, cs + [c]) <==> Satisfies(m, cs) && ClauseHolds(m, c)
  {
    if Satisfies(m, cs + [c]) {
      forall j | 0 <= j < |cs| ensures ClauseHolds(m, cs[j]) { assert (cs + [c])[j] == cs[j]; }
      assert (cs + [c])[|cs|] == c;
    }
  }

  lemma SatisfiesJoin(m: Assignment, a: seq<Clause>, b: seq<Clause>)
    ensures Satisfies(m, a + b) <==> Satisfies(m, a) && Satisfies(m, b)
  {
    if Satisfies(m, a + b) {
      forall j | 0 <= j < |a| ensures ClauseHolds(m, a[j]) { assert (a + b)[j] == a[j]; }
      forall j | 0 <= j < |b| ensures ClauseHolds(m, b[j]) { assert (a + b)[|a| + j] == b[j]; }
    }
  }

  // ------------------------------------------------------------------ blocking

  /** The two assignments agree on these variables. */
  predicate SameOn(m: Assignment, m': Assignment, vars: seq<SatVar>) {
    forall j | 0 <= j < |vars| :: vars[j] < |m| && vars[j] < |m'| && m[vars[j]] == m'[vars[j]]
  }

  function Block(m: Assignment, vars: seq<SatVar>): Clause
    requires forall j | 0 <= j < |vars| :: vars[j] < |m|
  {
    seq(|vars|, j requires 0 <= j < |vars| => Lit(vars[j], !m[vars[j]]))
  }

  /** The blocking clause excludes exactly the assignments with the same projection. */
  lemma BlockExcludes(m: Assignment, m': Assignment, vars: seq<SatVar>)
    requires |m| == |m'| && forall j | 0 <= j < |vars| :: vars[j] < |m|
    ensures ClauseHolds(m', Block(m, vars)) <==> !SameOn(m, m', vars)
  {
    var c := Block(m, vars);
    if !SameOn(m, m', vars) {
      var j :| 0 <= j < |vars| && m[vars[j]] != m'[vars[j]];
      assert LitHolds(m', c[j]);
    }
    if ClauseHolds(m', c) {
      var j :| 0 <= j < |c| && LitHolds(m', c[j]);
      assert c[j] == Lit(vars[j], !m[vars[j]]);
    }
  }

  // ------------------------------------------------------------------ the assignments still allowed

  function Extended(m: Assignment, b: bool): Assignment {
    m + [b]
  }

  function Assignments(n: nat): (r: set<Assignment>)
    ensures forall m :: m in r <==> |m| == n
  {
    if n == 0 then {[]}
    else
      var shorter := Assignments(n - 1);
      var r := set m, b | m in shorter && b in {true, false} :: Extended(m, b);
      assert forall m: Assignment | |m| == n :: m[..n - 1] in shorter && m == Extended(m[..n - 1], m[n - 1]);
      r
  }

  ghost function Models(n: nat, cs: seq<Clause>): (r: set<Assignment>)
    ensures forall m :: m in r <==> |m| == n && Satisfies(m, cs)
  {
    set m | m in Assignments(n) && Satisfies(m, cs)
  }

  /** A clause that excludes a model leaves strictly fewer of them. */
  lemma ModelsShrink(n: nat, cs: seq<Clause>, c: Clause, m: Assignment)
    requires m in Models(n, cs) && !ClauseHolds(m, c)
    ensures Models(n, cs + [c]) < Models(n, cs) && |Models(n, cs + [c])| < |Models(n, cs)|
  {
    forall x | x in Models(n, cs + [c]) ensures x in Models(n, cs) { SatisfiesAdd(x, cs, c); }
    SatisfiesAdd(m, cs, c);
    ProperSubsetSize(Models(n, cs + [c]), Models(n, cs));
  }

  // ------------------------------------------------------------------ the live solver

  datatype Outcome = IsSat(model: Assignment) | IsUnsat

  /** A solver kept between queries; clauses are only ever added. */
  class LiveSolver {
    const numVars: nat
    var clauses: seq<Clause>

    constructor (n: nat, cs: seq<Clause>)
      ensures numVars == n && clauses == cs
    {
      numVars, clauses := n, cs;
    }

    ghost function Admitted(): (r: set<Assignment>)
      reads this
    {
      Models(numVars, clauses)
    }

    method AddClause(c: Clause)
      modifies this
      ensures clauses == old(clauses) + [c]
    {
      clauses := clauses + [c];
    }

    /** A model of every clause, or the news that there is none. */
    method Solve() returns (r: Outcome)
      ensures match r { case IsSat(m) => m in Admitted() case IsUnsat => Admitted() == {} }
    {
      var found := Search([]);
      r := match found { case Some(m) => IsSat(m) case None => IsUnsat };
    }

    /** A solve that may give up, which says nothing about the clauses. */
    method SolveWithin() returns (r: Option<Outcome>)
      ensures r.Some? ==> match r.value { case IsSat(m) => m in Admitted() case IsUnsat => Admitted() == {} }
    {
      if * { return None; }
      var outcome := Solve();
      r := Some(outcome);
    }

    method Search(prefix: Assignment) returns (r: Option<Assignment>)
      requires |prefix| <= numVars
      ensures r.Some? ==> r.value in Admitted()
      ensures r.None? ==> forall m :: prefix <= m ==> m !in Admitted()
      decreases numVars - |prefix|
    {
      if |prefix| == numVars {
        if Satisfies(prefix, clauses) { return Some(prefix); }
        assert forall m | prefix <= m && |m| == numVars :: m == prefix;
        return None;
      }
      r := Search(prefix + [true]);
      if r.None? {
        r := Search(prefix + [false]);
        forall m | prefix <= m && |m| == numVars
          ensures prefix + [true] <= m || prefix + [false] <= m
        {
          assert m[|prefix|] == true || m[|prefix|] == false;
        }
      }
    }
  }
}
