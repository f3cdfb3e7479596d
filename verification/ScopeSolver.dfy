/** The solver that scopes every sig (crates/als-core/src/scope.rs): explicit scopes are seeded and checked,
    multiplicities forced, and the derivation passes looped to their fixpoint. */
module ScopeSolving {
  import opened Wrappers
  import opened Scopes

  datatype ErrorKind =
    | ScopeOnSubset | ScopeOnEnum
    | OneSigScope | LoneSigScope | SomeSigScope
    | StringScopeNotExact
    | MustSpecifyScope

  datatype ScopeError = ScopeError(kind: ErrorKind, at: nat)

  /** Every clause names a sig of the world. */
  predicate GoodCommand(w: World, c: Command) {
    && (forall e | e in c.scopes :: e.sig < |w|)
    && (forall i | i in c.additionalExact :: i < |w|)
  }

  /** A sig whose multiplicity bounds its size in every state. */
  predicate Fixed(w: World, i: nat, m: SigMult) {
    IsScopable(w, i) && !w[i].isVar && w[i].mult == Some(m)
  }

  // ------------------------------------------------------------------ explicit scopes

  function MultError(m: Option<SigMult>, scope: nat): Option<ErrorKind> {
    match m
    case Some(One) => if scope != 1 then Some(OneSigScope) else None
    case Some(Lone) => if scope > 1 then Some(LoneSigScope) else None
    case Some(SomeMult) => if scope < 1 then Some(SomeSigScope) else None
    case None => None
  }

  function EntryError(w: World, e: ScopeEntry): Option<ErrorKind>
    requires e.sig < |w|
  {
    var sig := w[e.sig];
    if sig.kind.Subset? then Some(ScopeOnSubset)
    else if sig.isEnum then Some(ScopeOnEnum)
    else if !sig.isVar then MultError(sig.mult, e.scope)
    else None
  }

  /** The command's scope clauses give this error. */
  ghost predicate Raises(w: World, c: Command, err: ScopeError)
    requires GoodCommand(w, c)
  {
    || (exists k: nat | k < |c.scopes| :: EntryRaises(w, c, k, err))
    || (c.maxString.Some? && !c.stringExact && err == ScopeError(StringScopeNotExact, c.at))
  }

  ghost predicate EntryRaises(w: World, c: Command, k: nat, err: ScopeError)
    requires GoodCommand(w, c) && k < |c.scopes|
  {
    assert c.scopes[k] in c.scopes;
    EntryError(w, c.scopes[k]) == Some(err.kind) && err.at == c.scopes[k].at
  }

  /** The last clause for a sig among the first `upto` gives its explicit scope. */
  function Explicit(c: Command, upto: nat, i: nat): (r: Option<nat>)
    requires upto <= |c.scopes|
  {
    if upto == 0 then None
    else if c.scopes[upto - 1].sig == i then Some(c.scopes[upto - 1].scope)
    else Explicit(c, upto - 1, i)
  }

  /** One exact clause makes a sig exact, even when a later clause for it is not. */
  ghost predicate AskedExact(c: Command, upto: nat, i: nat)
    requires upto <= |c.scopes|
  {
    exists k: nat | k < upto :: c.scopes[k].sig == i && c.scopes[k].exact
  }

  lemma {:induction false} ExplicitFrom(c: Command, upto: nat, i: nat)
    requires upto <= |c.scopes|
    ensures Explicit(c, upto, i).Some? <==> exists k: nat | k < upto :: c.scopes[k].sig == i
    ensures Explicit(c, upto, i).Some? ==>
              exists k: nat | k < upto :: c.scopes[k].sig == i && Explicit(c, upto, i) == Some(c.scopes[k].scope)
                                          && forall j: nat | k < j < upto :: c.scopes[j].sig != i
    decreases upto
  {
    if upto > 0 {
      ExplicitFrom(c, upto - 1, i);
      if c.scopes[upto - 1].sig != i && Explicit(c, upto - 1, i).Some? {
        var k: nat :| k < upto - 1 && c.scopes[k].sig == i && Explicit(c, upto - 1, i) == Some(c.scopes[k].scope)
                      && forall j: nat | k < j < upto - 1 :: c.scopes[j].sig != i;
        assert k < upto;
      }
    }
  }

  // ------------------------------------------------------------------ the final table

  function Forced(w: World, i: nat, s: Option<nat>): Option<nat> {
    if Fixed(w, i, One) then Some(1)
    else if Fixed(w, i, Lone) && s.None? then Some(1)
    else s
  }

  function Raised(w: World, i: nat, s: Option<nat>): Option<nat> {
    if Fixed(w, i, SomeMult) then
      if s.None? || s.value < 1 then Some(1) else s
    else s
  }

  /** What scoping promises of its result. */
  ghost predicate ScopeContract(w: World, c: Command, scope: Table, exact: seq<bool>)
    requires GoodCommand(w, c)
  {
    && |scope| == |exact| == |w|
    && (forall i: nat | IsScopable(w, i) :: scope[i].Some?)
    && (forall i: nat | i < |w| && Explicit(c, |c.scopes|, i).Some? :: scope[i] == Explicit(c, |c.scopes|, i))
    && (forall i: nat | Fixed(w, i, One) :: scope[i] == Some(1) && exact[i])
    && (forall i: nat | Fixed(w, i, Lone) :: scope[i].value <= 1)
    && (forall i: nat | Fixed(w, i, SomeMult) :: scope[i].value >= 1)
    && (forall i: nat | i < |w| ::
          exact[i] <==> AskedExact(c, |c.scopes|, i) || i in c.additionalExact || Fixed(w, i, One))
  }

  /** The seeded and forced table. */
  ghost predicate Forces(w: World, c: Command, s: Table) {
    |s| == |w| && forall i: nat | i < |w| :: s[i] == Forced(w, i, Explicit(c, |c.scopes|, i))
  }

  lemma ContractHolds(w: World, c: Command, rank: seq<nat>, s: Table, scope: Table, exact: seq<bool>)
    requires GoodWorld(w, rank) && GoodCommand(w, c) && Forces(w, c, s)
    requires forall err :: !Raises(w, c, err)
    requires Fixpoint(w, EffectiveOverall(c), s).Some? && |scope| == |exact| == |w|
    requires forall i: nat | i < |w| :: scope[i] == Raised(w, i, Fixpoint(w, EffectiveOverall(c), s).value[i])
    requires forall i: nat | i < |w| ::
               exact[i] <==> AskedExact(c, |c.scopes|, i) || i in c.additionalExact || Fixed(w, i, One)
    ensures ScopeContract(w, c, scope, exact)
  {
    hide GoodWorld, Raises, Fixpoint, Explicit, AskedExact, EffectiveOverall, EntryError;
    FixpointTotal(w, EffectiveOverall(c), rank, s);
    var t := Fixpoint(w, EffectiveOverall(c), s).value;
    forall i: nat | i < |w|
      ensures Explicit(c, |c.scopes|, i).Some? ==>
                IsScopable(w, i) && (!w[i].isVar ==> MultError(w[i].mult, Explicit(c, |c.scopes|, i).value).None?)
      ensures s[i].Some? ==> t[i] == s[i]
    {
      if Explicit(c, |c.scopes|, i).Some? { ExplicitLegal(w, c, i); }
    }
  }

  /** A sig's explicit scope respects its multiplicity when no clause raises an error. */
  lemma ExplicitLegal(w: World, c: Command, i: nat)
    requires GoodCommand(w, c) && i < |w| && Explicit(c, |c.scopes|, i).Some?
    requires forall err :: !Raises(w, c, err)
    ensures IsScopable(w, i) && (!w[i].isVar ==> MultError(w[i].mult, Explicit(c, |c.scopes|, i).value).None?)
  {
    ExplicitFrom(c, |c.scopes|, i);
    var k: nat :| k < |c.scopes| && c.scopes[k].sig == i && Explicit(c, |c.scopes|, i) == Some(c.scopes[k].scope);
    NoEntryError(w, c, k);
  }

  lemma NoEntryError(w: World, c: Command, k: nat)
    requires GoodCommand(w, c) && k < |c.scopes|
    requires forall err :: !Raises(w, c, err)
    ensures c.scopes[k] in c.scopes && EntryError(w, c.scopes[k]).None?
  {
    assert c.scopes[k] in c.scopes;
    if EntryError(w, c.scopes[k]).Some? {
      var err := ScopeError(EntryError(w, c.scopes[k]).value, c.scopes[k].at);
      assert EntryRaises(w, c, k, err);
      assert Raises(w, c, err);
    }
  }

  class ScopeSolver {
    const w: World
    const command: Command
    const effectiveOverall: Option<nat>
    var scope: Table
    var exact: seq<bool>
    var children: seq<seq<nat>>

    ghost predicate Valid()
      reads this
    {
      && GoodCommand(w, command)
      && effectiveOverall == EffectiveOverall(command)
      && |scope| == |exact| == |children| == |w|
      && forall p: nat | p < |w| :: children[p] == Children(w, p)
    }

    constructor (world: World, c: Command)
      requires GoodCommand(world, c)
      requires exists rank :: GoodWorld(world, rank)
      ensures Valid() && w == world && command == c
      ensures forall i: nat | i < |w| :: scope[i] == None && !exact[i]
    {
      w, command := world, c;
      effectiveOverall := if c.overall.Some? then c.overall else if c.scopes == [] then Some(DEFAULT_OVERALL) else None;
      scope := seq(|world|, _ => None);
      exact := seq(|world|, _ => false);
      children := seq(|world|, _ => []);
      new;
      var i := 0;
      while i < |w|
        invariant i <= |w| && |children| == |w|
        invariant forall p: nat | p < |w| :: children[p] == ChildrenBelow(w, p, i)
        invariant scope == seq(|w|, _ => None) && exact == seq(|w|, _ => false)
      {
        if w[i].kind.Prim? && w[i].kind.parent.Some? {
          var p := w[i].kind.parent.value;
          children := children[p := children[p] + [i]];
        }
        i := i + 1;
      }
    }

    /** Seeds the explicit scopes; reports the error that stands first in the source text, if there is one. */
    method SeedExplicit() returns (r: Option<ScopeError>)
      requires Valid() && forall i: nat | i < |w| :: scope[i] == None && !exact[i]
      modifies this`scope, this`exact
      ensures Valid()
      ensures r.None? <==> forall err :: !Raises(w, command, err)
      ensures r.Some? ==> Raises(w, command, r.value) && forall err | Raises(w, command, err) :: r.value.at <= err.at
      ensures r.None? ==> forall i: nat | i < |w| ::
                            && scope[i] == Explicit(command, |command.scopes|, i)
                            && (exact[i] <==> AskedExact(command, |command.scopes|, i) || i in command.additionalExact)
    {
      r := None;
      var k := 0;
      while k < |command.scopes|
        invariant Valid() && k <= |command.scopes|
        invariant r.Some? ==> exists j: nat | j < k :: EntryRaises(w, command, j, r.value)
        invariant forall j: nat, err | j < k && EntryRaises(w, command, j, err) :: r.Some? && r.value.at <= err.at
        invariant r.None? ==> forall i: nat | i < |w| ::
                                scope[i] == Explicit(command, k, i) && (exact[i] <==> AskedExact(command, k, i))
      {
        var cs := command.scopes[k];
        assert cs in command.scopes;
        var e := EntryError(w, cs);
        if e.Some? {
          var err := ScopeError(e.value, cs.at);
          assert EntryRaises(w, command, k, err);
          if r.None? || err.at < r.value.at { r := Some(err); }
        } else {
          scope := scope[cs.sig := Some(cs.scope)];
          if cs.exact { exact := exact[cs.sig := true]; }
        }
        k := k + 1;
      }
      if command.maxString.Some? && !command.stringExact {
        var err := ScopeError(StringScopeNotExact, command.at);
        if r.None? || err.at < r.value.at { r := Some(err); }
        assert Raises(w, command, err);
      }
      assert r.Some? ==> Raises(w, command, r.value);
      ghost var table, seeded := scope, exact;
      var m := 0;
      while m < |command.additionalExact|
        invariant Valid() && m <= |command.additionalExact| && scope == table
        invariant forall i: nat | i < |w| :: exact[i] <==> seeded[i] || i in command.additionalExact[..m]
      {
        assert command.additionalExact[m] in command.additionalExact;
        exact := exact[command.additionalExact[m] := true];
        m := m + 1;
      }
      assert command.additionalExact[..m] == command.additionalExact;
    }

    /** A `one` sig is forced to exactly one atom and an unscoped `lone` sig to at most one. */
    method ForceMultiplicities()
      requires Valid()
      modifies this`scope, this`exact
      ensures Valid()
      ensures forall i: nat | i < |w| :: scope[i] == Forced(w, i, old(scope[i]))
      ensures forall i: nat | i < |w| :: exact[i] <==> old(exact[i]) || Fixed(w, i, One)
    {
      ghost var s, x := scope, exact;
      var i := 0;
      while i < |w|
        invariant Valid() && i <= |w|
        invariant forall j: nat | j < |w| :: scope[j] == if j < i then Forced(w, j, s[j]) else s[j]
        invariant forall j: nat | j < |w| :: exact[j] <==> x[j] || (j < i && Fixed(w, j, One))
      {
        var sig := w[i];
        if !sig.isVar && sig.kind.Prim? {
          match sig.mult
          case Some(One) =>
            scope := scope[i := Some(1)];
            exact := exact[i := true];
          case Some(Lone) =>
            if scope[i].None? { scope := scope[i := Some(1)]; }
          case _ =>
        }
        i := i + 1;
      }
    }

    method DeriveAbstract() returns (changed: bool)
      requires Valid()
      modifies this`scope
      ensures Valid() && Pass(scope, changed) == AbstractPass(w, old(scope), |w|)
      ensures forall rank | GoodWorld(w, rank) :: ByAbstract(w, old(scope), scope)
    {
      hide Children, SumOf, UnscopedKids, Moves, Unscoped, GoodCommand;
      changed := false;
      ghost var s := scope;
      var i := 0;
      while i < |w|
        invariant Valid() && i <= |w| && Pass(scope, changed) == AbstractPass(w, s, i)
      {
        var kids := children[i];
        if w[i].isAbstract && kids != [] {
          var unscoped := UnscopedKids(scope, kids);
          var scopedSum := SumOf(scope, kids);
          if scope[i].None? && unscoped == [] {
            scope := scope[i := Some(scopedSum)];
            changed := true;
          } else if scope[i].Some? && |unscoped| == 1 {
            assert unscoped[0] in unscoped;
            scope := scope[unscoped[0] := Some(Clamped(scope[i].value, scopedSum))];
            changed := true;
          }
        }
        i := i + 1;
      }
      forall rank | GoodWorld(w, rank) { AbstractPassDerives(w, rank, s, |w|); }
    }

    method DeriveOverall() returns (changed: bool, r: Option<ScopeError>)
      requires Valid()
      modifies this`scope
      ensures Valid()
      ensures r.None? <==> OverallPass(w, effectiveOverall, old(scope), |w|).Some?
      ensures r.None? ==> OverallPass(w, effectiveOverall, old(scope), |w|) == Some(Pass(scope, changed))
      ensures r.Some? ==> r.value == ScopeError(MustSpecifyScope, command.at)
    {
      hide GoodCommand, EffectiveOverall, Children, Moves, Unscoped;
      changed, r := false, None;
      ghost var s := scope;
      var i := 0;
      while i < |w|
        invariant Valid() && i <= |w|
        invariant OverallPass(w, effectiveOverall, s, i) == Some(Pass(scope, changed))
      {
        if IsTopLevel(w, i) && scope[i].None? {
          if w[i].isEnum && children[i] == [] {
            scope := scope[i := Some(0)];
          } else {
            match effectiveOverall
            case Some(n) =>
              scope := scope[i := Some(n)];
              changed := true;
            case None =>
              OverallPassStops(w, effectiveOverall, s, i + 1, |w|);
              return changed, Some(ScopeError(MustSpecifyScope, command.at));
          }
        }
        i := i + 1;
      }
    }

    method DeriveParent() returns (changed: bool)
      requires Valid()
      modifies this`scope
      ensures Valid() && Pass(scope, changed) == ParentPass(w, old(scope), |w|)
    {
      hide Children, Moves, Unscoped, GoodCommand;
      changed := false;
      ghost var s := scope;
      var i := 0;
      while i < |w|
        invariant Valid() && i <= |w| && Pass(scope, changed) == ParentPass(w, s, i)
      {
        if IsScopable(w, i) && scope[i].None? && !IsTopLevel(w, i) {
          var p := w[i].kind.parent.value;
          if p < |w| && scope[p].Some? {
            scope := scope[i := scope[p]];
            changed := true;
          }
        }
        i := i + 1;
      }
    }

    /** Loops the passes in strict priority order until none changes anything, then raises the `some` sigs. */
    method RunFixpoint() returns (r: Option<ScopeError>)
      requires Valid()
      modifies this`scope
      ensures Valid()
      ensures r.None? <==> Fixpoint(w, effectiveOverall, old(scope)).Some?
      ensures r.None? ==> forall i: nat | i < |w| ::
                            scope[i] == Raised(w, i, Fixpoint(w, effectiveOverall, old(scope)).value[i])
      ensures r.Some? ==> r.value == ScopeError(MustSpecifyScope, command.at)
    {
      ghost var s := scope;
      while true
        invariant Valid() && Fixpoint(w, effectiveOverall, s) == Fixpoint(w, effectiveOverall, scope)
        decreases Unscoped(scope)
      {
        var changed := ExhaustAbstract();
        if changed { continue; }
        changed, r := ExhaustOverall();
        if r.Some? { return; }
        if changed { continue; }
        changed := ExhaustParent();
        if changed { continue; }
        break;
      }
      assert Fixpoint(w, effectiveOverall, s) == Some(scope);
      RaiseSome();
      r := None;
    }

    method ExhaustAbstract() returns (changed: bool)
      requires Valid()
      modifies this`scope
      ensures Valid() && Pass(scope, changed) == AbstractRun(w, old(scope))
    {
      ghost var s := scope;
      changed := DeriveAbstract();
      var again := changed;
      while again
        invariant Valid() && AbstractRun(w, s) == Pass(if again then AbstractRun(w, scope).table else scope, changed)
        decreases again, Unscoped(scope)
      {
        again := DeriveAbstract();
      }
    }

    method ExhaustOverall() returns (changed: bool, r: Option<ScopeError>)
      requires Valid()
      modifies this`scope
      ensures Valid()
      ensures r.None? <==> OverallRun(w, effectiveOverall, old(scope)).Some?
      ensures r.None? ==> OverallRun(w, effectiveOverall, old(scope)) == Some(Pass(scope, changed))
      ensures r.Some? ==> r.value == ScopeError(MustSpecifyScope, command.at)
    {
      ghost var s := scope;
      changed, r := DeriveOverall();
      var again := changed;
      while again && r.None?
        invariant Valid() && (r.Some? ==> r.value == ScopeError(MustSpecifyScope, command.at))
        invariant r.Some? ==> OverallRun(w, effectiveOverall, s).None?
        invariant r.None? && !again ==> OverallRun(w, effectiveOverall, s) == Some(Pass(scope, changed))
        invariant r.None? && again ==> changed && ContinuesOverall(w, effectiveOverall, s, scope)
        decreases again && r.None?, Unscoped(scope)
      {
        again, r := DeriveOverall();
      }
    }

    method ExhaustParent() returns (changed: bool)
      requires Valid()
      modifies this`scope
      ensures Valid() && Pass(scope, changed) == ParentRun(w, old(scope))
    {
      ghost var s := scope;
      changed := DeriveParent();
      var again := changed;
      while again
        invariant Valid() && ParentRun(w, s) == Pass(if again then ParentRun(w, scope).table else scope, changed)
        decreases again, Unscoped(scope)
      {
        again := DeriveParent();
      }
    }

    method RaiseSome()
      requires Valid()
      modifies this`scope
      ensures Valid() && forall i: nat | i < |w| :: scope[i] == Raised(w, i, old(scope[i]))
    {
      ghost var s := scope;
      var i := 0;
      while i < |w|
        invariant Valid() && i <= |w|
        invariant forall j: nat | j < |w| :: scope[j] == if j < i then Raised(w, j, s[j]) else s[j]
      {
        if !w[i].isVar && w[i].mult == Some(SomeMult) && w[i].kind.Prim? {
          var n := if scope[i].Some? then scope[i].value else 1;
          scope := scope[i := Some(if n < 1 then 1 else n)];
        }
        i := i + 1;
      }
    }

    /** Seeding, forcing and deriving: either the earliest scope error, or the scoping contract. */
    method Compute(ghost rank: seq<nat>) returns (r: Option<ScopeError>)
      requires Valid() && GoodWorld(w, rank)
      requires forall i: nat | i < |w| :: scope[i] == None && !exact[i]
      modifies this`scope, this`exact
      ensures Valid()
      ensures r.None? ==> ScopeContract(w, command, scope, exact)
      ensures r.None? ==> exists s, t ::
                Forces(w, command, s) && Justified(w, effectiveOverall, s, t) && Origins(w, effectiveOverall, s, t) && RaisedFrom(w, t, scope)
      ensures r.Some? <==> || (exists err :: Raises(w, command, err))
                           || (exists s :: Forces(w, command, s) && Strands(w, effectiveOverall, s))
      ensures (exists err :: Raises(w, command, err)) ==>
                r.Some? && Raises(w, command, r.value) && forall err | Raises(w, command, err) :: r.value.at <= err.at
    {
      r := SeedExplicit();
      if r.Some? { return; }
      ForceMultiplicities();
      ghost var s := scope;
      assert Forces(w, command, s);
      FixpointFails(w, effectiveOverall, s);
      forall s' | Forces(w, command, s') ensures s' == s { }
      r := RunFixpoint();
      if r.None? {
        ghost var t := Fixpoint(w, effectiveOverall, s).value;
        ContractHolds(w, command, rank, s, scope, exact);
        FixpointJustified(w, effectiveOverall, rank, s, s);
        FixpointOrigins(w, effectiveOverall, rank, s, s);
        assert RaisedFrom(w, t, scope);
      }
    }
  }

  ghost predicate RaisedFrom(w: World, t: Table, scope: Table) {
    |t| == |scope| == |w| && forall i: nat | i < |w| :: scope[i] == Raised(w, i, t[i])
  }

  /** No overall scope is in force and the abstract rule alone leaves a top-level sig unscoped. */
  ghost predicate Strands(w: World, overall: Option<nat>, s: Table)
    requires |s| == |w|
  {
    overall.None? && Stranded(w, AbstractRun(w, s).table)
  }

  /** The rest of an overall run, in its middle. */
  ghost predicate ContinuesOverall(w: World, overall: Option<nat>, s: Table, s': Table)
    requires |s| == |w| == |s'|
  {
    && (OverallRun(w, overall, s).None? <==> OverallRun(w, overall, s').None?)
    && (OverallRun(w, overall, s).Some? ==> OverallRun(w, overall, s).value == Pass(OverallRun(w, overall, s').value.table, true))
  }


  lemma {:induction false} OverallPassStops(w: World, overall: Option<nat>, s: Table, upto: nat, all: nat)
    requires |s| == |w| && upto <= all <= |w| && OverallPass(w, overall, s, upto).None?
    ensures OverallPass(w, overall, s, all).None?
    decreases all
  {
    if upto < all { OverallPassStops(w, overall, s, upto, all - 1); }
  }
}
