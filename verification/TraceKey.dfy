/** Infinite lasso traces and their canonical keys (crates/als-core/src/temporal_enum.rs,
    crates/als-core/src/temporal_solve.rs). */
module TraceKey {
  import opened Algebra
  import opened Arithmetic

  /** The contents of a model's variable relations in one state. */
  type State = map<nat, TupleSet>

  /** `states` followed for ever by the states from `loop` on. */
  datatype Lasso = Lasso(states: seq<State>, loop: nat)

  predicate Valid(l: Lasso) {
    l.loop < |l.states|
  }

  function Cycle(l: Lasso): (c: nat)
    requires Valid(l)
    ensures c >= 1
  {
    |l.states| - l.loop
  }

  /** The state at a position of the infinite trace. */
  function At(l: Lasso, i: nat): State
    requires Valid(l)
  {
    l.states[if i < |l.states| then i else (i - l.loop) % Cycle(l) + l.loop]
  }

  ghost predicate SameTrace(a: Lasso, b: Lasso)
    requires Valid(a) && Valid(b)
  {
    forall i: nat :: At(a, i) == At(b, i)
  }

  /** The trace has period `q` from position `p` on. */
  ghost predicate Repeats(l: Lasso, p: nat, q: nat)
    requires Valid(l)
  {
    q >= 1 && forall i: nat | i >= p :: At(l, i) == At(l, i + q)
  }

  datatype Key = Key(prefix: nat, period: nat, content: seq<State>)

  /** Reproducing the cycle with its first `q` states. */
  predicate Passes(l: Lasso, q: nat)
    requires Valid(l) && q >= 1
  {
    forall i | l.loop <= i < |l.states| :: At(l, i) == At(l, l.loop + (i - l.loop) % q)
  }

  function Period(l: Lasso, q: nat): (r: nat)
    requires Valid(l) && 1 <= q <= Cycle(l)
    ensures q <= r <= Cycle(l)
    decreases Cycle(l) - q
  {
    if q == Cycle(l) || (Cycle(l) % q == 0 && Passes(l, q)) then q else Period(l, q + 1)
  }

  function Prefix(l: Lasso, q: nat, p: nat): (r: nat)
    requires Valid(l)
    ensures r <= p
  {
    if p > 0 && At(l, p - 1) == At(l, p - 1 + q) then Prefix(l, q, p - 1) else p
  }

  function KeyOf(l: Lasso): Key
    requires Valid(l)
  {
    var q := Period(l, 1);
    var p := Prefix(l, q, l.loop);
    Key(p, q, seq(p + q, i requires 0 <= i < p + q => At(l, i)))
  }

  // ------------------------------------------------------------------ the loops that compute it

  method ComputeKey(l: Lasso) returns (key: Key)
    requires Valid(l)
    ensures key == KeyOf(l)
  {
    var period := LeastPeriod(l);
    var prefix: nat := l.loop;
    while prefix > 0 && At(l, prefix - 1) == At(l, prefix - 1 + period)
      invariant prefix <= l.loop && Prefix(l, period, l.loop) == Prefix(l, period, prefix)
    {
      prefix := prefix - 1;
    }
    var content := [];
    var i := 0;
    while i < prefix + period
      invariant 0 <= i <= prefix + period
      invariant content == seq(i, j requires 0 <= j < i => At(l, j))
    {
      content := content + [At(l, i)];
      i := i + 1;
    }
    key := Key(prefix, period, content);
  }

  method LeastPeriod(l: Lasso) returns (period: nat)
    requires Valid(l)
    ensures period == Period(l, 1)
  {
    var cycle := |l.states| - l.loop;
    period := cycle;
    var q := 1;
    while q <= cycle
      invariant 1 <= q <= cycle + 1
      invariant period == cycle && (q <= cycle ==> Period(l, 1) == Period(l, q)) && (q == cycle + 1 ==> Period(l, 1) == cycle)
    {
      if cycle % q == 0 {
        var passes := Reproduces(l, q);
        if passes { period := q; break; }
      }
      q := q + 1;
    }
  }

  method Reproduces(l: Lasso, q: nat) returns (all: bool)
    requires Valid(l) && q >= 1
    ensures all == Passes(l, q)
  {
    var i := l.loop;
    while i < |l.states|
      invariant l.loop <= i <= |l.states|
      invariant forall j | l.loop <= j < i :: At(l, j) == At(l, l.loop + (j - l.loop) % q)
    {
      if At(l, i) != At(l, l.loop + (i - l.loop) % q) { return false; }
      i := i + 1;
    }
    all := true;
  }

  // ------------------------------------------------------------------ periods

  lemma ModTimes(a: nat, m: nat, c: nat)
    requires c >= 1
    ensures (a + m * c) % c == a % c
  {
    ModShift(a, m, c);
  }

  lemma ModPlus(a: nat, c: nat)
    requires c >= 1
    ensures (a + c) % c == a % c
  {
    ModTimes(a, 1, c);
  }

  /** Taking remainders by a multiple first changes nothing. */
  lemma ModMod(a: nat, c: nat, q: nat)
    requires c >= 1 && q >= 1 && c % q == 0
    ensures (a % c) % q == a % q
  {
    var m := c / q;
    assert c == m * q;
    var n := a / c;
    assert a == a % c + n * c;
    assert n * c == (n * m) * q;
    ModTimes(a % c, n * m, q);
  }

  /** From the loop on, the trace walks the cycle. */
  lemma AtLoop(l: Lasso, i: nat)
    requires Valid(l) && i >= l.loop
    ensures At(l, i) == l.states[l.loop + (i - l.loop) % Cycle(l)]
  {
    if i < |l.states| { assert (i - l.loop) % Cycle(l) == i - l.loop; }
  }

  lemma CycleRepeats(l: Lasso)
    requires Valid(l)
    ensures Repeats(l, l.loop, Cycle(l))
  {
    forall i: nat | i >= l.loop
      ensures At(l, i) == At(l, i + Cycle(l))
    {
      AtLoop(l, i);
      AtLoop(l, i + Cycle(l));
      ModPlus(i - l.loop, Cycle(l));
    }
  }

  lemma {:induction false} RepeatsMany(l: Lasso, p: nat, q: nat, i: nat, m: nat)
    requires Valid(l) && Repeats(l, p, q) && i >= p
    ensures At(l, i) == At(l, i + m * q)
    decreases m
  {
    if m > 0 {
      RepeatsMany(l, p, q, i, m - 1);
      assert i + m * q == (i + (m - 1) * q) + q;
    }
  }

  /** Any eventual period already holds from the loop on. */
  lemma RepeatsFromLoop(l: Lasso, p: nat, q: nat)
    requires Valid(l) && Repeats(l, p, q)
    ensures Repeats(l, l.loop, q)
  {
    CycleRepeats(l);
    forall i: nat | i >= l.loop
      ensures At(l, i) == At(l, i + q)
    {
      var j := i + p * Cycle(l);
      assert j >= p by { assert p * Cycle(l) >= p; }
      RepeatsMany(l, l.loop, Cycle(l), i, p);
      RepeatsMany(l, l.loop, Cycle(l), i + q, p);
      assert j + q == (i + q) + p * Cycle(l);
    }
  }

  /** Euclid's step: the remainder of two periods is a period. */
  lemma RemainderRepeats(l: Lasso, p: nat, q: nat, g: nat)
    requires Valid(l) && Repeats(l, p, q) && Repeats(l, p, g) && q % g != 0
    ensures Repeats(l, p, q % g)
  {
    var r := q % g;
    forall i: nat | i >= p
      ensures At(l, i) == At(l, i + r)
    {
      RepeatsMany(l, p, g, i + r, q / g);
      assert i + q == (i + r) + (q / g) * g;
    }
  }

  lemma PassesRepeats(l: Lasso, q: nat)
    requires Valid(l) && q >= 1 && Cycle(l) % q == 0 && Passes(l, q)
    ensures Repeats(l, l.loop, q)
  {
    forall i: nat | i >= l.loop
      ensures At(l, i) == At(l, i + q)
    {
      Folded(l, q, i);
      Folded(l, q, i + q);
      ModPlus(i - l.loop, q);
    }
  }

  lemma Folded(l: Lasso, q: nat, i: nat)
    requires Valid(l) && q >= 1 && Cycle(l) % q == 0 && Passes(l, q) && i >= l.loop
    ensures At(l, i) == At(l, l.loop + (i - l.loop) % q)
  {
    var j := l.loop + (i - l.loop) % Cycle(l);
    AtLoop(l, i);
    assert At(l, j) == At(l, l.loop + (j - l.loop) % q);
    ModMod(i - l.loop, Cycle(l), q);
  }

  lemma RepeatsPasses(l: Lasso, q: nat)
    requires Valid(l) && Repeats(l, l.loop, q)
    ensures Passes(l, q)
  {
    forall i | l.loop <= i < |l.states|
      ensures At(l, i) == At(l, l.loop + (i - l.loop) % q)
    {
      var d := i - l.loop;
      RepeatsMany(l, l.loop, q, l.loop + d % q, d / q);
      assert i == l.loop + d % q + (d / q) * q;
    }
  }

  /** The least divisor of the cycle that reproduces it is the least of all eventual periods, and divides
      every one of them. */
  lemma PeriodLeast(l: Lasso)
    requires Valid(l)
    ensures Repeats(l, l.loop, Period(l, 1))
    ensures forall p: nat, q: nat | Repeats(l, p, q) :: Period(l, 1) <= q && q % Period(l, 1) == 0
  {
    CycleRepeats(l);
    var g := 1;
    while !Repeats(l, l.loop, g)
      invariant 1 <= g <= Cycle(l)
      invariant forall q: nat | 1 <= q < g :: !Repeats(l, l.loop, q)
      decreases Cycle(l) - g
    {
      g := g + 1;
    }
    forall p: nat, q: nat | Repeats(l, p, q)
      ensures g <= q && q % g == 0
    {
      RepeatsFromLoop(l, p, q);
      if q % g != 0 { RemainderRepeats(l, l.loop, q, g); }
    }
    assert Cycle(l) % g == 0;
    RepeatsPasses(l, g);
    PeriodFound(l, 1, g);
    var q := Period(l, 1);
    if q < Cycle(l) { PeriodPasses(l, 1); PassesRepeats(l, q); }
  }

  lemma {:induction false} PeriodFound(l: Lasso, q: nat, g: nat)
    requires Valid(l) && 1 <= q <= g <= Cycle(l) && Cycle(l) % g == 0 && Passes(l, g)
    ensures Period(l, q) <= g
    decreases g - q
  {
    if q < g { PeriodFound(l, q + 1, g); }
  }

  lemma {:induction false} PeriodPasses(l: Lasso, q: nat)
    requires Valid(l) && 1 <= q <= Cycle(l) && Period(l, q) < Cycle(l)
    ensures Cycle(l) % Period(l, q) == 0 && Passes(l, Period(l, q))
    decreases Cycle(l) - q
  {
    if !(Cycle(l) % q == 0 && Passes(l, q)) { PeriodPasses(l, q + 1); }
  }

  lemma {:induction false} PrefixLeast(l: Lasso, q: nat, p: nat)
    requires Valid(l) && Repeats(l, p, q)
    ensures Repeats(l, Prefix(l, q, p), q)
    ensures forall p': nat | Repeats(l, p', q) :: Prefix(l, q, p) <= p'
    decreases p
  {
    if p > 0 && At(l, p - 1) == At(l, p - 1 + q) {
      assert Repeats(l, p - 1, q);
      PrefixLeast(l, q, p - 1);
    }
  }

  // ------------------------------------------------------------------ the key is canonical

  /** Prefix and period of the key are the least the trace allows. */
  lemma KeyMinimal(l: Lasso)
    requires Valid(l)
    ensures var k := KeyOf(l); Repeats(l, k.prefix, k.period)
    ensures var k := KeyOf(l); forall p: nat, q: nat | Repeats(l, p, q) :: k.period <= q && k.prefix <= p && q % k.period == 0
    ensures KeyOf(l).prefix + KeyOf(l).period <= |l.states|
  {
    var q := Period(l, 1);
    PeriodLeast(l);
    PrefixLeast(l, q, l.loop);
    var p := Prefix(l, q, l.loop);
    forall p': nat, q': nat | Repeats(l, p', q')
      ensures q <= q' && p <= p' && q' % q == 0
    {
      PeriodStarts(l, p', q', q);
    }
  }

  /** The least period already holds wherever any period does. */
  lemma PeriodStarts(l: Lasso, p: nat, q: nat, g: nat)
    requires Valid(l) && Repeats(l, p, q) && Repeats(l, l.loop, g)
    ensures Repeats(l, p, g)
  {
    forall i: nat | i >= p
      ensures At(l, i) == At(l, i + g)
    {
      var far := Far(l, p, q, i);
      RepeatsMany(l, p, q, i, l.loop);
      RepeatsMany(l, p, q, i + g, l.loop);
    }
  }

  lemma Far(l: Lasso, p: nat, q: nat, i: nat) returns (far: nat)
    requires q >= 1
    ensures far == i + l.loop * q && far >= l.loop
  {
    far := i + l.loop * q;
    MulLower(l.loop, q);
  }

  lemma {:induction false} KeyDetermines(a: Lasso, b: Lasso, i: nat)
    requires Valid(a) && Valid(b) && KeyOf(a) == KeyOf(b)
    ensures At(a, i) == At(b, i)
    decreases i
  {
    var k := KeyOf(a);
    KeyMinimal(a);
    KeyMinimal(b);
    if i < k.prefix + k.period {
      assert k.content[i] == At(a, i) && KeyOf(b).content[i] == At(b, i);
    } else {
      KeyDetermines(a, b, i - k.period);
      assert At(a, i - k.period) == At(a, i - k.period + k.period);
      assert At(b, i - k.period) == At(b, i - k.period + k.period);
    }
  }

  lemma SameRepeats(a: Lasso, b: Lasso, p: nat, q: nat)
    requires Valid(a) && Valid(b) && SameTrace(a, b) && Repeats(a, p, q)
    ensures Repeats(b, p, q)
  {
  }

  /** Two lassos of any lengths and loop targets have equal keys exactly when they denote the same
      infinite trace. */
  lemma KeyCanonical(a: Lasso, b: Lasso)
    requires Valid(a) && Valid(b)
    ensures KeyOf(a) == KeyOf(b) <==> SameTrace(a, b)
  {
    if KeyOf(a) == KeyOf(b) {
      forall i: nat ensures At(a, i) == At(b, i) { KeyDetermines(a, b, i); }
    }
    if SameTrace(a, b) {
      var k, k' := KeyOf(a), KeyOf(b);
      KeyMinimal(a);
      KeyMinimal(b);
      SameRepeats(a, b, k.prefix, k.period);
      SameRepeats(b, a, k'.prefix, k'.period);
      assert k.content == k'.content;
    }
  }

  /** No lasso for the trace is shorter than its key. */
  lemma KeyShortest(a: Lasso, b: Lasso)
    requires Valid(a) && Valid(b) && SameTrace(a, b)
    ensures KeyOf(a).prefix + KeyOf(a).period <= |b.states|
  {
    KeyCanonical(a, b);
    KeyMinimal(b);
  }
}
