/** Minting the atom universe (crates/als-core/src/scope.rs): the walk over the sig forest appends each
    sig's atoms, then come the integer atoms and the string atoms. */
module UniverseMint {
  import opened Wrappers
  import opened SigForest
  import opened AtomNames
  import Arithmetic

  /** A sig's own run of atoms. */
  datatype Minted = Minted(first: nat, count: nat)

  datatype Universe = Universe(atoms: seq<string>, sigAtoms: nat, intAtoms: nat, literals: map<string, nat>)

  /** `count` atoms from `first` on carry one label and ascending indices. */
  ghost predicate Labelled(atoms: seq<string>, first: nat, count: nat, base: string) {
    first + count <= |atoms| && forall k: nat | k < count :: atoms[first + k] == AtomName(base, k)
  }

  /** A run's label: the sig's own, or, when that is taken, its first numbering that is not. */
  ghost predicate FirstFree(name: string, own: string, used: set<string>) {
    || own == name
    || (name in used && exists suffix: nat | suffix >= 2 :: own == Numbered(name, suffix)
                                                            && forall j: nat | 2 <= j < suffix :: Numbered(name, j) in used)
  }

  /** A minted sig's run carries a label made from the sig's own name. */
  ghost predicate RunLabelled(labels: seq<string>, minted: map<nat, Minted>, atoms: seq<string>, runs: map<nat, string>, used: set<string>,
                              sig: nat)
    requires sig in runs && sig in minted
  {
    && sig < |labels| && FirstFree(labels[sig], runs[sig], used)
    && Labelled(atoms, minted[sig].first, minted[sig].count, runs[sig])
  }

  /** Every minted sig has a label of its own, made from its own name. */
  ghost predicate RunsLabelled(labels: seq<string>, minted: map<nat, Minted>, atoms: seq<string>, runs: map<nat, string>, used: set<string>) {
    && minted.Keys == runs.Keys
    && (forall l | l in used :: exists sig :: sig in runs && runs[sig] == l) && (forall sig | sig in runs :: runs[sig] in used)
    && (forall a, b | a in runs && b in runs && a != b :: runs[a] != runs[b])
    && forall sig | sig in runs :: RunLabelled(labels, minted, atoms, runs, used, sig)
  }

  ghost predicate RunNamed(atoms: seq<string>, first: nat, count: nat) {
    exists base :: Labelled(atoms, first, count, base)
  }

  /** The walk has left this sig's final scope, and its own run if it mints any atoms. */
  ghost predicate Recorded(scope: map<nat, nat>, minted: map<nat, Minted>, atoms: seq<string>, q: Place) {
    var first := q.first + KidsCount(q.t.kids);
    && q.t.sig in scope && scope[q.t.sig] == FinalScope(q.t)
    && (q.t.sig in minted <==> Own(q.t, q.top) > 0)
    && (q.t.sig in minted ==>
          && minted[q.t.sig] == Minted(first, Own(q.t, q.top))
          && RunNamed(atoms, first, Own(q.t, q.top)))
  }

  ghost predicate AllRecorded(scope: map<nat, nat>, minted: map<nat, Minted>, atoms: seq<string>, p: Place) {
    forall q | q in Places(p) :: Recorded(scope, minted, atoms, q)
  }

  /** Not walked yet: the derived scope stands, and nothing is minted. */
  ghost predicate Pending(scope: map<nat, nat>, minted: map<nat, Minted>, p: Place) {
    forall q | q in Places(p) :: q.t.sig in scope && scope[q.t.sig] == q.t.scope && q.t.sig !in minted
  }

  ghost predicate SameOutside<V>(m: map<nat, V>, m': map<nat, V>, touched: set<nat>) {
    forall x: nat | x !in touched :: (x in m <==> x in m') && (x in m ==> m[x] == m'[x])
  }

  lemma GrowOutside<V>(m: map<nat, V>, m': map<nat, V>, m'': map<nat, V>, s: set<nat>, s': set<nat>)
    requires SameOutside(m, m', s) && SameOutside(m', m'', s')
    ensures SameOutside(m, m'', s + s')
  {
  }

  lemma RunAdded(labels: seq<string>, minted: map<nat, Minted>, atoms: seq<string>, runs: map<nat, string>, used: set<string>,
                 sig: nat, base: string, run: Minted, atoms': seq<string>)
    requires RunsLabelled(labels, minted, atoms, runs, used) && sig < |labels| && sig !in minted && base !in used && atoms <= atoms'
    requires FirstFree(labels[sig], base, used) && Labelled(atoms', run.first, run.count, base)
    ensures RunsLabelled(labels, minted[sig := run], atoms', runs[sig := base], used + {base})
  {
    hide FirstFree, Labelled, RunLabelled;
    var runs', minted' := runs[sig := base], minted[sig := run];
    forall l | l in used + {base} ensures exists x :: x in runs' && runs'[x] == l {
      if l in used {
        var x :| x in runs && runs[x] == l;
        assert x in runs' && runs'[x] == l;
      } else {
        assert sig in runs' && runs'[sig] == l;
      }
    }
    forall x | x in runs' ensures RunLabelled(labels, minted', atoms', runs', used + {base}, x) {
      RunStays(labels, minted, atoms, runs, used, sig, base, run, atoms', x);
    }
  }

  lemma RunStays(labels: seq<string>, minted: map<nat, Minted>, atoms: seq<string>, runs: map<nat, string>, used: set<string>,
                 sig: nat, base: string, run: Minted, atoms': seq<string>, x: nat)
    requires sig < |labels| && atoms <= atoms' && FirstFree(labels[sig], base, used) && Labelled(atoms', run.first, run.count, base)
    requires x in runs[sig := base] && x in minted[sig := run]
    requires x != sig ==> RunLabelled(labels, minted, atoms, runs, used, x)
    ensures RunLabelled(labels, minted[sig := run], atoms', runs[sig := base], used + {base}, x)
  {
    hide FirstFree;
    if x != sig {
      FreeStays(labels[x], runs[x], used, base);
      assert Labelled(atoms, minted[x].first, minted[x].count, runs[x]);
      assert Labelled(atoms', minted[x].first, minted[x].count, runs[x]);
    } else {
      FreeStays(labels[x], base, used, base);
    }
  }

  lemma RunsKept(labels: seq<string>, minted: map<nat, Minted>, atoms: seq<string>, runs: map<nat, string>, used: set<string>, atoms': seq<string>)
    requires RunsLabelled(labels, minted, atoms, runs, used) && atoms <= atoms'
    ensures RunsLabelled(labels, minted, atoms', runs, used)
  {
    hide FirstFree;
    forall x | x in runs ensures RunLabelled(labels, minted, atoms', runs, used, x) {
      assert RunLabelled(labels, minted, atoms, runs, used, x);
    }
  }

  lemma NameFree(name: string, base: string, used: set<string>)
    requires name !in used ==> base == name
    requires name in used ==> exists suffix: nat | suffix >= 2 :: base == Numbered(name, suffix)
                                                                  && forall j: nat | 2 <= j < suffix :: Numbered(name, j) in used
    ensures FirstFree(name, base, used)
  {
  }

  lemma FreeStays(name: string, own: string, used: set<string>, more: string)
    requires FirstFree(name, own, used)
    ensures FirstFree(name, own, used + {more})
  {
    if own != name {
      var suffix: nat :| suffix >= 2 && own == Numbered(name, suffix) && forall j: nat | 2 <= j < suffix :: Numbered(name, j) in used;
      assert own == Numbered(name, suffix) && forall j: nat | 2 <= j < suffix :: Numbered(name, j) in used + {more};
    }
  }

  lemma OneKept(scope: map<nat, nat>, minted: map<nat, Minted>, atoms: seq<string>,
                scope': map<nat, nat>, minted': map<nat, Minted>, atoms': seq<string>, q: Place, touched: set<nat>)
    requires Recorded(scope, minted, atoms, q) && SameOutside(scope, scope', touched) && SameOutside(minted, minted', touched)
    requires atoms <= atoms' && q.t.sig !in touched
    ensures Recorded(scope', minted', atoms', q)
  {
    hide KidsCount, Own, FinalScope;
    var first, n := q.first + KidsCount(q.t.kids), Own(q.t, q.top);
    if q.t.sig in minted {
      var base :| Labelled(atoms, first, n, base);
      assert Labelled(atoms', first, n, base);
    }
  }

  lemma RecordedKept(scope: map<nat, nat>, minted: map<nat, Minted>, atoms: seq<string>,
                     scope': map<nat, nat>, minted': map<nat, Minted>, atoms': seq<string>, p: Place, touched: set<nat>)
    requires AllRecorded(scope, minted, atoms, p) && SameOutside(scope, scope', touched) && SameOutside(minted, minted', touched)
    requires atoms <= atoms' && Sigs(p.t) !! touched
    ensures AllRecorded(scope', minted', atoms', p)
  {
    hide Recorded, SameOutside, Places, Sigs;
    forall q | q in Places(p) ensures Recorded(scope', minted', atoms', q) {
      PlaceSig(p, q);
      OneKept(scope, minted, atoms, scope', minted', atoms', q, touched);
    }
  }

  lemma PendingKept(scope: map<nat, nat>, minted: map<nat, Minted>, scope': map<nat, nat>, minted': map<nat, Minted>, p: Place, touched: set<nat>)
    requires Pending(scope, minted, p) && SameOutside(scope, scope', touched) && SameOutside(minted, minted', touched)
    requires Sigs(p.t) !! touched
    ensures Pending(scope', minted', p)
  {
    forall q | q in Places(p)
      ensures q.t.sig in scope' && scope'[q.t.sig] == q.t.scope && q.t.sig !in minted'
    {
      PlaceSig(p, q);
    }
  }

  predicate NoRepeats<T(==)>(s: seq<T>) {
    forall j, k | 0 <= j < k < |s| :: s[j] != s[k]
  }

  lemma EntryAdded(ledger: seq<(string, nat)>, base: string, k: nat)
    requires NoRepeats(ledger) && forall j | 0 <= j < |ledger| && ledger[j].0 == base :: ledger[j].1 < k
    ensures NoRepeats(ledger + [(base, k)])
  {
  }

  /** A label is an identifier, so it starts with no quote. */
  predicate Bare(base: string) {
    base == "" || base[0] != '"'
  }

  class UniverseBuilder {
    const labels: seq<string>
    var scope: map<nat, nat>
    var atoms: seq<string>
    var minted: map<nat, Minted>
    var usedLabels: set<string>
    /** The label and index behind each sig atom. */
    ghost var ledger: seq<(string, nat)>
    /** The label each sig's run carries. */
    ghost var runLabels: map<nat, string>

    ghost predicate Valid()
      reads this`atoms, this`usedLabels, this`ledger, this`minted, this`runLabels
    {
      && NamesOk()
      && RunsLabelled(labels, minted, atoms, runLabels, usedLabels)
    }

    ghost predicate NamesOk()
      reads this`atoms, this`usedLabels, this`ledger
    {
      NamesWith(usedLabels)
    }

    /** Atoms are named by distinct entries of the ledger. */
    ghost predicate NamesWith(used: set<string>)
      reads this`atoms, this`ledger
    {
      && (forall l | l in labels :: Bare(l))
      && |ledger| == |atoms| && NoRepeats(ledger)
      && (forall k | 0 <= k < |atoms| :: atoms[k] == AtomName(ledger[k].0, ledger[k].1) && ledger[k].0 in used)
      && (forall l | l in used :: Bare(l))
    }

    constructor (names: seq<string>, table: map<nat, nat>)
      requires forall l | l in names :: Bare(l)
      ensures Valid() && labels == names && scope == table && atoms == [] && minted == map[] && usedLabels == {}
    {
      labels, scope, atoms, minted, usedLabels := names, table, [], map[], {};
      ledger := [];
      runLabels := map[];
    }

    /** A label not used before: the given one, else the first free numbered one. */
    method UniqueLabel(base: string) returns (r: string)
      requires Bare(base)
      modifies this`usedLabels
      ensures r !in old(usedLabels) && usedLabels == old(usedLabels) + {r} && Bare(r)
      ensures base !in old(usedLabels) ==> r == base
      ensures base in old(usedLabels) ==>
                exists suffix: nat | suffix >= 2 :: r == Numbered(base, suffix)
                                                    && forall j: nat | 2 <= j < suffix :: Numbered(base, j) in old(usedLabels)
    {
      if base !in usedLabels {
        usedLabels := usedLabels + {base};
        return base;
      }
      var suffix: nat := 2;
      ghost var free := usedLabels;
      while Numbered(base, suffix) in usedLabels
        invariant suffix >= 2 && free <= usedLabels == old(usedLabels)
        invariant forall j: nat | 2 <= j < suffix :: Numbered(base, j) in usedLabels
        invariant forall l | l in usedLabels - free :: exists j: nat | 2 <= j < suffix :: l == Numbered(base, j)
        decreases |free|
      {
        forall j: nat | 2 <= j < suffix ensures Numbered(base, j) != Numbered(base, suffix) { NumberedInjective(base, j, suffix); }
        assert Numbered(base, suffix) !in usedLabels - free;
        ghost var free0 := free;
        free := free - {Numbered(base, suffix)};
        forall l | l in usedLabels - free ensures exists j: nat | 2 <= j < suffix + 1 :: l == Numbered(base, j) {
          if l in free0 {
            assert l == Numbered(base, suffix);
          } else {
            assert l in usedLabels - free0;
            var j: nat :| 2 <= j < suffix && l == Numbered(base, j);
            assert 2 <= j < suffix + 1;
          }
        }
        suffix := suffix + 1;
      }
      r := Numbered(base, suffix);
      usedLabels := usedLabels + {r};
    }

    /** Appends the atoms of a sig's subtree, children first, and returns how many there are. */
    method Walk(t: Node, top: bool, ghost p: Place) returns (lower: nat)
      requires Valid() && p.t == t && p.top == top && p.first == |atoms| && Distinct(t)
      requires Pending(scope, minted, p) && forall x | x in Sigs(t) :: x < |labels|
      modifies this
      ensures Valid() && lower == Count(t, top)
      ensures |atoms| == |old(atoms)| + Count(t, top) && old(atoms) <= atoms
      ensures AllRecorded(scope, minted, atoms, p)
      ensures SameOutside(old(scope), scope, Sigs(t)) && SameOutside(old(minted), minted, Sigs(t))
      decreases t, 1
    {
      hide Recorded, SameOutside, Pending, KidsRecorded, AllRecorded, RunNamed, Places, KidsCount, KidSigs, Valid, Bare;
      ghost var scope0, minted0 := scope, minted;
      lower := WalkKids(t, p);
      ghost var s, m, a := scope, minted, atoms;
      RootPending(scope0, minted0, scope, minted, p);
      assert t.sig in Sigs(t);
      lower := Settle(t, top, lower);
      RootRecorded(scope0, minted0, s, m, a, scope, minted, atoms, p);
      TreeWalked(s, m, a, scope, minted, atoms, p);
    }

    method WalkKids(t: Node, ghost p: Place) returns (lower: nat)
      requires Valid() && p.t == t && p.first == |atoms| && Distinct(t)
      requires Pending(scope, minted, p) && forall x | x in Sigs(t) :: x < |labels|
      modifies this
      ensures Valid() && lower == KidsCount(t.kids)
      ensures |atoms| == |old(atoms)| + lower && old(atoms) <= atoms
      ensures KidsRecorded(scope, minted, atoms, p, |t.kids|)
      ensures SameOutside(old(scope), scope, KidSigs(t.kids)) && SameOutside(old(minted), minted, KidSigs(t.kids))
      decreases t, 0
    {
      hide Recorded, SameOutside, Pending, KidsRecorded, AllRecorded, Places, KidsCount, KidSigs, Valid, Distinct;
      lower := 0;
      var i := 0;
      ghost var scope0, minted0, atoms0 := scope, minted, atoms;
      NothingWalked(scope, minted, atoms, p);
      while i < |t.kids|
        invariant i <= |t.kids| && Valid() && atoms0 <= atoms
        invariant lower == KidsCount(t.kids[..i]) && |atoms| == p.first + lower
        invariant KidsRecorded(scope, minted, atoms, p, i)
        invariant SameOutside(scope0, scope, KidSigs(t.kids[..i])) && SameOutside(minted0, minted, KidSigs(t.kids[..i]))
      {
        KidPending(scope0, minted0, scope, minted, p, i);
        ghost var s, m, a := scope, minted, atoms;
        KidInside(t, i);
        var n := Walk(t.kids[i], false, Kid(p, i));
        KidWalked(s, m, a, scope, minted, atoms, p, i);
        GrowOutside(scope0, s, scope, KidSigs(t.kids[..i]), Sigs(t.kids[i]));
        GrowOutside(minted0, m, minted, KidSigs(t.kids[..i]), Sigs(t.kids[i]));
        lower := lower + n;
        i := i + 1;
      }
      assert t.kids[..i] == t.kids;
    }

    /** Raises the sig's scope to what its children need and mints its own atoms. */
    method Settle(t: Node, top: bool, kids: nat) returns (lower: nat)
      requires Valid() && t.sig < |labels| && t.sig !in minted && kids == KidsCount(t.kids)
      requires t.sig in scope && scope[t.sig] == t.scope
      modifies this
      ensures Valid() && lower == Count(t, top)
      ensures scope == if t.scope < kids then old(scope)[t.sig := kids] else old(scope)
      ensures minted == if Own(t, top) > 0 then old(minted)[t.sig := Minted(|old(atoms)|, Own(t, top))] else old(minted)
      ensures |atoms| == |old(atoms)| + Own(t, top) && old(atoms) <= atoms
      ensures Own(t, top) > 0 ==> RunNamed(atoms, |old(atoms)|, Own(t, top))
    {
      hide RunNamed, KidsCount, Valid, Bare;
      lower := kids;
      var n := scope[t.sig];
      if n < lower {
        n := lower;
        scope := scope[t.sig := n];
      }
      if n > lower && (t.exact || top) {
        assert Bare(labels[t.sig]) by { LabelBare(t.sig); }
        MintRun(t.sig, labels[t.sig], n - lower);
        lower := n;
      }
    }

    lemma LabelBare(sig: nat)
      requires Valid() && sig < |labels|
      ensures Bare(labels[sig])
    {
      assert labels[sig] in labels;
    }

    /** Mints `count` atoms under a fresh label. */
    method MintRun(sig: nat, name: string, count: nat)
      requires Valid() && Bare(name) && sig < |labels| && name == labels[sig] && sig !in minted
      modifies this
      ensures Valid() && scope == old(scope)
      ensures |atoms| == |old(atoms)| + count && old(atoms) <= atoms
      ensures minted == old(minted)[sig := Minted(|old(atoms)|, count)]
      ensures RunNamed(atoms, |old(atoms)|, count)
    {
      hide RunsLabelled, NamesWith, FirstFree, Numbered, Labelled;
      ghost var used, runs, atoms0, minted0 := usedLabels, runLabels, atoms, minted;
      assert NamesWith(used);
      var base := UniqueLabel(name);
      assert FirstFree(name, base, used) by { NameFree(name, base, used); }
      var first := |atoms|;
      MintAtoms(base, count, used);
      minted := minted[sig := Minted(first, count)];
      runLabels := runLabels[sig := base];
      RunAdded(labels, minted0, atoms0, runs, used, sig, base, Minted(first, count), atoms);
    }

    /** Appends `count` atoms under a label no atom carries yet. */
    method MintAtoms(base: string, count: nat, ghost used: set<string>)
      requires NamesWith(used) && base !in used && Bare(base) && usedLabels == used + {base}
      modifies this`atoms, this`ledger
      ensures NamesOk() && |atoms| == |old(atoms)| + count && old(atoms) <= atoms
      ensures Labelled(atoms, |old(atoms)|, count, base)
    {
      hide NoRepeats, AtomName;
      ghost var atoms0 := atoms;
      var first := |atoms|;
      var k := 0;
      while k < count
        invariant k <= count && atoms0 <= atoms && |atoms| == first + k
        invariant NamesOk()
        invariant forall j: nat | j < k :: atoms[first + j] == AtomName(base, j)
        invariant forall j | 0 <= j < |ledger| && ledger[j].0 == base :: ledger[j].1 < k
      {
        EntryAdded(ledger, base, k);
        atoms := atoms + [AtomName(base, k)];
        ledger := ledger + [(base, k)];
        k := k + 1;
      }
    }

    /** The roots in turn, each subtree's atoms after the one before. */
    method WalkForest(forest: seq<Node>)
      requires Valid() && atoms == [] && AllDistinct(forest)
      requires RootsPending(scope, minted, forest, 0) && forall x | x in KidSigs(forest) :: x < |labels|
      modifies this
      ensures Valid() && |atoms| == TopCount(forest)
      ensures forall q | q in AllPlaces(forest) :: Recorded(scope, minted, atoms, q)
      ensures SameOutside(old(minted), minted, KidSigs(forest))
    {
      hide Recorded, SameOutside, Pending, AllRecorded, RootsRecorded, RootsPending, Places, TopCount, KidSigs, Valid, AllPlaces;
      var i := 0;
      ghost var scope0, minted0 := scope, minted;
      NoRootWalked(scope, minted, atoms, forest);
      while i < |forest|
        invariant i <= |forest| && Valid() && |atoms| == TopCount(forest[..i])
        invariant RootsRecorded(scope, minted, atoms, forest, i) && RootsPending(scope, minted, forest, i)
        invariant SameOutside(minted0, minted, KidSigs(forest[..i]))
      {
        ghost var s, m, a := scope, minted, atoms;
        NextRoot(scope, minted, forest, i);
        var _ := Walk(forest[i], true, Root(forest, i));
        RootWalked(s, m, a, scope, minted, atoms, forest, i);
        GrowOutside(minted0, m, minted, KidSigs(forest[..i]), Sigs(forest[i]));
        i := i + 1;
      }
      assert forest[..i] == forest;
      ForestRecorded(scope, minted, atoms, forest);
    }

    /** The ordered universe: sig atoms, then integers ascending, then strings; no name twice. */
    method Finish(forest: seq<Node>, bitwidth: nat, referenced: seq<string>, maxString: Option<nat>) returns (r: Option<Universe>)
      requires Valid() && atoms == [] && minted == map[] && AllDistinct(forest)
      requires RootsPending(scope, minted, forest, 0) && forall x | x in KidSigs(forest) :: x < |labels|
      requires NoRepeats(referenced)
      modifies this
      ensures r.None? <==> bitwidth > Arithmetic.MAX_BITWIDTH
      ensures r.Some? ==> NoRepeats(r.value.atoms) && UniverseLayout(r.value, TopCount(forest), bitwidth, referenced, maxString)
      ensures r.Some? ==> forall q | q in AllPlaces(forest) :: Recorded(scope, minted, r.value.atoms, q)
      ensures r.Some? ==> minted.Keys <= KidSigs(forest)
      ensures r.Some? ==> RunsLabelled(labels, minted, r.value.atoms, runLabels, usedLabels)
    {
      hide Recorded, RootsPending, TopCount, KidSigs, AllPlaces, NoRepeats, IsSigName;
      hide Quoted, StringRun, IntRun, StringCount, SameOutside, Half, NamesWith, RunsLabelled;
      if bitwidth > Arithmetic.MAX_BITWIDTH { return None; }
      WalkForest(forest);
      SigAtomsDistinct();
      var sigAtoms := |atoms|;
      var withInts := MintInts(atoms, bitwidth);
      var intAtoms := |withInts| - sigAtoms;
      var all, literals := MintStrings(withInts, referenced, maxString);
      r := Some(Universe(all, sigAtoms, intAtoms, literals));
      IntRunKept(withInts, all, sigAtoms, intAtoms, Half(bitwidth));
      OutsideKeys(minted, KidSigs(forest));
      assert RunsLabelled(labels, minted, all, runLabels, usedLabels) by { RunsKept(labels, minted, atoms, runLabels, usedLabels, all); }
      forall q | q in AllPlaces(forest) ensures Recorded(scope, minted, all, q) {
        SameAsItself(scope);
        SameAsItself(minted);
        OneKept(scope, minted, atoms, scope, minted, all, q, {});
      }
    }

    lemma SigAtomsDistinct()
      requires Valid()
      ensures NoRepeats(atoms) && forall s | s in atoms :: IsSigName(s)
    {
      forall j, k | 0 <= j < k < |atoms| ensures atoms[j] != atoms[k] {
        if atoms[j] == atoms[k] { AtomNameInjective(ledger[j].0, ledger[j].1, ledger[k].0, ledger[k].1); }
      }
    }
  }

  // ------------------------------------------------------------------ integer and string atoms

  ghost predicate IsSigName(s: string) {
    exists base, k: nat :: Bare(base) && s == AtomName(base, k)
  }

  predicate Quoted(s: string) {
    s != "" && s[0] == '"'
  }

  function Half(bitwidth: nat): nat {
    if bitwidth >= 1 then Arithmetic.Pow2(bitwidth - 1) else 0
  }

  function StringCount(referenced: seq<string>, maxString: Option<nat>): nat {
    if maxString.Some? && maxString.value > |referenced| then maxString.value else |referenced|
  }

  /** Where the atoms stand, and what names and literals they carry. */
  ghost predicate UniverseLayout(u: Universe, sigAtoms: nat, bitwidth: nat, referenced: seq<string>, maxString: Option<nat>) {
    && u.sigAtoms == sigAtoms && u.intAtoms == 2 * Half(bitwidth)
    && |u.atoms| == u.sigAtoms + u.intAtoms + StringCount(referenced, maxString)
    && IntRun(u.atoms, sigAtoms, u.intAtoms, Half(bitwidth))
    && StringRun(u.atoms, sigAtoms + u.intAtoms, referenced, u.literals)
  }

  /** `count` integers ascending from `-half`. */
  ghost predicate IntRun(atoms: seq<string>, first: nat, count: nat, half: nat) {
    first + count <= |atoms| && forall k: nat | first <= k < first + count :: atoms[k] == IntName(k - first - half)
  }

  /** The referenced literals in order, then padding, from `first` on. */
  ghost predicate StringRun(atoms: seq<string>, first: nat, referenced: seq<string>, literals: map<string, nat>) {
    && first + |referenced| <= |atoms|
    && (forall c :: c in literals <==> c in referenced)
    && (forall j: nat | j < |referenced| :: literals[referenced[j]] == first + j && atoms[first + j] == QuoteAtom(referenced[j]))
    && (forall j: nat | first + |referenced| <= j < |atoms| :: IsPadding(atoms[j]))
  }

  ghost predicate IsPadding(s: string) {
    exists k: nat :: s == QuoteAtom(Padding(k))
  }

  method MintInts(atoms: seq<string>, bitwidth: nat) returns (out: seq<string>)
    requires NoRepeats(atoms) && forall s | s in atoms :: IsSigName(s)
    ensures |out| == |atoms| + 2 * Half(bitwidth) && atoms <= out && NoRepeats(out)
    ensures IntRun(out, |atoms|, 2 * Half(bitwidth), Half(bitwidth))
    ensures forall s | s in out :: !Quoted(s)
  {
    hide IsSigName, NoRepeats, IntName, Quoted;
    out := atoms;
    forall s | s in atoms ensures !Quoted(s) { SigNameUnquoted(s); }
    if bitwidth >= 1 {
      var half := Arithmetic.Pow2(bitwidth - 1);
      var v: int := -half;
      while v < half
        invariant -half <= v <= half && |out| == |atoms| + (v + half) && atoms <= out && NoRepeats(out)
        invariant IntRun(out, |atoms|, v + half, half)
        invariant forall s | s in out :: !Quoted(s)
      {
        NewInt(atoms, out, half, v);
        AppendNew(out, IntName(v));
        out := out + [IntName(v)];
        v := v + 1;
      }
    }
  }

  lemma SigNameUnquoted(s: string)
    requires IsSigName(s)
    ensures !Quoted(s)
  {
  }

  lemma IntRunKept(atoms: seq<string>, atoms': seq<string>, first: nat, count: nat, half: nat)
    requires IntRun(atoms, first, count, half) && atoms <= atoms'
    ensures IntRun(atoms', first, count, half)
  {
  }

  lemma SameAsItself<V>(m: map<nat, V>)
    ensures SameOutside(m, m, {})
  {
  }

  lemma OutsideKeys<V>(m: map<nat, V>, touched: set<nat>)
    requires SameOutside(map[], m, touched)
    ensures m.Keys <= touched
  {
  }

  lemma AppendNew<T>(s: seq<T>, x: T)
    requires NoRepeats(s) && x !in s
    ensures NoRepeats(s + [x])
  {
  }

  lemma NewInt(atoms: seq<string>, out: seq<string>, half: nat, v: int)
    requires 0 <= v + half && |out| == |atoms| + (v + half) && atoms <= out
    requires forall s | s in atoms :: IsSigName(s)
    requires IntRun(out, |atoms|, v + half, half)
    ensures IntName(v) !in out && !Quoted(IntName(v))
  {
    hide IntName, AtomName, IsSigName;
    forall j | 0 <= j < |out| ensures out[j] != IntName(v) {
      if j < |atoms| {
        assert out[j] == atoms[j] && atoms[j] in atoms;
        SigNotInt(atoms[j], v);
      } else {
        IntNameInjective(j - |atoms| - half, v);
      }
    }
    IntNameHasNoMark(v, "", 0);
  }

  lemma SigNotInt(s: string, v: int)
    requires IsSigName(s)
    ensures s != IntName(v)
  {
    hide IntName, AtomName;
    var base, k: nat :| Bare(base) && s == AtomName(base, k);
    IntNameHasNoMark(v, base, k);
  }

  /** The referenced literals, then synthetic names up to an exact `String` scope, skipping names taken. */
  method MintStrings(atoms: seq<string>, referenced: seq<string>, maxString: Option<nat>)
      returns (out: seq<string>, literals: map<string, nat>)
    requires NoRepeats(atoms) && NoRepeats(referenced) && forall s | s in atoms :: !Quoted(s)
    ensures atoms <= out && NoRepeats(out) && |out| == |atoms| + StringCount(referenced, maxString)
    ensures StringRun(out, |atoms|, referenced, literals)
  {
    hide NoRepeats, Holds, QuoteAtom, Quoted, IsPadding;
    var usedNames;
    out, literals, usedNames := MintLiterals(atoms, referenced);
    if maxString.Some? {
      out := Pad(atoms, out, usedNames, |referenced|, maxString.value);
    }
  }

  method MintLiterals(atoms: seq<string>, referenced: seq<string>)
      returns (out: seq<string>, literals: map<string, nat>, usedNames: set<string>)
    requires NoRepeats(atoms) && NoRepeats(referenced) && forall s | s in atoms :: !Quoted(s)
    ensures atoms <= out && NoRepeats(out) && |out| == |atoms| + |referenced|
    ensures StringRun(out, |atoms|, referenced, literals) && Holds(out, atoms, usedNames)
  {
    hide NoRepeats, Quoted, QuoteAtom;
    out, literals, usedNames := atoms, map[], {};
    var j := 0;
    while j < |referenced|
      invariant j <= |referenced| && |out| == |atoms| + j && atoms <= out
      invariant NoRepeats(out) && Holds(out, atoms, usedNames)
      invariant forall c :: c in literals <==> c in referenced[..j]
      invariant forall k: nat | k < j :: literals[referenced[k]] == |atoms| + k && out[|atoms| + k] == QuoteAtom(referenced[k])
    {
      var content := referenced[j];
      var name := QuoteAtom(content);
      NewLiteral(atoms, out, referenced, j);
      AppendNew(out, name);
      assert referenced[..j + 1] == referenced[..j] + [content];
      literals := literals[content := |out|];
      out := out + [name];
      usedNames := usedNames + {name};
      j := j + 1;
    }
    assert referenced[..j] == referenced;
  }

  method Pad(atoms: seq<string>, from: seq<string>, used: set<string>, referenced: nat, target: nat) returns (out: seq<string>)
    requires atoms <= from && NoRepeats(from) && Holds(from, atoms, used) && |from| == |atoms| + referenced
    requires forall s | s in atoms :: !Quoted(s)
    ensures NoRepeats(out) && |out| == |atoms| + if target > referenced then target else referenced
    ensures PaddedFrom(from, out)
  {
    hide NoRepeats, Quoted, QuoteAtom, Padding, PaddedBelow, PaddedFrom, IsPadding, Holds;
    NothingPadded(from);
    out := from;
    var usedNames := used;
    var count, idx := referenced, 0;
    ghost var free := usedNames;
    while count < target
      invariant count >= referenced && |out| == |atoms| + count && PaddedFrom(from, out)
      invariant count == referenced || count <= target
      invariant NoRepeats(out) && Holds(out, atoms, usedNames) && free <= usedNames
      invariant forall s | s in usedNames - free :: PaddedBelow(s, idx)
      decreases target - count, |free|
    {
      var name := QuoteAtom(Padding(idx));
      ghost var taken := usedNames - free;
      NewPadding(taken, idx);
      PaddedMore(taken, idx);
      idx := idx + 1;
      if name in usedNames {
        assert name in free;
        free := free - {name};
        MoreTaken(usedNames, free + {name}, usedNames, free, taken, name);
        continue;
      }
      NewAtom(from, out, atoms, usedNames, name, idx - 1);
      MoreTaken(usedNames, free, usedNames + {name}, free, taken, name);
      out := out + [name];
      usedNames := usedNames + {name};
      count := count + 1;
    }
  }

  lemma MoreTaken(used: set<string>, free: set<string>, used': set<string>, free': set<string>, taken: set<string>, name: string)
    requires taken == used - free && ((used' == used && free' == free - {name}) || (used' == used + {name} && free' == free))
    ensures used' - free' <= taken + {name}
  {
  }

  /** Only synthetic names follow. */
  ghost predicate PaddedFrom(from: seq<string>, out: seq<string>) {
    from <= out && forall k: nat | |from| <= k < |out| :: IsPadding(out[k])
  }

  lemma NothingPadded(from: seq<string>)
    ensures PaddedFrom(from, from)
  {
  }

  lemma NewAtom(from: seq<string>, out: seq<string>, atoms: seq<string>, used: set<string>, name: string, idx: nat)
    requires NoRepeats(out) && Holds(out, atoms, used) && name == QuoteAtom(Padding(idx)) && name !in used
    requires forall s | s in atoms :: !Quoted(s)
    requires PaddedFrom(from, out)
    ensures NoRepeats(out + [name]) && Holds(out + [name], atoms, used + {name}) && PaddedFrom(from, out + [name])
  {
    assert Quoted(name) && IsPadding(name);
    AppendNew(out, name);
  }

  /** The string atoms minted so far are the used names. */
  ghost predicate Holds(out: seq<string>, atoms: seq<string>, used: set<string>) {
    forall s :: s in out <==> s in atoms || s in used
  }

  ghost predicate PaddedBelow(s: string, idx: nat) {
    exists k: nat | k < idx :: s == QuoteAtom(Padding(k))
  }

  lemma PaddedMore(taken: set<string>, idx: nat)
    requires forall s | s in taken :: PaddedBelow(s, idx)
    ensures forall s | s in taken :: PaddedBelow(s, idx + 1)
    ensures PaddedBelow(QuoteAtom(Padding(idx)), idx + 1)
  {
    forall s | s in taken ensures PaddedBelow(s, idx + 1) {
      var k: nat :| k < idx && s == QuoteAtom(Padding(k));
      assert k < idx + 1;
    }
  }

  lemma NewPadding(taken: set<string>, idx: nat)
    requires forall s | s in taken :: PaddedBelow(s, idx)
    ensures QuoteAtom(Padding(idx)) !in taken
  {
    if QuoteAtom(Padding(idx)) in taken {
      var k: nat :| k < idx && QuoteAtom(Padding(idx)) == QuoteAtom(Padding(k));
      PaddingInjective(idx, k);
    }
  }

  lemma NewLiteral(atoms: seq<string>, out: seq<string>, referenced: seq<string>, j: nat)
    requires j < |referenced| && NoRepeats(referenced) && |out| == |atoms| + j && atoms <= out
    requires forall s | s in atoms :: !Quoted(s)
    requires forall k: nat | k < j :: out[|atoms| + k] == QuoteAtom(referenced[k])
    ensures QuoteAtom(referenced[j]) !in out && referenced[j] !in referenced[..j]
  {
    forall k | 0 <= k < |out| ensures out[k] != QuoteAtom(referenced[j]) {
      if k < |atoms| {
        assert out[k] == atoms[k] && atoms[k] in atoms;
      } else {
        assert out[|atoms| + (k - |atoms|)] == QuoteAtom(referenced[k - |atoms|]);
        if out[k] == QuoteAtom(referenced[j]) { QuoteInjective(referenced[k - |atoms|], referenced[j]); }
      }
    }
  }

  function Numbered(base: string, suffix: nat): (r: string)
    ensures Bare(base) ==> Bare(r)
  {
    base + "_" + Digits(suffix)
  }

  lemma NumberedInjective(base: string, j: nat, k: nat)
    ensures Numbered(base, j) == Numbered(base, k) ==> j == k
  {
    assert Numbered(base, j)[|base| + 1..] == Digits(j) && Numbered(base, k)[|base| + 1..] == Digits(k);
    DigitsInjective(j, k);
  }

  // ------------------------------------------------------------------ the walk's bookkeeping

  ghost predicate KidsRecorded(scope: map<nat, nat>, minted: map<nat, Minted>, atoms: seq<string>, p: Place, upto: nat) {
    forall k: nat | k < upto && k < |p.t.kids| :: AllRecorded(scope, minted, atoms, Kid(p, k))
  }

  lemma KidInside(t: Node, i: nat)
    requires i < |t.kids| && Distinct(t)
    ensures Distinct(t.kids[i]) && Sigs(t.kids[i]) <= Sigs(t)
    ensures KidSigs(t.kids[..i + 1]) == KidSigs(t.kids[..i]) + Sigs(t.kids[i])
    ensures KidsCount(t.kids[..i + 1]) == KidsCount(t.kids[..i]) + Count(t.kids[i], false)
  {
    KidSigsHave(t.kids, i);
    KidRun(t.kids, i);
  }

  lemma NothingWalked(scope: map<nat, nat>, minted: map<nat, Minted>, atoms: seq<string>, p: Place)
    ensures KidsRecorded(scope, minted, atoms, p, 0) && KidsCount(p.t.kids[..0]) == 0
    ensures SameOutside(scope, scope, KidSigs(p.t.kids[..0])) && SameOutside(minted, minted, KidSigs(p.t.kids[..0]))
  {
  }

  /** A child waits untouched while its elder siblings are walked. */
  lemma KidPending(scope0: map<nat, nat>, minted0: map<nat, Minted>, scope: map<nat, nat>, minted: map<nat, Minted>, p: Place, i: nat)
    requires i < |p.t.kids| && Distinct(p.t) && Pending(scope0, minted0, p)
    requires SameOutside(scope0, scope, KidSigs(p.t.kids[..i])) && SameOutside(minted0, minted, KidSigs(p.t.kids[..i]))
    ensures Pending(scope, minted, Kid(p, i))
  {
    KidSigsHave(p.t.kids, i);
    assert Pending(scope0, minted0, Kid(p, i)) by {
      forall q | q in Places(Kid(p, i))
        ensures q.t.sig in scope0 && scope0[q.t.sig] == q.t.scope && q.t.sig !in minted0
      {
        assert q in Below(p, i);
        assert q in Places(p);
      }
    }
    PendingKept(scope0, minted0, scope, minted, Kid(p, i), KidSigs(p.t.kids[..i]));
  }

  /** Walking one more child leaves the earlier ones recorded. */
  lemma KidWalked(s: map<nat, nat>, m: map<nat, Minted>, a: seq<string>, s': map<nat, nat>, m': map<nat, Minted>, a': seq<string>, p: Place, i: nat)
    requires i < |p.t.kids| && Distinct(p.t) && KidsRecorded(s, m, a, p, i) && a <= a'
    requires AllRecorded(s', m', a', Kid(p, i))
    requires SameOutside(s, s', Sigs(p.t.kids[i])) && SameOutside(m, m', Sigs(p.t.kids[i]))
    ensures KidsRecorded(s', m', a', p, i + 1)
  {
    KidSigsHave(p.t.kids, i);
    forall k: nat | k < i ensures AllRecorded(s', m', a', Kid(p, k)) {
      SigsBefore(p.t.kids, k, i);
      RecordedKept(s, m, a, s', m', a', Kid(p, k), Sigs(p.t.kids[i]));
    }
  }

  lemma RootPending(scope0: map<nat, nat>, minted0: map<nat, Minted>, scope: map<nat, nat>, minted: map<nat, Minted>, p: Place)
    requires Distinct(p.t) && Pending(scope0, minted0, p)
    requires SameOutside(scope0, scope, KidSigs(p.t.kids)) && SameOutside(minted0, minted, KidSigs(p.t.kids))
    ensures p.t.sig in scope && scope[p.t.sig] == p.t.scope && p.t.sig !in minted
  {
    assert p in Places(p);
  }

  /** The sig itself, recorded after its children. */
  lemma RootRecorded(s0: map<nat, nat>, m0: map<nat, Minted>, s: map<nat, nat>, m: map<nat, Minted>, a: seq<string>,
                     s': map<nat, nat>, m': map<nat, Minted>, a': seq<string>, p: Place)
    requires var t, kids, own := p.t, KidsCount(p.t.kids), Own(p.t, p.top);
      && SameOutside(s0, s, KidSigs(t.kids)) && SameOutside(m0, m, KidSigs(t.kids))
      && t.sig in s && s[t.sig] == t.scope && t.sig !in m && |a| == p.first + kids
      && s' == (if t.scope < kids then s[t.sig := kids] else s)
      && m' == (if own > 0 then m[t.sig := Minted(|a|, own)] else m)
      && (own > 0 ==> RunNamed(a', |a|, own))
    ensures Recorded(s', m', a', p)
    ensures SameOutside(s, s', {p.t.sig}) && SameOutside(m, m', {p.t.sig})
    ensures SameOutside(s0, s', Sigs(p.t)) && SameOutside(m0, m', Sigs(p.t))
  {
    hide KidsCount, KidSigs, RunNamed;
  }

  /** Recording the sig itself completes the subtree. */
  lemma TreeWalked(s: map<nat, nat>, m: map<nat, Minted>, a: seq<string>, s': map<nat, nat>, m': map<nat, Minted>, a': seq<string>, p: Place)
    requires Distinct(p.t) && KidsRecorded(s, m, a, p, |p.t.kids|) && a <= a'
    requires SameOutside(s, s', {p.t.sig}) && SameOutside(m, m', {p.t.sig}) && Recorded(s', m', a', p)
    ensures AllRecorded(s', m', a', p)
  {
    hide Recorded, SameOutside, Places, Sigs, KidSigs;
    forall q | q in Places(p) ensures Recorded(s', m', a', q) {
      if q != p {
        var k := PlaceBelow(p, q);
        KidSigsHave(p.t.kids, k);
        RecordedKept(s, m, a, s', m', a', Kid(p, k), {p.t.sig});
      }
    }
  }

  // ------------------------------------------------------------------ the forest's roots

  ghost predicate RootsRecorded(scope: map<nat, nat>, minted: map<nat, Minted>, atoms: seq<string>, forest: seq<Node>, upto: nat) {
    forall k: nat | k < upto && k < |forest| :: AllRecorded(scope, minted, atoms, Root(forest, k))
  }

  ghost predicate RootsPending(scope: map<nat, nat>, minted: map<nat, Minted>, forest: seq<Node>, from: nat) {
    forall k: nat | from <= k < |forest| :: Pending(scope, minted, Root(forest, k))
  }

  lemma NoRootWalked(scope: map<nat, nat>, minted: map<nat, Minted>, atoms: seq<string>, forest: seq<Node>)
    ensures RootsRecorded(scope, minted, atoms, forest, 0) && TopCount(forest[..0]) == 0
    ensures SameOutside(minted, minted, KidSigs(forest[..0]))
  {
  }

  lemma NextRoot(scope: map<nat, nat>, minted: map<nat, Minted>, forest: seq<Node>, i: nat)
    requires i < |forest| && AllDistinct(forest) && RootsPending(scope, minted, forest, i)
    ensures Distinct(forest[i]) && Sigs(forest[i]) <= KidSigs(forest) && Pending(scope, minted, Root(forest, i))
    ensures KidSigs(forest[..i + 1]) == KidSigs(forest[..i]) + Sigs(forest[i])
    ensures TopCount(forest[..i + 1]) == TopCount(forest[..i]) + Count(forest[i], true)
  {
    hide KidSigs, Pending, AllDistinct;
    KidSigsHave(forest, i);
    TopRun(forest, i);
  }

  lemma RootWalked(s: map<nat, nat>, m: map<nat, Minted>, a: seq<string>, s': map<nat, nat>, m': map<nat, Minted>, a': seq<string>, forest: seq<Node>, i: nat)
    requires i < |forest| && AllDistinct(forest) && a <= a'
    requires RootsRecorded(s, m, a, forest, i) && RootsPending(s, m, forest, i)
    requires AllRecorded(s', m', a', Root(forest, i))
    requires SameOutside(s, s', Sigs(forest[i])) && SameOutside(m, m', Sigs(forest[i]))
    ensures RootsRecorded(s', m', a', forest, i + 1) && RootsPending(s', m', forest, i + 1)
  {
    hide AllRecorded, Pending, SameOutside, KidSigs, Sigs, AllDistinct;
    KidSigsHave(forest, i);
    forall k: nat | k < i ensures AllRecorded(s', m', a', Root(forest, k)) {
      SigsBefore(forest, k, i);
      RecordedKept(s, m, a, s', m', a', Root(forest, k), Sigs(forest[i]));
    }
    forall k: nat | i < k < |forest| ensures Pending(s', m', Root(forest, k)) {
      KidSigsHave(forest, k);
      SigsBefore(forest, i, k);
      PendingKept(s, m, s', m', Root(forest, k), Sigs(forest[i]));
    }
  }

  lemma ForestRecorded(scope: map<nat, nat>, minted: map<nat, Minted>, atoms: seq<string>, forest: seq<Node>)
    requires RootsRecorded(scope, minted, atoms, forest, |forest|)
    ensures forall q | q in AllPlaces(forest) :: Recorded(scope, minted, atoms, q)
  {
    hide Recorded;
    forall q | q in AllPlaces(forest) ensures Recorded(scope, minted, atoms, q) {
      var k: nat :| k < |forest| && q in Tree(forest, k);
      assert AllRecorded(scope, minted, atoms, Root(forest, k));
    }
  }
}
