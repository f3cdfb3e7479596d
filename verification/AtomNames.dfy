/** Atom names (crates/als-core/src/scope.rs): `label$index`, decimal integers and quoted strings never collide. */
module AtomNames {

  const DIGITS := "0123456789"

  function Digits(n: nat): (s: string)
    ensures |s| > 0
  {
    if n < 10 then [DIGITS[n]] else Digits(n / 10) + [DIGITS[n % 10]]
  }

  function IntName(v: int): string {
    if v < 0 then "-" + Digits(-v) else Digits(v)
  }

  function AtomName(base: string, k: nat): string {
    base + "$" + Digits(k)
  }

  /** A string atom carries its surrounding quotes. */
  function QuoteAtom(content: string): string {
    "\"" + content + "\""
  }

  function Padding(k: nat): string {
    "String" + Digits(k)
  }

  predicate IsDigit(c: char) {
    '0' <= c <= '9'
  }

  lemma {:induction false} OnlyDigits(n: nat)
    ensures forall c | c in Digits(n) :: IsDigit(c)
  {
    if n >= 10 { OnlyDigits(n / 10); }
  }

  lemma DigitAt(a: nat, b: nat)
    requires a < 10 && b < 10 && DIGITS[a] == DIGITS[b]
    ensures a == b
  {
    assert forall k | 0 <= k < 10 :: DIGITS[k] as int == '0' as int + k;
  }

  lemma {:induction false} DigitsInjective(m: nat, n: nat)
    ensures Digits(m) == Digits(n) ==> m == n
    decreases m
  {
    var s, t := Digits(m), Digits(n);
    if m < 10 && n < 10 {
      if s == t { assert s[0] == t[0]; DigitAt(m, n); }
    } else if m >= 10 && n >= 10 {
      assert s[..|s| - 1] == Digits(m / 10) && t[..|t| - 1] == Digits(n / 10);
      DigitsInjective(m / 10, n / 10);
      if s == t { assert s[|s| - 1] == t[|t| - 1]; DigitAt(m % 10, n % 10); }
    } else {
      assert |s| != |t|;
    }
  }

  lemma NoSign(n: nat, s: string)
    ensures "-" + s != Digits(n)
  {
    OnlyDigits(n);
    assert Digits(n)[0] in Digits(n) && !IsDigit('-');
  }

  lemma IntNameInjective(a: int, b: int)
    ensures IntName(a) == IntName(b) ==> a == b
  {
    hide Digits;
    if a < 0 && b < 0 {
      assert IntName(a)[1..] == Digits(-a) && IntName(b)[1..] == Digits(-b);
      DigitsInjective(-a, -b);
    } else if a >= 0 && b >= 0 {
      DigitsInjective(a, b);
    } else if a >= 0 {
      NoSign(a, Digits(-b));
    } else {
      NoSign(b, Digits(-a));
    }
  }

  /** Where the last `$` of an atom name stands is where its label ends. */
  lemma AtomNameInjective(l: string, k: nat, l': string, k': nat)
    requires AtomName(l, k) == AtomName(l', k')
    ensures l == l' && k == k'
  {
    hide Digits;
    var s := AtomName(l, k);
    OnlyDigits(k);
    OnlyDigits(k');
    LastDollar(l, Digits(k));
    LastDollar(l', Digits(k'));
    assert |l| == |l'|;
    assert s[..|l|] == l && s[..|l'|] == l';
    assert s[|l| + 1..] == Digits(k) && s[|l'| + 1..] == Digits(k');
    DigitsInjective(k, k');
  }

  lemma LastDollar(l: string, d: string)
    requires forall c | c in d :: IsDigit(c)
    ensures var s := l + "$" + d;
      s[|l|] == '$' && forall j | |l| < j < |s| :: s[j] != '$'
  {
    var s := l + "$" + d;
    forall j | |l| < j < |s| ensures s[j] != '$' {
      assert s[j] == d[j - |l| - 1] && d[j - |l| - 1] in d;
    }
  }

  lemma IntNameHasNoMark(v: int, base: string, k: nat)
    ensures IntName(v) != AtomName(base, k)
    ensures IntName(v)[0] != '"'
  {
    hide Digits;
    var n := if v < 0 then -v else v;
    OnlyDigits(n);
    assert AtomName(base, k)[|base|] == '$';
    assert '$' in AtomName(base, k);
    assert Digits(n)[0] in Digits(n) && !IsDigit('$') && !IsDigit('"');
    assert '$' !in Digits(n);
    assert '$' !in IntName(v);
  }

  lemma QuoteInjective(a: string, b: string)
    requires QuoteAtom(a) == QuoteAtom(b)
    ensures a == b
  {
    assert QuoteAtom(a)[1..|a| + 1] == a && QuoteAtom(b)[1..|b| + 1] == b;
  }

  lemma PaddingInjective(a: nat, b: nat)
    requires QuoteAtom(Padding(a)) == QuoteAtom(Padding(b))
    ensures a == b
  {
    QuoteInjective(Padding(a), Padding(b));
    assert Padding(a)[6..] == Digits(a) && Padding(b)[6..] == Digits(b);
    DigitsInjective(a, b);
  }
}
