/** Two's-complement arithmetic shared by the evaluator and the translation-time folder
    (crates/als-core/src/overflow_guard.rs). Machine integers are unbounded here; the source keeps
    every intermediate value inside 64 bits by capping the bitwidth at 30. */
module Arithmetic {

  /** The scope phase refuses wider integers (crates/als-core/src/scope.rs). */
  const MAX_BITWIDTH := 30

  datatype IntBinOp = Add | Sub | Mul | Div | Rem | Shl | Sha | Shr

  function Pow2(n: nat): (p: nat)
    ensures p >= 1
  {
    if n == 0 then 1 else 2 * Pow2(n - 1)
  }

  function IntMin(bw: nat): int {
    if bw == 0 then 0 else 0 - Pow2(bw - 1)
  }

  function IntMax(bw: nat): int {
    if bw == 0 then 0 else Pow2(bw - 1) - 1
  }

  predicate InRange(x: int, bw: nat) {
    IntMin(bw) <= x <= IntMax(bw)
  }

  function WrapSigned(value: int, bw: nat): int {
    if bw == 0 then 0
    else
      var masked := value % Pow2(bw);
      if masked >= Pow2(bw - 1) then masked - Pow2(bw) else masked
  }

  /** The least number of bits that write `n`: the source's `BITS - leading_zeros`. */
  function BitLength(n: nat): nat {
    if n == 0 then 0 else 1 + BitLength(n / 2)
  }

  function ShiftMaskWidth(w: nat): nat {
    if w <= 1 then 0 else BitLength(w - 1)
  }

  /** `v >> i` on a non-negative word. */
  function RightShift(v: nat, i: nat): nat {
    if i == 0 then v else RightShift(v / 2, i - 1)
  }

  predicate Bit(v: nat, i: nat) {
    RightShift(v, i) % 2 == 1
  }

  /** The machine's division and remainder, rounding toward zero. */
  function TruncDiv(a: int, b: int): int
    requires b != 0
  {
    if a >= 0 then a / b else -((-a) / b)
  }

  function TruncRem(a: int, b: int): int
    requires b != 0
  {
    a - b * TruncDiv(a, b)
  }

  /** The value's bit pattern, a number of `bw` bits. */
  function Pattern(a: int, bw: nat): nat {
    a % Pow2(bw)
  }

  /** The effective shift: the low mask bits of the amount's pattern. */
  function ShiftAmount(b: int, bw: nat): nat {
    Pattern(b, bw) % Pow2(ShiftMaskWidth(bw))
  }

  /** Some bit of the amount's pattern above the mask is set. */
  predicate JunkAmount(b: int, bw: nat) {
    exists i | ShiftMaskWidth(bw) <= i < bw :: Bit(Pattern(b, bw), i)
  }

  /** A masked amount of at least the width fills the word with the sign or with zeros. */
  function ShiftRightValue(a: int, b: int, bw: nat, arith: bool): int {
    var amt := ShiftAmount(b, bw);
    if amt >= bw then (if arith && a < 0 then -1 else 0)
    else if arith then a / Pow2(amt)
    else WrapSigned(RightShift(Pattern(a, bw), amt), bw)
  }

  /** The closed form of a left shift. */
  function ShlValue(a: int, b: int, bw: nat): (int, bool) {
    var exact := a * Pow2(ShiftAmount(b, bw));
    var v := WrapSigned(exact, bw);
    (v, !InRange(exact, bw) || (JunkAmount(b, bw) && v != 0 && v != -1))
  }

  function IntBinopValue(op: IntBinOp, a: int, b: int, bw: nat): (int, bool) {
    match op
    case Add => (WrapSigned(a + b, bw), !InRange(a + b, bw))
    case Sub => (WrapSigned(a - b, bw), !InRange(a - b, bw))
    case Mul => (WrapSigned(a * b, bw), !InRange(a * b, bw))
    case Div =>
      if b == 0 then (if a < 0 then 1 else if a == 0 then 0 else -1, true)
      else (WrapSigned(TruncDiv(a, b), bw), a == IntMin(bw) && b == -1)
    case Rem =>
      if b == 0 then (a, true) else (WrapSigned(TruncRem(a, b), bw), false)
    case Shl => ShlValue(a, b, bw)
    case Sha => (ShiftRightValue(a, b, bw, true), false)
    case Shr => (ShiftRightValue(a, b, bw, false), false)
  }

  // ------------------------------------------------------------------ values with their flag

  /** A value with its accumulated overflow flag. */
  type Flagged = (int, bool)

  function NegateFlagged(x: Flagged, bw: nat): Flagged {
    (WrapSigned(-x.0, bw), x.1 || x.0 == IntMin(bw))
  }

  function BinopFlagged(op: IntBinOp, x: Flagged, y: Flagged, bw: nat): Flagged {
    var (v, of) := IntBinopValue(op, x.0, y.0, bw);
    (v, x.1 || y.1 || of)
  }

  /** One step of a chained sum: the step overflows when the exact sum leaves the range. */
  function AddFlagged(acc: Flagged, x: Flagged, bw: nat): Flagged {
    (WrapSigned(acc.0 + x.0, bw), acc.1 || x.1 || !InRange(acc.0 + x.0, bw))
  }

  // ------------------------------------------------------------------ powers of two

  lemma {:induction false} Pow2Add(m: nat, n: nat)
    ensures Pow2(m + n) == Pow2(m) * Pow2(n)
  {
    if n > 0 {
      Pow2Add(m, n - 1);
      assert Pow2(m + n) == 2 * Pow2(m + n - 1);
      assert Pow2(m) * Pow2(n) == 2 * (Pow2(m) * Pow2(n - 1));
    }
  }

  lemma {:induction false} Pow2Monotone(m: nat, n: nat)
    requires m <= n
    ensures Pow2(m) <= Pow2(n)
  {
    Pow2Add(m, n - m);
    MulLower(Pow2(m), Pow2(n - m));
  }

  lemma MulLower(a: nat, b: nat)
    requires b >= 1
    ensures a <= a * b
  {
  }

  lemma {:induction false} BitLengthBounds(n: nat)
    ensures n < Pow2(BitLength(n)) && BitLength(n) <= n
    ensures n > 0 ==> Pow2(BitLength(n) - 1) <= n
  {
    if n > 0 {
      BitLengthBounds(n / 2);
    }
  }

  /** Below the mask a single shift step stays inside the word; from the mask on it covers it. */
  lemma MaskBounds(w: nat, i: nat)
    requires w >= 1
    ensures ShiftMaskWidth(w) < w
    ensures i < ShiftMaskWidth(w) ==> Pow2(i) <= w - 1
    ensures i >= ShiftMaskWidth(w) ==> Pow2(i) >= w
  {
    if w > 1 {
      BitLengthBounds(w - 1);
      if i < ShiftMaskWidth(w) {
        Pow2Monotone(i, ShiftMaskWidth(w) - 1);
      } else {
        Pow2Monotone(ShiftMaskWidth(w), i);
      }
    }
  }

  lemma {:induction false} ExponentBelowPower(n: nat)
    ensures n < Pow2(n)
  {
    if n > 0 {
      ExponentBelowPower(n - 1);
    }
  }

  // ------------------------------------------------------------------ wrapping

  /** Wrapping lands in range and only adds a multiple of the modulus. */
  lemma WrapLands(x: int, bw: nat)
    requires bw >= 1
    ensures InRange(WrapSigned(x, bw), bw)
    ensures WrapSigned(x, bw) % Pow2(bw) == x % Pow2(bw)
  {
    var m := Pow2(bw);
    var masked := x % m;
    SmallMod(masked, m);
    DivModUnique(masked - m, m, -1, masked);
  }

  /** Nothing else in range is congruent to the wrapped value. */
  lemma WrapUnique(x: int, y: int, bw: nat)
    requires bw >= 1 && InRange(y, bw) && y % Pow2(bw) == x % Pow2(bw)
    ensures y == WrapSigned(x, bw)
  {
    RangeMod(y, bw);
  }

  lemma WrapFixed(x: int, bw: nat)
    requires bw >= 1
    ensures InRange(x, bw) <==> WrapSigned(x, bw) == x
  {
    WrapLands(x, bw);
    if InRange(x, bw) {
      WrapUnique(x, x, bw);
    }
  }

  lemma RangeMod(y: int, bw: nat)
    requires bw >= 1
    ensures InRange(y, bw) ==> y % Pow2(bw) == if y < 0 then y + Pow2(bw) else y
  {
    if InRange(y, bw) {
      var m := Pow2(bw);
      if y < 0 {
        ModShift(y + m, -1, m);
        SmallMod(y + m, m);
      } else {
        SmallMod(y, m);
      }
    }
  }

  lemma SmallMod(x: int, m: nat)
    requires 0 <= x < m
    ensures x % m == x
  {
  }

  lemma DivModUnique(x: int, m: int, q: int, r: int)
    requires m > 0 && x == q * m + r && 0 <= r < m
    ensures x / m == q && x % m == r
  {
    var q', r' := x / m, x % m;
    assert (q - q') * m == r' - r;
    assert (q' - q) * m == r - r';
    if q > q' {
      MulLower(m, q - q');
    } else if q < q' {
      MulLower(m, q' - q);
    }
  }

  lemma ModShift(x: int, k: int, m: nat)
    requires m > 0
    ensures (x + k * m) % m == x % m
  {
    DivModUnique(x + k * m, m, x / m + k, x % m);
  }

  lemma ModMul(x: int, y: int, k: int, m: nat)
    requires m > 0 && x % m == y % m
    ensures (x * k) % m == (y * k) % m
  {
    var d := x / m - y / m;
    assert x == y + d * m;
    assert x * k == y * k + (d * k) * m;
    ModShift(y * k, d * k, m);
  }

  /** Congruent values wrap to the same value. */
  lemma WrapCongruent(x: int, y: int, bw: nat)
    requires bw >= 1 && x % Pow2(bw) == y % Pow2(bw)
    ensures WrapSigned(x, bw) == WrapSigned(y, bw)
  {
  }

  // ------------------------------------------------------------------ bits

  lemma {:induction false} RightShiftNext(s: nat, i: nat)
    ensures RightShift(s, i + 1) == RightShift(s, i) / 2
  {
    if i > 0 {
      RightShiftNext(s / 2, i - 1);
    }
  }

  lemma HalvedDivision(s: nat, p: nat)
    requires p > 0
    ensures s / (2 * p) == s / 2 / p
  {
    var h := s / 2;
    var q, r := h / p, h % p;
    assert h == q * p + r;
    assert s == 2 * h + s % 2;
    assert 2 * (q * p) == q * (2 * p);
    DivModUnique(s, 2 * p, q, 2 * r + s % 2);
  }

  /** Shifting right is division by the power of two. */
  lemma {:induction false} RightShiftIsDivision(s: nat, i: nat)
    ensures RightShift(s, i) == s / Pow2(i)
  {
    if i > 0 {
      RightShiftIsDivision(s / 2, i - 1);
      HalvedDivision(s, Pow2(i - 1));
    }
  }

  lemma {:induction false} LowBits(b: nat, i: nat)
    ensures b % Pow2(i + 1) == b % Pow2(i) + (if Bit(b, i) then Pow2(i) else 0)
  {
    RightShiftIsDivision(b, i);
    DoubledMod(b, Pow2(i));
  }

  lemma DoubledMod(b: nat, p: nat)
    requires p > 0
    ensures b % (2 * p) == b % p + (if b / p % 2 == 1 then p else 0)
  {
    var q, r := b / p, b % p;
    var h := q / 2;
    assert b == q * p + r;
    if q % 2 == 1 {
      assert q * p == h * (2 * p) + p;
      DivModUnique(b, 2 * p, h, p + r);
    } else {
      assert q * p == h * (2 * p);
      DivModUnique(b, 2 * p, h, r);
    }
  }

  ghost predicate NoTransition(s: nat, lo: nat, w: nat)
  {
    forall j | lo <= j < w - 1 :: Bit(s, j) == Bit(s, j + 1)
  }

  /** The bits from `lo` up are all equal exactly when the high part is all zeros or all ones. */
  lemma {:induction false} TopBits(s: nat, lo: nat, w: nat)
    requires lo < w && s < Pow2(w)
    ensures NoTransition(s, lo, w) <==> RightShift(s, lo) == 0 || RightShift(s, lo) == Pow2(w - lo) - 1
    decreases w - lo
  {
    RightShiftNext(s, lo);
    if lo == w - 1 {
      ShiftBelow(s, lo, w);
    } else {
      TopBits(s, lo + 1, w);
      assert NoTransition(s, lo, w) <==> NoTransition(s, lo + 1, w) && Bit(s, lo) == Bit(s, lo + 1);
      assert Pow2(w - lo) == 2 * Pow2(w - lo - 1);
    }
  }

  lemma {:induction false} ShiftBelow(s: nat, i: nat, w: nat)
    requires i <= w && s < Pow2(w)
    ensures RightShift(s, i) < Pow2(w - i)
  {
    if i > 0 {
      ShiftBelow(s / 2, i - 1, w - 1);
    }
  }

  /** All zeros above `lo` means below `2^lo`; all ones means within `2^lo` of the top. */
  lemma {:induction false} ShiftExtremes(s: nat, lo: nat, w: nat)
    requires lo <= w && s < Pow2(w)
    ensures RightShift(s, lo) == 0 <==> s < Pow2(lo)
    ensures RightShift(s, lo) == Pow2(w - lo) - 1 <==> s >= Pow2(w) - Pow2(lo)
  {
    if lo > 0 {
      ShiftExtremes(s / 2, lo - 1, w - 1);
    }
  }

  /** The inspected region is flat exactly when one more shift by `k` keeps the signed value exact. */
  lemma RegionIsRange(x: int, s: nat, k: nat, w: nat)
    requires w >= 1 && k <= w - 1
    requires InRange(x, w) && s == x % Pow2(w)
    ensures NoTransition(s, w - 1 - k, w) <==> InRange(x * Pow2(k), w)
  {
    var lo := w - 1 - k;
    RangeMod(x, w);
    TopBits(s, lo, w);
    ShiftExtremes(s, lo, w);
    Pow2Monotone(lo, w - 1);
    assert NoTransition(s, lo, w) <==> 0 - Pow2(lo) <= x < Pow2(lo);
    Pow2Add(lo, k);
    Scaled(x, Pow2(lo), Pow2(k));
  }

  lemma Scaled(x: int, p: int, h: int)
    requires p >= 1 && h >= 1
    ensures -p <= x < p <==> -(p * h) <= x * h < p * h
  {
    if x >= p {
      MulMonotone(h, p, x);
    } else if x < -p {
      MulMonotone(h, x + 1, -p);
    } else {
      MulMonotone(h, -p, x);
      MulMonotone(h, x + 1, p);
    }
  }

  lemma MulMonotone(p: nat, a: int, b: int)
    requires a <= b
    ensures p * a <= p * b
  {
  }

  lemma GrowsOutOfRange(y: int, k: nat, w: nat)
    requires w >= 1 && !InRange(y, w)
    ensures !InRange(y * Pow2(k), w)
  {
    if y > IntMax(w) {
      MulLower(y, Pow2(k));
    } else {
      MulLower(-y, Pow2(k));
    }
  }

  // ------------------------------------------------------------------ exact flags

  /** Right shifts are floor division, of the value or of its bit pattern, whatever the amount. */
  lemma RightShiftIsFloor(a: int, b: int, bw: nat)
    requires bw >= 1 && InRange(a, bw)
    ensures ShiftRightValue(a, b, bw, true) == a / Pow2(ShiftAmount(b, bw))
    ensures ShiftRightValue(a, b, bw, false) == WrapSigned(Pattern(a, bw) / Pow2(ShiftAmount(b, bw)), bw)
  {
    var amt := ShiftAmount(b, bw);
    RightShiftIsDivision(Pattern(a, bw), amt);
    if amt >= bw {
      Pow2Monotone(bw, amt);
      var p := Pow2(amt);
      DivModUnique(Pattern(a, bw), p, 0, Pattern(a, bw));
      if a < 0 {
        DivModUnique(a, p, -1, a + p);
      } else {
        DivModUnique(a, p, 0, a);
      }
    }
  }

  lemma DivMagnitude(a: nat, b: nat)
    requires b >= 1
    ensures 0 <= a / b <= a && 0 <= a - b * (a / b) < b
    ensures b >= 2 && a >= 1 ==> a / b < a
  {
    var q := a / b;
    assert a == b * q + a % b;
    MulLower(q, b);
    if b >= 2 && q >= 1 {
      MulMonotone(q, 2, b);
    }
  }

  /** The mathematical result an operation stands for, when it has one. */
  ghost function ExactValue(op: IntBinOp, a: int, b: int, bw: nat): int
    requires op.Div? || op.Rem? ==> b != 0
  {
    match op
    case Add => a + b
    case Sub => a - b
    case Mul => a * b
    case Div => TruncDiv(a, b)
    case Rem => TruncRem(a, b)
    case Shl => a * Pow2(ShiftAmount(b, bw))
    case Sha => a / Pow2(ShiftAmount(b, bw))
    case Shr => WrapSigned(Pattern(a, bw) / Pow2(ShiftAmount(b, bw)), bw)
  }

  /** Division truncates into range except for the one quotient that exceeds the maximum. */
  lemma DivisionRange(a: int, b: int, bw: nat)
    requires bw >= 1 && InRange(a, bw) && InRange(b, bw) && b != 0
    ensures InRange(TruncDiv(a, b), bw) <==> !(a == IntMin(bw) && b == -1)
    ensures InRange(TruncRem(a, b), bw)
  {
    var n, d := if a < 0 then -a else a, if b < 0 then -b else b;
    DivMagnitude(n, d);
    SignedQuotient(a, b);
    RemainderSign(n, d, a, b);
  }

  lemma SignedQuotient(a: int, b: int)
    requires b != 0
    ensures TruncDiv(a, b) == (if (a < 0) == (b < 0) then 1 else -1) *
                              ((if a < 0 then -a else a) / (if b < 0 then -b else b))
  {
    var n := if a < 0 then -a else a;
    if b < 0 {
      var q := n / (-b);
      assert n == (-q) * b + n % (-b);
      NegativeDivisor(n, b, -q, n % (-b));
    }
  }

  lemma NegativeDivisor(x: int, m: int, q: int, r: int)
    requires m < 0 && x == q * m + r && 0 <= r < -m
    ensures x / m == q
  {
    var q', r' := x / m, x % m;
    assert (q - q') * (-m) == r - r';
    assert (q' - q) * (-m) == r' - r;
    if q > q' {
      MulLower(-m, q - q');
    } else if q < q' {
      MulLower(-m, q' - q);
    }
  }

  lemma RemainderSign(n: nat, d: nat, a: int, b: int)
    requires b != 0 && n == (if a < 0 then -a else a) && d == (if b < 0 then -b else b)
    ensures TruncRem(a, b) == (if a < 0 then -1 else 1) * (n - d * (n / d))
  {
    SignedQuotient(a, b);
    var q := n / d;
    assert TruncDiv(a, b) == q || TruncDiv(a, b) == -q;
  }

  /** Every overflow flag is exact, and an unflagged result is the exact value. A left shift may
      also be flagged by an amount bit above the mask. */
  lemma FlagsAreExact(op: IntBinOp, a: int, b: int, bw: nat)
    requires bw >= 1 && InRange(a, bw) && InRange(b, bw)
    ensures var (v, of) := IntBinopValue(op, a, b, bw);
      && ((op.Div? || op.Rem?) && b == 0 ==> of)
      && (!((op.Div? || op.Rem?) && b == 0) ==>
            var x := ExactValue(op, a, b, bw);
            && v == WrapSigned(x, bw)
            && (of <==> !InRange(x, bw) || (op.Shl? && JunkAmount(b, bw) && v != 0 && v != -1)))
      && (!of ==> InRange(v, bw))
  {
    if (op.Div? || op.Rem?) && b == 0 {
    } else {
      var x := ExactValue(op, a, b, bw);
      WrapFixed(x, bw);
      WrapLands(x, bw);
      match op
      case Div => DivisionRange(a, b, bw);
      case Rem => DivisionRange(a, b, bw);
      case Sha => RightShiftIsFloor(a, b, bw); FloorInRange(a, Pow2(ShiftAmount(b, bw)), bw);
      case Shr => RightShiftIsFloor(a, b, bw); WrapLands(Pattern(a, bw) / Pow2(ShiftAmount(b, bw)), bw);
      case _ =>
    }
  }

  lemma FloorInRange(a: int, p: nat, bw: nat)
    requires bw >= 1 && InRange(a, bw) && p >= 1
    ensures InRange(a / p, bw)
  {
    if a >= 0 {
      DivMagnitude(a, p);
    } else {
      var q := a / p;
      assert a == q * p + a % p;
      assert p * (a - 1) == p * a - p;
      if q < a {
        MulMonotone(p, q, a - 1);
        MulLower(-a, p);
      } else if q >= 0 {
        MulMonotone(p, 0, q);
      }
    }
  }

  // ------------------------------------------------------------------ the loops

  /** Whether two adjacent bits of `s` differ somewhere in `[lo, w-1)`. */
  method RegionChanges(s: nat, lo: nat, w: nat) returns (changes: bool)
    requires lo < w
    ensures changes <==> !NoTransition(s, lo, w)
  {
    changes := false;
    for j := lo to w - 1
      invariant changes <==> exists i | lo <= i < j :: Bit(s, i) != Bit(s, i + 1)
    {
      changes := changes || (Bit(s, j) != Bit(s, j + 1));
    }
  }

  /** What the loop has shifted and flagged after `i` amount bits. */
  ghost predicate ShlProgress(a: int, bpat: nat, w: nat, i: nat, amt: nat, s: nat, overflow: bool)
    requires w >= 1
  {
    var mask := ShiftMaskWidth(w);
    var x := a * Pow2(amt);
    && amt == bpat % Pow2(if i < mask then i else mask)
    && s == x % Pow2(w)
    && (overflow <==> !InRange(x, w) || (JunkBelow(bpat, mask, i) && s != 0 && s != Pow2(w) - 1))
  }

  ghost predicate JunkBelow(bpat: nat, mask: nat, i: nat) {
    exists j | mask <= j < i :: Bit(bpat, j)
  }

  /** One shift by `k` of the wrapped word, against the exact product. */
  lemma ShiftStep(a: int, w: nat, amt: nat, k: nat, s: nat)
    requires w >= 1 && k <= w - 1 && s == (a * Pow2(amt)) % Pow2(w)
    ensures (s * Pow2(k)) % Pow2(w) == (a * Pow2(amt + k)) % Pow2(w)
    ensures InRange(a * Pow2(amt + k), w) <==> InRange(a * Pow2(amt), w) && NoTransition(s, w - 1 - k, w)
  {
    var x := a * Pow2(amt);
    Pow2Add(amt, k);
    assert a * Pow2(amt + k) == x * Pow2(k);
    SmallMod(s, Pow2(w));
    ModMul(s, x, Pow2(k), Pow2(w));
    if InRange(x, w) {
      RegionIsRange(x, s, k, w);
    } else {
      GrowsOutOfRange(x, k, w);
    }
  }

  /** A masked amount bit shifts the word, and its flag is exact. */
  lemma ShlMaskedStep(a: int, bpat: nat, w: nat, i: nat, amt: nat, s: nat, overflow: bool, k: nat)
    requires w >= 1 && i < ShiftMaskWidth(w) && k == Pow2(i) <= w - 1
    requires ShlProgress(a, bpat, w, i, amt, s, overflow)
    ensures !Bit(bpat, i) ==> ShlProgress(a, bpat, w, i + 1, amt, s, overflow)
    ensures Bit(bpat, i) ==>
      ShlProgress(a, bpat, w, i + 1, amt + k, (s * Pow2(k)) % Pow2(w),
                  overflow || !NoTransition(s, w - 1 - k, w))
  {
    LowBits(bpat, i);
    ShiftStep(a, w, amt, k, s);
  }

  /** An amount bit above the mask shifts nothing, and flags any word that is not flat. */
  lemma ShlJunkStep(a: int, bpat: nat, w: nat, i: nat, amt: nat, s: nat, overflow: bool)
    requires w >= 1 && i >= ShiftMaskWidth(w)
    requires ShlProgress(a, bpat, w, i, amt, s, overflow)
    ensures ShlProgress(a, bpat, w, i + 1, amt, s, overflow || (Bit(bpat, i) && !NoTransition(s, 0, w)))
  {
    TopBits(s, 0, w);
    var mask := ShiftMaskWidth(w);
    assert JunkBelow(bpat, mask, i + 1) <==> JunkBelow(bpat, mask, i) || Bit(bpat, i);
  }

  lemma ShlStart(a: int, b: int, w: nat)
    requires w >= 1 && InRange(a, w)
    ensures ShlProgress(a, Pattern(b, w), w, 0, 0, Pattern(a, w), false)
  {
  }

  lemma ShlFinish(a: int, b: int, w: nat, amt: nat, s: nat, overflow: bool)
    requires w >= 1 && ShlProgress(a, Pattern(b, w), w, w, amt, s, overflow)
    ensures (WrapSigned(s, w), overflow) == ShlValue(a, b, w)
  {
    MaskBounds(w, 0);
    var x := a * Pow2(amt);
    SmallMod(s, Pow2(w));
    WrapCongruent(s, x, w);
    assert JunkAmount(b, w) <==> JunkBelow(Pattern(b, w), ShiftMaskWidth(w), w);
    assert WrapSigned(s, w) == 0 <==> s == 0;
    assert WrapSigned(s, w) == -1 <==> s == Pow2(w) - 1;
  }

  /** The source's left shift: one conditional step per amount bit, with its own overflow flag. */
  method ShlLoop(a: int, b: int, bw: nat) returns (v: int, overflow: bool)
    requires 1 <= bw <= MAX_BITWIDTH && InRange(a, bw)
    ensures (v, overflow) == ShlValue(a, b, bw)
  {
    var w, mask := bw, ShiftMaskWidth(bw);
    var bpat := Pattern(b, bw);
    var s: nat := Pattern(a, bw);
    overflow := false;
    ghost var amt: nat := 0;
    ShlStart(a, b, bw);
    for i := 0 to w
      invariant ShlProgress(a, bpat, w, i, amt, s, overflow)
    {
      s, overflow, amt := ShlStep(a, bpat, w, i, mask, s, overflow, amt);
    }
    v := WrapSigned(s, bw);
    ShlFinish(a, b, bw, amt, s, overflow);
  }

  /** The body of the shift loop for amount bit `i`. */
  method ShlStep(ghost a: int, bpat: nat, w: nat, i: nat, mask: nat, s: nat, overflow: bool, ghost amt: nat)
      returns (s': nat, overflow': bool, ghost amt': nat)
    requires 1 <= w <= MAX_BITWIDTH && i < w && mask == ShiftMaskWidth(w)
    requires ShlProgress(a, bpat, w, i, amt, s, overflow)
    ensures ShlProgress(a, bpat, w, i + 1, amt', s', overflow')
  {
    ExponentBelowPower(i);
    MaskBounds(w, i);
    var k := if i < 63 then Pow2(i) else w;
    var lo := if w - 1 >= k then w - 1 - k else 0;
    var changes := RegionChanges(s, lo, w);
    s', overflow', amt' := s, overflow || (Bit(bpat, i) && changes), amt;
    if i < mask {
      if Bit(bpat, i) {
        s', amt' := (s * Pow2(k)) % Pow2(w), amt + k;
      }
      ShlMaskedStep(a, bpat, w, i, amt, s, overflow, k);
    } else {
      ShlJunkStep(a, bpat, w, i, amt, s, overflow);
    }
  }
}
