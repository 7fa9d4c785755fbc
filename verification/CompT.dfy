/** The 16-bit floating point numbers of process accounting: a 13-bit mantissa and
    a 3-bit exponent to base 8. */
module CompT {
  const MANTISSAS: nat := 8192
  const MAXFRACT: nat := 8191

  function Pow8(k: nat): (p: nat)
    ensures p > 0
  {
    if k == 0 then 1 else 8 * Pow8(k - 1)
  }

  /** v with its k last octal digits cut off. */
  function Quot(v: nat, k: nat): nat {
    if k == 0 then v else Quot(v, k - 1) / 8
  }

  /** The number of rounds of encode_comp_t's loop. */
  function Shifts(v: nat): nat {
    if v <= MAXFRACT then 0 else 1 + Shifts(v / 8)
  }

  function Decode(c: nat): nat {
    c % MANTISSAS * Pow8(c / MANTISSAS)
  }

  /** Rounding to a multiple of 8^k, halves upwards: the digit cut off last decides. */
  function Rounded(v: nat, k: nat): nat {
    if k > 0 && Quot(v, k - 1) % 8 >= 4 then Quot(v, k) + 1 else Quot(v, k)
  }

  /** Mantissa and exponent in place; a mantissa that overflowed is shifted once more. */
  function Pack(m: nat, k: nat): nat {
    if m > MAXFRACT then (k + 1) * MANTISSAS + m / 8 else k * MANTISSAS + m
  }

  function Encode(v: nat): nat {
    Pack(Rounded(v, Shifts(v)), Shifts(v))
  }

  // ---------- digits ----------

  lemma {:induction false} QuotShift(v: nat, k: nat)
    ensures Quot(v / 8, k) == Quot(v, k + 1)
  {
    if k > 0 { QuotShift(v, k - 1); }
  }

  /** m * 8^k. */
  function Scaled(m: nat, k: nat): nat {
    m * Pow8(k)
  }

  lemma ScaledNext(m: nat, k: nat)
    ensures Scaled(m + 1, k) == Scaled(m, k) + Pow8(k)
  {
  }

  lemma ScaledMono(a: nat, b: nat, k: nat)
    requires a <= b
    ensures Scaled(a, k) <= Scaled(b, k)
  {
  }

  /** One digit more below the point. */
  lemma ScaledDigit(q: nat, d: nat, k: nat)
    requires k > 0
    ensures Scaled(8 * q + d, k - 1) == Scaled(q, k) + Scaled(d, k - 1) && Pow8(k) == 8 * Pow8(k - 1)
  {
    var p := Pow8(k - 1);
    assert (8 * q + d) * p == q * (8 * p) + d * p;
  }

  lemma DigitSize(d: nat, k: nat)
    ensures d <= 7 ==> Scaled(d, k) <= 7 * Pow8(k)
    ensures d <= 3 ==> Scaled(d, k) <= 3 * Pow8(k)
    ensures d >= 4 ==> Scaled(d, k) >= 4 * Pow8(k)
  {
    if d <= 7 { ScaledMono(d, 7, k); }
    if d <= 3 { ScaledMono(d, 3, k); }
    if d >= 4 { ScaledMono(4, d, k); }
  }

  /** Cutting off k digits loses less than 8^k. */
  lemma {:induction false} QuotBounds(v: nat, k: nat)
    ensures Scaled(Quot(v, k), k) <= v < Scaled(Quot(v, k), k) + Pow8(k)
  {
    if k > 0 {
      QuotBounds(v, k - 1);
      var q, d := Quot(v, k), Quot(v, k - 1) % 8;
      assert Quot(v, k - 1) == 8 * q + d;
      ScaledDigit(q, d, k);
      DigitSize(d, k - 1);
    }
  }

  /** Round half up: the error is at most half a unit, and half a unit only upwards. */
  lemma RoundedBounds(v: nat, k: nat)
    ensures k == 0 ==> Scaled(Rounded(v, k), k) == v
    ensures 2 * Scaled(Rounded(v, k), k) <= 2 * v + Pow8(k)
    ensures k > 0 ==> 2 * v < 2 * Scaled(Rounded(v, k), k) + Pow8(k)
  {
    if k > 0 {
      var q, d := Quot(v, k), Quot(v, k - 1) % 8;
      assert Quot(v, k - 1) == 8 * q + d;
      QuotBounds(v, k - 1);
      ScaledDigit(q, d, k);
      DigitSize(d, k - 1);
      ScaledNext(q, k);
    }
  }

  /** The loop stops as soon as the value fits. */
  lemma {:induction false} ShiftsIsLeast(v: nat, k: nat)
    ensures Quot(v, Shifts(v)) <= MAXFRACT
    ensures k < Shifts(v) ==> Quot(v, k) > MAXFRACT
    decreases v
  {
    if v > MAXFRACT {
      ShiftsIsLeast(v / 8, if k > 0 then k - 1 else 0);
      QuotShift(v, Shifts(v / 8));
      if k > 0 { QuotShift(v, k - 1); }
    }
  }

  /** The mantissa of a shifted value is at least 1024. */
  lemma MantissaRange(v: nat)
    ensures var k := Shifts(v); Quot(v, k) <= Rounded(v, k) <= MANTISSAS && (k > 0 ==> Quot(v, k) >= 1024)
    ensures Shifts(v) == 0 ==> Rounded(v, 0) == v <= MAXFRACT
  {
    var k := Shifts(v);
    ShiftsIsLeast(v, if k > 0 then k - 1 else 0);
  }

  // ---------- encode and decode ----------

  /** Packing loses nothing, also when the mantissa overflowed by rounding. */
  lemma PackExact(m: nat, k: nat)
    requires m <= MANTISSAS
    ensures Decode(Pack(m, k)) == Scaled(m, k)
  {
    if m == MANTISSAS {
      assert Pack(m, k) == (k + 1) * MANTISSAS + 1024;
      DivMod(k + 1, 1024);
      assert 1024 * (8 * Pow8(k)) == MANTISSAS * Pow8(k);
    } else {
      DivMod(k, m);
    }
  }

  lemma DivMod(k: nat, m: nat)
    requires m < MANTISSAS
    ensures (k * MANTISSAS + m) / MANTISSAS == k && (k * MANTISSAS + m) % MANTISSAS == m
  {
  }

  lemma DecodeEncode(v: nat)
    ensures Decode(Encode(v)) == Scaled(Rounded(v, Shifts(v)), Shifts(v))
  {
    MantissaRange(v);
    PackExact(Rounded(v, Shifts(v)), Shifts(v));
  }

  function Distance(a: int, b: int): nat {
    if a < b then b - a else a - b
  }

  /** Decoding gives the value back to within half of 8^k, where k is the number of
      rounds; exactly for values that need no round. */
  lemma ErrorBound(v: nat)
    ensures 2 * Distance(Decode(Encode(v)), v) <= Pow8(Shifts(v))
    ensures v <= MAXFRACT ==> Encode(v) == v && Decode(Encode(v)) == v
  {
    var k := Shifts(v);
    DecodeEncode(v);
    RoundedBounds(v, k);
    MantissaRange(v);
  }

  /** Every 32-bit value fits into 16 bits. */
  lemma EncodeFits(v: nat)
    requires v < 0x1_0000_0000
    ensures Encode(v) < 0x1_0000
  {
    MantissaRange(v);
    ShiftsBound(v);
    var k := Shifts(v);
    if k == 7 {
      QuotValue(v);
    }
  }

  lemma ShiftsBound(v: nat)
    requires v < 0x1_0000_0000
    ensures Shifts(v) <= 7
  {
    var k := Shifts(v);
    if k > 7 {
      ShiftsIsLeast(v, 7);
      QuotValue(v);
    }
  }

  lemma QuotValue(v: nat)
    requires v < 0x1_0000_0000
    ensures Quot(v, 7) < 2048
  {
    assert Quot(v, 1) == v / 8;
    assert Quot(v, 2) == Quot(v, 1) / 8;
    assert Quot(v, 3) == Quot(v, 2) / 8;
    assert Quot(v, 4) == Quot(v, 3) / 8;
    assert Quot(v, 5) == Quot(v, 4) / 8;
    assert Quot(v, 6) == Quot(v, 5) / 8;
    assert Quot(v, 7) == Quot(v, 6) / 8;
  }

  // ---------- order ----------

  lemma {:induction false} ShiftsMono(u: nat, v: nat)
    requires u <= v
    ensures Shifts(u) <= Shifts(v)
    decreases v
  {
    if u > MAXFRACT { ShiftsMono(u / 8, v / 8); }
  }

  lemma RoundedMono(u: nat, v: nat, k: nat)
    requires u <= v
    ensures Rounded(u, k) <= Rounded(v, k)
  {
    var a, b := Rounded(u, k), Rounded(v, k);
    RoundedBounds(u, k);
    RoundedBounds(v, k);
    ScaledNext(b, k);
    if b < a { ScaledMono(b + 1, a, k); }
  }

  /** A larger value never gets a smaller code. */
  lemma EncodeMonotone(u: nat, v: nat)
    requires u <= v
    ensures Encode(u) <= Encode(v)
  {
    ShiftsMono(u, v);
    MantissaRange(u);
    MantissaRange(v);
    if Shifts(u) == Shifts(v) { RoundedMono(u, v, Shifts(u)); }
  }

  // ---------- nearest ----------

  lemma {:induction false} Pow8Split(k: nat, e: nat)
    requires k <= e
    ensures Pow8(e) == Pow8(e - k) * Pow8(k)
    decreases e - k
  {
    if k < e {
      Pow8Split(k, e - 1);
      Eightfold(Pow8(e - 1 - k), Pow8(k));
    }
  }

  lemma Eightfold(x: nat, y: nat)
    ensures 8 * (x * y) == (8 * x) * y
  {
  }

  lemma {:induction false} Pow8Mono(a: nat, b: nat)
    requires a <= b
    ensures Pow8(a) <= Pow8(b)
    decreases b
  {
    if a < b { Pow8Mono(a, b - 1); }
  }

  /** No multiple of 8^k is closer. */
  lemma NearestMultiple(v: nat, k: nat, t: nat)
    ensures Distance(Scaled(t, k), v) >= Distance(Scaled(Rounded(v, k), k), v)
  {
    RoundedBounds(v, k);
    var r := Rounded(v, k);
    if t < r {
      ScaledNext(t, k);
      ScaledMono(t + 1, r, k);
    } else if t > r {
      ScaledNext(r, k);
      ScaledMono(r + 1, t, k);
    }
  }

  /** Values with a smaller exponent all lie below 1024 * 8^k. */
  lemma SmallerExponent(m: nat, e: nat, k: nat)
    requires m <= MAXFRACT && e < k
    ensures Scaled(m, e) <= Scaled(1024, k)
  {
    Pow8Mono(e, k - 1);
    ScaledMono(m, MAXFRACT, e);
    assert MAXFRACT * Pow8(e) <= MAXFRACT * Pow8(k - 1);
    assert 1024 * Pow8(k) == 8192 * Pow8(k - 1);
  }

  lemma ScaledSplit(m: nat, k: nat, e: nat)
    requires k <= e
    ensures Scaled(m, e) == Scaled(m * Pow8(e - k), k)
  {
    Pow8Split(k, e);
    var x, p := Pow8(e - k), Pow8(k);
    assert m * (x * p) == (m * x) * p;
  }

  /** No number that can be encoded at all is closer than the one chosen. */
  lemma NearestCode(v: nat, c: nat)
    ensures Distance(Decode(c), v) >= Distance(Decode(Encode(v)), v)
  {
    var k, m, e := Shifts(v), c % MANTISSAS, c / MANTISSAS;
    assert Decode(c) == Scaled(m, e);
    DecodeEncode(v);
    MantissaRange(v);
    if e >= k {
      ScaledSplit(m, k, e);
      NearestMultiple(v, k, m * Pow8(e - k));
    } else {
      SmallerExponent(m, e, k);
      QuotBounds(v, k);
      ScaledMono(1024, Quot(v, k), k);
      NearestMultiple(v, k, 1024);
    }
  }

  // ---------- the loop ----------

  lemma ThirdBit(v: nat)
    ensures v / 4 % 2 == 1 <==> v % 8 >= 4
  {
  }

  /** encode_comp_t. */
  method EncodeCompT(v: nat) returns (c: nat)
    requires v < 0x1_0000_0000
    ensures c == Encode(v) && c < 0x1_0000
  {
    var value, exp, rnd := v, 0, false;
    while value > MAXFRACT
      invariant 0 <= value && exp + Shifts(value) == Shifts(v) && value == Quot(v, exp)
      invariant rnd <==> exp > 0 && Quot(v, exp - 1) % 8 >= 4
    {
      ThirdBit(value);
      rnd := value / 4 % 2 == 1;
      value := value / 8;
      exp := exp + 1;
    }
    MantissaRange(v);
    EncodeFits(v);
    if rnd {
      value := value + 1;
      if value > MAXFRACT {
        value := value / 8;
        exp := exp + 1;
      }
    }
    c := exp * MANTISSAS + value;
  }
}
