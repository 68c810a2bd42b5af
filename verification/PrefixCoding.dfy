/** Numbers as terms whose byte order is the numeric order. */
module PrefixCoding {
  import opened Basics
  import opened ByteOrder

  const SHIFT_START: nat := 0x20
  const TWO63: nat := 0x8000_0000_0000_0000
  const TWO64: nat := 0x1_0000_0000_0000_0000

  type Int64 = x: int | -0x8000_0000_0000_0000 <= x < 0x8000_0000_0000_0000
  type UInt64 = x: nat | x < TWO64

  function Pow2(n: nat): (p: nat)
    ensures p > 0
  {
    if n == 0 then 1 else 2 * Pow2(n - 1)
  }

  function Pow128(n: nat): (p: nat)
    ensures p > 0
  {
    if n == 0 then 1 else 128 * Pow128(n - 1)
  }

  lemma {:induction false} PowAdd(a: nat, b: nat)
    ensures Pow2(a + b) == Pow2(a) * Pow2(b)
  {
    if a > 0 { PowAdd(a - 1, b); }
  }

  lemma {:induction false} PowSeven(n: nat)
    ensures Pow128(n) == Pow2(7 * n)
  {
    if n > 0 {
      PowSeven(n - 1);
      PowAdd(7, 7 * (n - 1));
      assert Pow2(7) == 128;
    }
  }

  lemma Pow64()
    ensures Pow2(63) == TWO63 && Pow2(64) == TWO64
  {
    PowAdd(8, 8);
    PowAdd(16, 16);
    PowAdd(32, 31);
    PowAdd(16, 15);
    PowAdd(8, 7);
    assert Pow2(8) == 256 && Pow2(7) == 128;
  }

  /** The sign bit flipped: an order-preserving step from signed to unsigned. */
  function Sortable(x: Int64): UInt64 {
    x + TWO63
  }

  function Chars(shift: nat): nat
    requires shift <= 63
  {
    (63 - shift) / 7 + 1
  }

  /** Seven bits a byte, the highest first. */
  function Digits(u: nat, n: nat): (r: seq<Byte>)
    ensures |r| == n
  {
    if n == 0 then [] else Digits(u / 128, n - 1) + [u % 128]
  }

  /** The bits above the lowest ones. */
  function High(u: nat, shift: nat): nat {
    Quotient(u, Pow2(shift))
  }

  function Quotient(u: nat, p: nat): nat
    requires p > 0
  {
    u / p
  }

  function Encode(x: Int64, shift: nat): seq<Byte>
    requires shift <= 63
  {
    [SHIFT_START + shift] + Digits(High(Sortable(x), shift), Chars(shift))
  }

  /** Seven more bits below what was read; a byte's eighth bit falls on the lowest bit read. */
  function Or7(bits: UInt64, b: Byte): UInt64 {
    var shifted := (bits * 128) % TWO64;
    if b < 128 || bits % 2 == 0 then Within(shifted, b) else Within(shifted, b - 128)
  }

  function Within(shifted: nat, low: nat): UInt64
    requires shifted < TWO64 && low < 256
  {
    (shifted + low) % TWO64
  }

  function Bits(bytes: seq<Byte>): UInt64 {
    if bytes == [] then 0 else Or7(Bits(bytes[..|bytes| - 1]), bytes[|bytes| - 1])
  }

  /** The shift a term announces: below 63, although 63 can be encoded. */
  function Shift(p: seq<Byte>): Option<nat> {
    if |p| > 0 && (p[0] + 256 - SHIFT_START) % 256 < 63 then Some((p[0] + 256 - SHIFT_START) % 256) else None
  }

  function Decode(p: seq<Byte>): Option<Int64> {
    if Shift(p).None? then None
    else Some((Bits(p[1..]) * Pow2(Shift(p).value)) % TWO64 - TWO63)
  }

  // ---------------------------------------------------------------- encoding in place

  /** Fills the term from its last byte to its first. */
  method EncodeTerm(x: Int64, shift: nat) returns (term: Option<seq<Byte>>)
    ensures term == if shift > 63 then None else Some(Encode(x, shift))
  {
    hide High, Pow2, Sortable;
    if shift > 63 {
      return None;
    }
    var chars := Chars(shift);
    var rv := new Byte[chars + 1](_ => 0);
    rv[0] := SHIFT_START + shift;
    var bits: nat := High(Sortable(x), shift);
    ghost var all := bits;
    assert rv[chars + 1..chars + 1] == [] && Digits(all, chars) + [] == Digits(all, chars);
    while chars > 0
      invariant 0 <= chars < rv.Length == Chars(shift) + 1 && rv[0] == SHIFT_START + shift
      invariant Digits(bits, chars) + rv[chars + 1..] == Digits(all, Chars(shift))
    {
      ghost var tail := rv[chars + 1..];
      rv[chars] := bits % 128;
      assert rv[chars..] == [bits % 128] + tail;
      DigitsStep(bits, chars, tail);
      chars := chars - 1;
      bits := bits / 128;
    }
    assert rv[1..] == [] + rv[1..];
    assert rv[..] == [rv[0]] + rv[1..];
    term := Some(rv[..]);
  }

  lemma DigitsStep(u: nat, n: nat, tail: seq<Byte>)
    requires n > 0
    ensures Digits(u, n) + tail == Digits(u / 128, n - 1) + ([u % 128] + tail)
  {
  }

  // ---------------------------------------------------------------- round trip

  lemma OneMoreDigit(u: UInt64)
    ensures Or7(u / 128, u % 128) == u
  {
  }

  lemma {:induction false} DigitsBits(u: nat, n: nat)
    requires u < Pow128(n) && u < TWO64
    ensures Bits(Digits(u, n)) == u
  {
    if n > 0 {
      DigitsBits(u / 128, n - 1);
      var d := Digits(u, n);
      assert d[..n - 1] == Digits(u / 128, n - 1) && d[n - 1] == u % 128;
      OneMoreDigit(u);
    }
  }

  lemma EnoughChars(x: Int64, shift: nat)
    requires shift <= 63
    ensures High(Sortable(x), shift) < Pow128(Chars(shift))
  {
    var n := Chars(shift);
    PowSeven(n);
    PowAdd(shift, 64 - shift);
    Pow64();
    PowAdd(64 - shift, 7 * n - (64 - shift));
    DivideBelow(Sortable(x), Pow2(shift), Pow2(64 - shift));
    assert Pow2(7 * n - (64 - shift)) >= 1;
    MultiplyGrows(Pow2(64 - shift), Pow2(7 * n - (64 - shift)));
  }

  lemma DivideBelow(u: nat, p: nat, q: nat)
    requires p > 0 && u < p * q
    ensures u / p < q
  {
    if u / p >= q {
      MultiplyMonotone(q, u / p, p);
    }
  }

  lemma MultiplyMonotone(a: nat, b: nat, p: nat)
    requires a <= b
    ensures a * p <= b * p
  {
  }

  lemma MultiplyGrows(a: nat, b: nat)
    requires b >= 1
    ensures a <= a * b
  {
    MultiplyMonotone(1, b, a);
  }

  lemma ShiftOfEncoded(x: Int64, shift: nat)
    requires shift <= 63
    ensures Shift(Encode(x, shift)) == if shift < 63 then Some(shift) else None
    ensures Encode(x, shift)[1..] == Digits(High(Sortable(x), shift), Chars(shift))
  {
    hide Digits, High, Pow2;
    assert Encode(x, shift)[0] == SHIFT_START + shift;
  }

  lemma LowBitsCleared(x: Int64, shift: nat)
    requires shift <= 63
    ensures High(Sortable(x), shift) * Pow2(shift) - TWO63 == x - x % Pow2(shift)
    ensures High(Sortable(x), shift) * Pow2(shift) <= Sortable(x)
  {
    Pow64();
    PowAdd(63 - shift, shift);
    ClearLow(x, Pow2(63 - shift), Pow2(shift));
  }

  lemma ClearLow(x: int, q: nat, p: nat)
    requires p > 0
    ensures (x + q * p) / p * p - q * p == x - x % p
    ensures (x + q * p) / p * p <= x + q * p
  {
    RemainderOfSum(x, q, p);
    Division(x + q * p, p);
  }

  lemma Division(y: int, p: nat)
    requires p > 0
    ensures y == y / p * p + y % p
  {
  }

  lemma RemainderOfSum(x: int, q: nat, p: nat)
    requires p > 0
    ensures (x + q * p) % p == x % p
  {
    var y := x + q * p;
    var k, r := x / p, x % p;
    assert x == k * p + r;
    assert y == (k + q) * p + r by { Distribute(k, q, p); }
    UniqueRemainder(y, k + q, r, p);
  }

  lemma Distribute(a: int, b: int, p: int)
    ensures (a + b) * p == a * p + b * p
  {
  }

  lemma SmallProduct(d: int, p: int)
    requires p > 0 && -p < d * p < p
    ensures d == 0
  {
    AtLeastOnce(d, p);
    AtLeastOnce(-d, p);
  }

  lemma AtLeastOnce(d: int, p: int)
    requires p > 0
    ensures d >= 1 ==> d * p >= p
    ensures -d * p == -(d * p)
  {
    if d >= 1 { MultiplyMonotone(1, d, p); }
  }

  lemma UniqueRemainder(y: int, k: int, r: int, p: nat)
    requires p > 0 && y == k * p + r && 0 <= r < p
    ensures y % p == r
  {
    var d := y / p - k;
    assert y == y / p * p + y % p;
    assert d * p == r - y % p by { Distribute(y / p, -k, p); }
    SmallProduct(d, p);
  }

  /** Every shift up to 63 encodes; the term decodes to the number with its low bits
      cleared exactly when the shift is below 63. */
  lemma DecodesBelow63(x: Int64, shift: nat)
    requires shift <= 63
    ensures Decode(Encode(x, shift)).Some? <==> shift <= 62
    ensures shift <= 62 ==> Decode(Encode(x, shift)).value == x - x % Pow2(shift)
  {
    hide Digits, High, Pow2, Encode, Chars, Bits;
    ShiftOfEncoded(x, shift);
    if shift <= 62 {
      EnoughChars(x, shift);
      LowBitsCleared(x, shift);
      MultiplyGrows(High(Sortable(x), shift), Pow2(shift));
      DigitsBits(High(Sortable(x), shift), Chars(shift));
    }
  }

  /** A term that is encoded but cannot be decoded. */
  lemma Shift63DoesNotDecode()
    ensures Encode(0, 63) == [0x5F, 1] && Decode([0x5F, 1]) == None
  {
    Pow64();
    assert Digits(1, 1) == Digits(0, 0) + [1];
  }

  // ---------------------------------------------------------------- order

  lemma {:induction false} BytesLessSnoc(a: seq<Byte>, b: seq<Byte>, p: Byte, q: Byte)
    requires |a| == |b|
    ensures BytesLess(a + [p], b + [q]) <==> BytesLess(a, b) || (a == b && p < q)
  {
    if a == [] {
      assert BytesLess([p], [q]) <==> p < q by { assert [p][1..] == [] && [q][1..] == []; }
      assert a + [p] == [p] && b + [q] == [q];
    } else {
      assert (a + [p])[1..] == a[1..] + [p] && (b + [q])[1..] == b[1..] + [q];
      BytesLessSnoc(a[1..], b[1..], p, q);
      assert a == [a[0]] + a[1..] && b == [b[0]] + b[1..];
    }
  }

  lemma {:induction false} DigitsOrder(u: nat, v: nat, n: nat)
    requires u < Pow128(n) && v < Pow128(n)
    ensures BytesLess(Digits(u, n), Digits(v, n)) <==> u < v
    ensures Digits(u, n) == Digits(v, n) <==> u == v
  {
    if n > 0 {
      DigitsOrder(u / 128, v / 128, n - 1);
      BytesLessSnoc(Digits(u / 128, n - 1), Digits(v / 128, n - 1), u % 128, v % 128);
      var a, b := Digits(u, n), Digits(v, n);
      assert a[..n - 1] == Digits(u / 128, n - 1) && b[..n - 1] == Digits(v / 128, n - 1);
      assert a[n - 1] == u % 128 && b[n - 1] == v % 128;
    }
  }

  /** The arithmetic right shift. */
  function Shifted(x: Int64, shift: nat): int {
    x / Pow2(shift)
  }

  lemma ShiftedIs(x: Int64, shift: nat)
    requires shift <= 63
    ensures High(Sortable(x), shift) == Shifted(x, shift) + Pow2(63 - shift)
  {
    Pow64();
    PowAdd(63 - shift, shift);
    QuotientOfSum(x, Pow2(63 - shift), Pow2(shift));
  }

  lemma QuotientOfSum(x: int, q: nat, p: nat)
    requires p > 0
    ensures (x + q * p) / p == x / p + q
  {
    ClearLow(x, q, p);
    Division(x, p);
    Distribute(x / p, q, p);
    SameFactor((x + q * p) / p, x / p + q, p);
  }

  lemma SameFactor(a: int, b: int, p: nat)
    requires p > 0 && a * p == b * p
    ensures a == b
  {
    Distribute(a, -b, p);
    SmallProduct(a - b, p);
  }

  /** For one shift, byte order of the terms is signed order of the shifted numbers. */
  lemma OrderOfTerms(x: Int64, y: Int64, shift: nat)
    requires shift <= 63
    ensures BytesLess(Encode(x, shift), Encode(y, shift)) <==> Shifted(x, shift) < Shifted(y, shift)
    ensures Encode(x, shift) == Encode(y, shift) <==> Shifted(x, shift) == Shifted(y, shift)
  {
    hide Digits, High, Pow2, Chars, Shifted;
    EnoughChars(x, shift);
    EnoughChars(y, shift);
    ShiftOfEncoded(x, shift);
    ShiftOfEncoded(y, shift);
    ShiftedIs(x, shift);
    ShiftedIs(y, shift);
    DigitsOrder(High(Sortable(x), shift), High(Sortable(y), shift), Chars(shift));
  }

  // ---------------------------------------------------------------- doubles

  const TWO52: nat := 0x10_0000_0000_0000

  /** The bits of a double as a signed number in the order of the doubles. */
  function FloatToInt(bits: UInt64): Int64 {
    if bits < TWO63 then bits else TWO63 - 1 - bits
  }

  function IntToFloat(i: Int64): UInt64 {
    if i >= 0 then i else TWO63 - 1 - i
  }

  lemma FloatRoundTrip(bits: UInt64, i: Int64)
    ensures IntToFloat(FloatToInt(bits)) == bits && FloatToInt(IntToFloat(i)) == i
  {
  }

  function Exponent(bits: UInt64): nat {
    bits % TWO63 / TWO52
  }

  function Fraction(bits: UInt64): nat {
    bits % TWO52
  }

  predicate Negative(bits: UInt64) {
    bits >= TWO63
  }

  predicate IsNaN(bits: UInt64) {
    Exponent(bits) == 2047 && Fraction(bits) != 0
  }

  /** The absolute value in units of the smallest positive double; infinity above all. */
  function Magnitude(bits: UInt64): nat {
    if Exponent(bits) == 0 then Fraction(bits) else (TWO52 + Fraction(bits)) * Pow2(Exponent(bits) - 1)
  }

  /** The order of section 5.10 of IEEE 754-2019 on doubles that are not NaN: by value,
      and negative zero before positive zero. */
  predicate TotalLess(a: UInt64, b: UInt64) {
    if Negative(a) && !Negative(b) then true
    else if !Negative(a) && Negative(b) then false
    else if Negative(a) then Magnitude(b) < Magnitude(a)
    else Magnitude(a) < Magnitude(b)
  }

  lemma {:induction false} PowGrows(a: nat, b: nat)
    requires a <= b
    ensures Pow2(a) <= Pow2(b)
    decreases b
  {
    if a < b { PowGrows(a, b - 1); }
  }

  /** Magnitudes grow with the bits below the sign. */
  lemma MagnitudeGrows(a: UInt64, b: UInt64)
    requires a % TWO63 < b % TWO63
    ensures Magnitude(a) < Magnitude(b)
  {
    var ea, eb, fa, fb := Exponent(a), Exponent(b), Fraction(a), Fraction(b);
    FieldsOf(a);
    FieldsOf(b);
    assert ea <= eb;
    if eb == 0 {
      assert fa < fb;
    } else if ea == eb {
      assert fa < fb;
      StrictProduct(TWO52 + fa, TWO52 + fb, Pow2(ea - 1));
    } else if ea == 0 {
      MultiplyGrows(TWO52 + fb, Pow2(eb - 1));
    } else {
      PowGrows(ea, eb - 1);
      assert Pow2(ea) == 2 * Pow2(ea - 1);
      StrictProduct(TWO52 + fa, 2 * TWO52, Pow2(ea - 1));
      Regroup(TWO52, Pow2(ea - 1));
      ProductGrows(TWO52, Pow2(ea), TWO52 + fb, Pow2(eb - 1));
    }
  }

  lemma Regroup(a: nat, p: nat)
    ensures 2 * a * p == a * (2 * p)
  {
  }

  lemma FieldsOf(bits: UInt64)
    ensures bits % TWO63 == Exponent(bits) * TWO52 + Fraction(bits)
  {
    assert TWO63 == 2048 * TWO52;
    RemainderOfRemainder(bits, 2048, TWO52);
  }

  lemma RemainderOfRemainder(x: nat, q: nat, p: nat)
    requires p > 0 && q > 0 && q * p > 0
    ensures x % (q * p) % p == x % p
  {
    var m := q * p;
    var k := x / m;
    assert x == k * m + x % m;
    assert k * m == (k * q) * p;
    RemainderOfSum(x % m, k * q, p);
  }

  lemma StrictProduct(a: nat, b: nat, p: nat)
    requires a < b && p > 0
    ensures a * p < b * p
  {
    MultiplyMonotone(a + 1, b, p);
    Distribute(a, 1, p);
  }

  lemma ProductGrows(a: nat, p: nat, b: nat, q: nat)
    requires a <= b && p <= q
    ensures a * p <= b * q
  {
    MultiplyMonotone(a, b, p);
    MultiplyMonotone(p, q, b);
  }

  /** Signed order of the converted bits is the order of the doubles. */
  lemma FloatOrder(a: UInt64, b: UInt64)
    requires !IsNaN(a) && !IsNaN(b)
    ensures FloatToInt(a) < FloatToInt(b) <==> TotalLess(a, b)
  {
    hide Magnitude, Pow2;
    if a % TWO63 < b % TWO63 {
      MagnitudeGrows(a, b);
    } else if b % TWO63 < a % TWO63 {
      MagnitudeGrows(b, a);
    } else {
      SameFields(a, b);
    }
  }

  lemma SameFields(a: UInt64, b: UInt64)
    requires a % TWO63 == b % TWO63
    ensures Magnitude(a) == Magnitude(b)
  {
    FieldsOf(a);
    FieldsOf(b);
    assert TWO63 == 2048 * TWO52;
    RemainderOfRemainder(a, 2048, TWO52);
    RemainderOfRemainder(b, 2048, TWO52);
  }

  /** Comparing score sort keys byte by byte orders the scores. */
  lemma SortKeyOrder(a: UInt64, b: UInt64)
    requires !IsNaN(a) && !IsNaN(b)
    ensures BytesLess(Encode(FloatToInt(a), 0), Encode(FloatToInt(b), 0)) <==> TotalLess(a, b)
    ensures Encode(FloatToInt(a), 0) == Encode(FloatToInt(b), 0) <==> a == b
  {
    OrderOfTerms(FloatToInt(a), FloatToInt(b), 0);
    FloatOrder(a, b);
    FloatRoundTrip(a, 0);
    FloatRoundTrip(b, 0);
  }

  /** Zero with all its bits, and 300 without its four lowest. */
  lemma TermBytes()
    ensures Encode(0, 0) == [0x20, 1, 0, 0, 0, 0, 0, 0, 0, 0, 0]
    ensures Encode(300, 4) == [0x24, 8, 0, 0, 0, 0, 0, 0, 0, 18]
  {
    hide Digits, Pow2, Pow128;
    assert Pow2(0) == 1 && Pow2(4) == 16 by { SmallPowers(); }
    LeadingOnly();
    assert Digits(0x800_0000_0000_0012, 9) == Digits(0x10_0000_0000_0000, 8) + [18] by { LastDigit(); }
  }

  lemma SmallPowers()
    ensures Pow2(0) == 1 && Pow2(4) == 16
  {
  }

  lemma LastDigit()
    ensures Digits(0x800_0000_0000_0012, 9) == Digits(0x10_0000_0000_0000, 8) + [18]
  {
  }

  lemma LeadingOnly()
    ensures Digits(TWO63, 10) == [1, 0, 0, 0, 0, 0, 0, 0, 0, 0] && Digits(0x10_0000_0000_0000, 8) == [8, 0, 0, 0, 0, 0, 0, 0]
  {
    LeadingDigits(1, 9);
    LeadingDigits(8, 7);
    assert Pow128(7) == 0x2_0000_0000_0000 && Pow128(9) == TWO63;
  }

  lemma {:induction false} LeadingDigits(d: nat, n: nat)
    requires d < 128
    ensures Digits(d * Pow128(n), n + 1) == [d] + seq(n, _ => 0)
  {
    if n > 0 {
      LeadingDigits(d, n - 1);
      assert d * Pow128(n) == 128 * (d * Pow128(n - 1));
      assert Digits(d * Pow128(n), n + 1) == Digits(d * Pow128(n - 1), n) + [0];
    }
  }
}
