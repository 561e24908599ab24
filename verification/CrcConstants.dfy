/** The constants of rtl/ibex_alu.sv for cyclic redundancy checks, as words of bits, and a register that divides by
    them. */
module CrcConstants {
  import opened Bits

  const CRC32_POLYNOMIAL: bv32 := 0x04c1_1db7
  const CRC32_MU_REV: bv32 := 0xf701_1641
  const CRC32C_POLYNOMIAL: bv32 := 0x1edc_6f41
  const CRC32C_MU_REV: bv32 := 0xdea7_13f1

  const TOP: bv32 := 0x8000_0000

  function Halved(m: bv32, k: nat): bv32 {
    if k == 0 then m else Halved(m, k - 1) >> 1
  }

  /** The bit `k` places below the top. */
  function Mask(k: nat): bv32 {
    Halved(TOP, k)
  }

  predicate Bit(v: bv32, m: bv32) {
    v & m != 0
  }

  predicate FromTop(v: bv32, k: nat) {
    Bit(v, Mask(k))
  }

  /** The bits of a machine word, from the top and from the bottom. */
  function Reflected(v: bv32): (w: Word)
    ensures |w| == 32
  {
    seq(32, k requires 0 <= k < 32 => FromTop(v, k))
  }

  function ToWord(v: bv32): (w: Word)
    ensures |w| == 32
  {
    seq(32, k requires 0 <= k < 32 => FromTop(v, 31 - k))
  }

  lemma ReverseOfWord(v: bv32)
    ensures Reverse(ToWord(v)) == Reflected(v)
  {
  }

  // ------------------------------------------------------------------ masks

  predicate AtMostOneBit(m: bv32) {
    m & (m - 1) == 0
  }

  lemma HalfOfOneBit(m: bv32)
    requires AtMostOneBit(m)
    ensures AtMostOneBit(m >> 1)
  {
  }

  lemma MaskNext(k: nat)
    ensures Mask(k + 1) == Mask(k) >> 1
  {
  }

  lemma {:induction false} MasksAreBits(k: nat)
    ensures AtMostOneBit(Mask(k))
  {
    if k > 0 {
      MasksAreBits(k - 1);
      HalfOfOneBit(Mask(k - 1));
    }
  }

  lemma LastMask()
    ensures Mask(31) == 1 && Mask(32) == 0
  {
    assert Halved(TOP, 8) == 0x0080_0000;
    assert Halved(TOP, 16) == 0x0000_8000;
    assert Halved(TOP, 24) == 0x0000_0080;
  }

  lemma {:induction false} MasksWithin(k: nat)
    requires k <= 31
    ensures Mask(k) != 0
    decreases 31 - k
  {
    if k < 31 {
      MasksWithin(k + 1);
    } else {
      LastMask();
    }
  }

  // ------------------------------------------------------------------ division

  /** The remainder moves up a place, less the polynomial if its top bit was set. */
  function Subtracted(rem: bv32, poly: bv32): bv32 {
    if Bit(rem, TOP) then (rem << 1) ^ poly else rem << 1
  }

  /** The quotient moves down a place, with the bit shifted out on top. */
  function Pushed(quot: bv32, rem: bv32): bv32 {
    if Bit(rem, TOP) then (quot >> 1) | TOP else quot >> 1
  }

  /** A word divided from the top, and the quotient so far, pushed in from the top. */
  datatype Divider = Divider(rem: bv32, quot: bv32) {

    function Step(poly: bv32): Divider {
      Divider(Subtracted(rem, poly), Pushed(quot, rem))
    }

    function Four(poly: bv32): Divider {
      Step(poly).Step(poly).Step(poly).Step(poly)
    }

    function Sixteen(poly: bv32): Divider {
      Four(poly).Four(poly).Four(poly).Four(poly)
    }
  }

  function Steps(d: Divider, poly: bv32, n: nat): Divider {
    if n == 0 then d else Steps(d, poly, n - 1).Step(poly)
  }

  lemma FourMore(d: Divider, poly: bv32, n: nat)
    ensures Steps(d, poly, n + 4) == Steps(d, poly, n).Four(poly)
  {
    assert Steps(d, poly, n + 1) == Steps(d, poly, n).Step(poly);
    assert Steps(d, poly, n + 2) == Steps(d, poly, n + 1).Step(poly);
    assert Steps(d, poly, n + 3) == Steps(d, poly, n + 2).Step(poly);
  }

  lemma SixteenMore(d: Divider, poly: bv32, n: nat)
    ensures Steps(d, poly, n + 16) == Steps(d, poly, n).Sixteen(poly)
  {
    FourMore(d, poly, n);
    FourMore(d, poly, n + 4);
    FourMore(d, poly, n + 8);
    FourMore(d, poly, n + 12);
  }

  const ONE: Divider := Divider(TOP, 0)

  lemma ThirtyTwo(d: Divider, poly: bv32, n: nat)
    requires n == 32
    ensures Steps(d, poly, n) == d.Sixteen(poly).Sixteen(poly)
  {
    var none := n - 32;
    SixteenMore(d, poly, none);
    SixteenMore(d, poly, none + 16);
    assert Steps(d, poly, none) == d;
  }

  /** The constants of the source: dividing one by the polynomial gives the other. */
  lemma Crc32Divides()
    ensures Steps(ONE, CRC32_POLYNOMIAL, 32).quot == CRC32_MU_REV
  {
    ThirtyTwo(ONE, CRC32_POLYNOMIAL, 32);
  }

  lemma Crc32cDivides()
    ensures Steps(ONE, CRC32C_POLYNOMIAL, 32).quot == CRC32C_MU_REV
  {
    ThirtyTwo(ONE, CRC32C_POLYNOMIAL, 32);
  }

  // ------------------------------------------------------------------ what a step does to the bits

  lemma BitOrNone(a: bv32, m: bv32)
    requires AtMostOneBit(m)
    ensures a & m == 0 || a & m == m
  {
  }

  lemma XorOfMasked(a: bv32, b: bv32, m: bv32)
    ensures (a ^ b) & m == (a & m) ^ (b & m)
  {
  }

  lemma XorOfSame(a: bv32, b: bv32, m: bv32)
    requires (a == 0 || a == m) && (b == 0 || b == m)
    ensures a ^ b != 0 <==> ((a != 0) != (b != 0))
  {
  }

  lemma XorMasked(a: bv32, b: bv32, m: bv32)
    requires AtMostOneBit(m)
    ensures (a ^ b) & m != 0 <==> ((a & m != 0) != (b & m != 0))
  {
    BitOrNone(a, m);
    BitOrNone(b, m);
    XorOfMasked(a, b, m);
    XorOfSame(a & m, b & m, m);
  }

  lemma XorBit(a: bv32, b: bv32, m: bv32)
    requires AtMostOneBit(m)
    ensures Bit(a ^ b, m) <==> (Bit(a, m) != Bit(b, m))
  {
    XorMasked(a, b, m);
  }

  lemma LeftBit(a: bv32, m: bv32, m': bv32)
    requires m' == m >> 1
    ensures Bit(a << 1, m) <==> Bit(a, m')
  {
  }

  lemma PushedAt(q: bv32, t: bv32, m: bv32)
    requires AtMostOneBit(m) && m >> 1 != 0
    ensures Bit(Pushed(q, t), m >> 1) <==> Bit(q, m)
  {
  }

  lemma PushedTop(q: bv32, t: bv32)
    ensures Bit(Pushed(q, t), TOP) <==> Bit(t, TOP)
  {
  }

  lemma FromTopXor(a: bv32, b: bv32, k: nat)
    ensures FromTop(a ^ b, k) <==> (FromTop(a, k) != FromTop(b, k))
  {
    MasksAreBits(k);
    XorBit(a, b, Mask(k));
  }

  lemma FromTopLeft(a: bv32, k: nat)
    ensures FromTop(a << 1, k) <==> FromTop(a, k + 1)
  {
    MaskNext(k);
    LeftBit(a, Mask(k), Mask(k + 1));
  }

  lemma SubtractedIs(t: bv32, poly: bv32)
    ensures Subtracted(t, poly) == if FromTop(t, 0) then (t << 1) ^ poly else t << 1
  {
  }

  lemma RemainderBit(t: bv32, poly: bv32, k: nat)
    ensures FromTop(Subtracted(t, poly), k) <==> (FromTop(t, k + 1) != (FromTop(t, 0) && FromTop(poly, k)))
  {
    SubtractedIs(t, poly);
    FromTopLeft(t, k);
    FromTopXor(t << 1, poly, k);
  }

  lemma QuotientBit(d: Divider, poly: bv32, k: nat)
    requires k <= 31
    ensures FromTop(d.Step(poly).quot, k) <==> if k == 0 then FromTop(d.rem, 0) else FromTop(d.quot, k - 1)
  {
    if k == 0 {
      PushedTop(d.quot, d.rem);
    } else {
      MasksAreBits(k - 1);
      MasksWithin(k);
      PushedAt(d.quot, d.rem, Mask(k - 1));
    }
  }

  lemma BelowTop(m: bv32)
    ensures TOP & (m >> 1) == 0
  {
  }

  lemma NoMore(v: bv32)
    ensures !FromTop(v, 32)
  {
    LastMask();
  }

  lemma OneBits(k: nat)
    requires k <= 32
    ensures FromTop(TOP, k) <==> k == 0
  {
    if k > 0 {
      BelowTop(Mask(k - 1));
    }
  }
}
