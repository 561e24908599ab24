/** The cyclic redundancy checks of rtl/ibex_alu.sv: two passes through the carry-less multiplier
    do what a bit-serial reflected division does in as many steps as the message has bits. */
module Crc {
  import opened Bits
  import opened PrefixCounter
  import opened Gf2
  import opened Clmul
  import opened CrcConstants

  // ------------------------------------------------------------------ the bit-serial definition

  /** One step of the reflected division: shift out a bit, and subtract the polynomial if it was set. */
  function Step(s: Word, rev: Word): (s': Word)
    requires |s| == |rev|
    ensures |s'| == |s|
  {
    seq(|s|, i requires 0 <= i < |s| => At(s, i + 1) != (s[0] && rev[i]))
  }

  function Serial(a: Word, rev: Word, n: nat): (s: Word)
    requires |a| == |rev|
    ensures |s| == |a|
  {
    if n == 0 then a else Step(Serial(a, rev, n - 1), rev)
  }

  /** The bits shifted out. */
  function Quotient(a: Word, rev: Word, n: nat): (q: Word)
    requires |a| == |rev| > 0
    ensures |q| == n
  {
    if n == 0 then [] else Quotient(a, rev, n - 1) + [Serial(a, rev, n - 1)[0]]
  }

  /** The polynomial with its leading one, from the top coefficient down. */
  function Monic(rev: Word): Word {
    [true] + rev
  }

  lemma CoefBeyondQuotient(q: Word, p: Word, r: nat)
    requires r + 1 >= |q| + |p| && |p| > 0
    ensures !Coef(q, p, r)
  {
    SumOfZeros(Terms(q, p, r), r + 1);
  }

  /** The division algorithm's invariant: operand = quotient times polynomial plus remainder, the
      remainder moved up by the steps taken. */
  lemma {:induction false} Division(a: Word, rev: Word, n: nat)
    requires |a| == |rev| > 0
    ensures forall i | 0 <= i < n :: At(a, i) == Coef(Quotient(a, rev, n), Monic(rev), i)
    ensures forall r | 0 <= r < |a| ::
      Serial(a, rev, n)[r] == (At(a, n + r) != Coef(Quotient(a, rev, n), Monic(rev), n + r))
  {
    if n == 0 {
      forall r | 0 <= r < |a| ensures !Coef([], Monic(rev), r) {
        SumOfZeros(Terms([], Monic(rev), r), r + 1);
      }
    } else {
      var q, s, p := Quotient(a, rev, n - 1), Serial(a, rev, n - 1), Monic(rev);
      Division(a, rev, n - 1);
      forall i | 0 <= i < n ensures At(a, i) == Coef(q + [s[0]], p, i) {
        CoefAppend(q, s[0], p, i);
        if i == n - 1 {
          assert s[0] == (At(a, n - 1 + 0) != Coef(q, p, n - 1 + 0));
        }
      }
      forall r | 0 <= r < |a| ensures Step(s, rev)[r] == (At(a, n + r) != Coef(q + [s[0]], p, n + r)) {
        CoefAppend(q, s[0], p, n + r);
        if r + 1 < |a| {
          assert s[r + 1] == (At(a, n - 1 + (r + 1)) != Coef(q, p, n - 1 + (r + 1)));
        } else {
          CoefBeyondQuotient(q, p, n + r);
        }
      }
    }
  }

  // ------------------------------------------------------------------ the quotient by multiplication

  /** The reciprocal of the polynomial to as many places as the word has. */
  ghost predicate Reciprocal(mu: Word, rev: Word) {
    |mu| == |rev| && forall r | 0 <= r < |rev| :: Coef(Monic(rev), mu, r) == (r == 0)
  }

  function One(w: nat): Word {
    seq(w, i => i == 0)
  }

  /** The quotient is the operand times the reciprocal. */
  lemma QuotientIsProduct(a: Word, rev: Word, mu: Word, n: nat, k: nat)
    requires |a| == |rev| && k < n <= |rev| && Reciprocal(mu, rev)
    ensures Quotient(a, rev, n)[k] == Coef(a, mu, k)
  {
    var q, p := Quotient(a, rev, n), Monic(rev);
    Division(a, rev, n);
    ProductAssociative(q, p, mu, n, k);
    CoefLocal(Product(q, p, n), a, mu, mu, k);
    CoefOne(q, Product(p, mu, n), k);
  }

  /** So the reciprocal is found by dividing one, serially. */
  lemma ReciprocalBySteps(mu: Word, rev: Word)
    requires |rev| > 0 && mu == Quotient(One(|rev|), rev, |rev|)
    ensures Reciprocal(mu, rev)
  {
    Division(One(|rev|), rev, |rev|);
    forall r | 0 <= r < |rev| ensures Coef(Monic(rev), mu, r) == (r == 0) {
      CoefSymmetric(Monic(rev), mu, r);
    }
  }

  // ------------------------------------------------------------------ the two cycles

  lemma FirstCycleHigh(a: Word, op: Word, rev: Word, mu: Word, n: nat, i: nat)
    requires |a| == |rev| == |op| && i < n <= |a| && Reciprocal(mu, rev)
    requires forall j | 0 <= j < |op| :: op[j] == At(a, j - (|a| - n))
    ensures Coef(op, mu, |a| - 1 - i) == Quotient(a, rev, n)[n - 1 - i]
  {
    var w := |a|;
    var f, g := Terms(op, mu, w - 1 - i), Terms(a, mu, n - 1 - i);
    SumMiddle(f, w - n, n - i, 0);
    SumOfEqual(j => f(w - n + j), g, n - i);
    QuotientIsProduct(a, rev, mu, n, n - 1 - i);
  }

  /** The first cycle's product holds the quotient in its top `n` places, and zeros below. */
  lemma FirstCycle(a: Word, op: Word, rev: Word, mu: Word, n: nat, i: nat)
    requires |a| == |rev| == |op| && 0 < n <= |a| && i < |a| && Reciprocal(mu, rev)
    requires forall j | 0 <= j < |op| :: op[j] == At(a, j - (|a| - n))
    ensures Coef(op, mu, |a| - 1 - i) == (i < n && Quotient(a, rev, n)[n - 1 - i])
  {
    if i < n {
      FirstCycleHigh(a, op, rev, mu, n, i);
    } else {
      SumOfZeros(Terms(op, mu, |a| - 1 - i), |a| - i);
    }
  }

  /** The first cycle's result: the quotient reversed. */
  ghost predicate Holds(imd: Word, q: Word) {
    |q| <= |imd| && forall i | 0 <= i < |imd| :: imd[i] == (i < |q| && q[|q| - 1 - i])
  }

  /** The second cycle multiplies it by the polynomial. */
  lemma SecondCycle(q: Word, imd: Word, poly: Word, n: nat, r: nat)
    requires |poly| == |imd| && 0 < n == |q| && r < |poly| && Holds(imd, q)
    ensures Coef(imd, poly, |poly| - 1 - r) == Coef(q, Monic(Reverse(poly)), n + r)
  {
    var w := |poly|;
    var p := Monic(Reverse(poly));
    var f := Terms(imd, poly, w - 1 - r);
    var g := Terms(q, p, n + r);
    CoefTerms(imd, poly, w - 1 - r, w);
    SumMiddle(f, 0, n, w - n);
    SumOfEqual(i => f(0 + i), f, n);
    CoefTerms(q, p, n + r, n);
    SumReversed(g, n);
    forall i | 0 <= i < n ensures f(i) == g(n - 1 - i) {
      assert At(q, n - 1 - i) == At(imd, i);
      assert At(p, n + r - (n - 1 - i)) == At(Reverse(poly), r + i);
      assert At(Reverse(poly), r + i) == At(poly, w - 1 - r - i);
    }
    SumOfEqual(f, i => g(n - 1 - i), n);
  }

  lemma AfterFirst(a: Word, rev: Word, mu: Word, n: nat, imd: Word)
    requires |a| == |rev| && 0 < n <= |a| && Reciprocal(mu, rev)
    requires imd == Reverse(Product(ShiftLeft(a, |a| - n), mu, |a|))
    ensures Holds(imd, Quotient(a, rev, n))
  {
    var q := Quotient(a, rev, n);
    forall i | 0 <= i < |imd| ensures imd[i] == (i < n && q[n - 1 - i]) {
      FirstCycle(a, ShiftLeft(a, |a| - n), rev, mu, n, i);
    }
  }

  lemma ResultBit(a: Word, p: Word, n: nat, crc: Word, r: nat)
    requires |p| == |a| && r < |a| && crc == Xor(Reverse(p), ShiftRight(a, n))
    ensures crc[r] == (p[|a| - 1 - r] != At(a, n + r))
  {
  }

  lemma Remainder(a: Word, rev: Word, n: nat, r: nat)
    requires |a| == |rev| && r < |a|
    ensures Serial(a, rev, n)[r] == (At(a, n + r) != Coef(Quotient(a, rev, n), Monic(rev), n + r))
  {
    Division(a, rev, n);
  }

  lemma AfterSecondBit(a: Word, poly: Word, n: nat, imd: Word, p: Word, crc: Word, r: nat)
    requires |a| == |poly| == |imd| == |p| && 0 < n <= |a| && Holds(imd, Quotient(a, Reverse(poly), n))
    requires r < |a| && p[|a| - 1 - r] == Coef(imd, poly, |a| - 1 - r)
    requires crc == Xor(Reverse(p), ShiftRight(a, n))
    ensures crc[r] == Serial(a, Reverse(poly), n)[r]
  {
    SecondCycle(Quotient(a, Reverse(poly), n), imd, poly, n, r);
    ResultBit(a, p, n, crc, r);
    Remainder(a, Reverse(poly), n, r);
  }

  lemma AfterSecond(a: Word, poly: Word, n: nat, imd: Word, p: Word, crc: Word)
    requires |a| == |poly| == |imd| == |p| && 0 < n <= |a| && Holds(imd, Quotient(a, Reverse(poly), n))
    requires forall r | 0 <= r < |a| :: p[r] == Coef(imd, poly, r)
    requires crc == Xor(Reverse(p), ShiftRight(a, n))
    ensures crc == Serial(a, Reverse(poly), n)
  {
    var s := Serial(a, Reverse(poly), n);
    forall r | 0 <= r < |a| ensures crc[r] == s[r] {
      AfterSecondBit(a, poly, n, imd, p, crc, r);
    }
  }

  /** Both cycles in the hardware's order: multiply by the reciprocal, then by the polynomial, and
      add the message bits not consumed. The result is that of `n` serial steps. */
  method Check(a: Word, poly: Word, mu: Word, n: nat, levels: nat) returns (crc: Word)
    requires |a| == |poly| == Pow2(levels) && 0 < n <= |a| && Reciprocal(mu, Reverse(poly))
    ensures crc == Serial(a, Reverse(poly), n)
  {
    var operand := ShiftLeft(a, |a| - n);
    var raw := Raw(operand, mu, levels);
    var imd := Reverse(raw);
    AfterFirst(a, Reverse(poly), mu, n, imd);
    raw := Raw(imd, poly, levels);
    crc := Reverse(raw);
    if n < |a| {
      crc := Xor(crc, ShiftRight(a, n));
    } else {
      assert crc == Xor(crc, ShiftRight(a, n));
    }
    AfterSecond(a, poly, n, imd, raw, crc);
  }

  // ------------------------------------------------------------------ the two polynomials

  lemma RemainderFollows(poly: bv32, s: Word, d: Divider)
    requires |s| == 32 && forall k | 0 <= k < 32 :: s[k] == FromTop(d.rem, k)
    ensures forall k | 0 <= k < 32 :: Step(s, Reflected(poly))[k] == FromTop(d.Step(poly).rem, k)
  {
    forall k | 0 <= k < 32 ensures Step(s, Reflected(poly))[k] == FromTop(d.Step(poly).rem, k) {
      RemainderBit(d.rem, poly, k);
      if k == 31 {
        NoMore(d.rem);
      }
    }
  }

  lemma QuotientFollows(poly: bv32, q: Word, out: bool, d: Divider)
    requires |q| < 32 && out == FromTop(d.rem, 0) && forall k | 0 <= k < |q| :: q[|q| - 1 - k] == FromTop(d.quot, k)
    ensures forall k | 0 <= k <= |q| :: (q + [out])[|q| - k] == FromTop(d.Step(poly).quot, k)
  {
    forall k | 0 <= k <= |q| ensures (q + [out])[|q| - k] == FromTop(d.Step(poly).quot, k) {
      QuotientBit(d, poly, k);
    }
  }

  /** Remainder and quotient of dividing one, bit by bit. */
  ghost predicate SameRemainder(s: Word, d: Divider) {
    |s| == 32 && forall k | 0 <= k < 32 :: s[k] == FromTop(d.rem, k)
  }

  ghost predicate SameQuotient(q: Word, d: Divider) {
    forall k | 0 <= k < |q| :: q[|q| - 1 - k] == FromTop(d.quot, k)
  }

  ghost predicate Divided(poly: bv32, n: nat) {
    && SameRemainder(Serial(One(32), Reflected(poly), n), Steps(ONE, poly, n))
    && SameQuotient(Quotient(One(32), Reflected(poly), n), Steps(ONE, poly, n))
  }

  lemma SameRemainderNext(poly: bv32, s: Word, d: Divider)
    requires SameRemainder(s, d)
    ensures SameRemainder(Step(s, Reflected(poly)), d.Step(poly))
  {
    RemainderFollows(poly, s, d);
  }

  lemma SameQuotientNext(poly: bv32, s: Word, q: Word, d: Divider)
    requires SameRemainder(s, d) && SameQuotient(q, d) && |q| < 32
    ensures SameQuotient(q + [s[0]], d.Step(poly))
  {
    QuotientFollows(poly, q, s[0], d);
  }

  lemma DividesOneMore(poly: bv32, n: nat)
    requires n < 32 && Divided(poly, n)
    ensures Divided(poly, n + 1)
  {
    var rev := Reflected(poly);
    var d, s, q := Steps(ONE, poly, n), Serial(One(32), rev, n), Quotient(One(32), rev, n);
    SameRemainderNext(poly, s, d);
    SameQuotientNext(poly, s, q, d);
  }

  /** The register divides one as the serial definition does: remainder and quotient bit by bit. */
  lemma {:induction false} DividesSerially(poly: bv32, n: nat)
    requires n <= 32
    ensures Divided(poly, n)
  {
    if n == 0 {
      forall k | 0 <= k < 32 ensures One(32)[k] == FromTop(TOP, k) {
        OneBits(k);
      }
    } else {
      DividesSerially(poly, n - 1);
      DividesOneMore(poly, n - 1);
    }
  }

  lemma WordFromQuotient(mu: bv32, q: Word, d: Divider)
    requires |q| == 32 && SameQuotient(q, d) && mu == d.quot
    ensures ToWord(mu) == q
  {
    forall k | 0 <= k < 32 ensures ToWord(mu)[k] == q[k] {
      assert q[31 - (31 - k)] == FromTop(d.quot, 31 - k);
    }
  }

  lemma FoundQuotient(poly: bv32, mu: bv32, n: nat)
    requires n == 32 && Steps(ONE, poly, n).quot == mu
    ensures ToWord(mu) == Quotient(One(32), Reflected(poly), n)
  {
    DividesSerially(poly, n);
    WordFromQuotient(mu, Quotient(One(32), Reflected(poly), n), Steps(ONE, poly, n));
  }

  /** Constants of which one is what the register finds on dividing by the other belong together. */
  lemma ReciprocalFound(poly: bv32, mu: bv32)
    requires Steps(ONE, poly, 32).quot == mu
    ensures Reciprocal(ToWord(mu), Reverse(ToWord(poly)))
  {
    FoundQuotient(poly, mu, 32);
    ReverseOfWord(poly);
    ReciprocalBySteps(ToWord(mu), Reflected(poly));
  }

  /** The constants of the source belong together. */
  lemma Crc32Reciprocal()
    ensures Reciprocal(ToWord(CRC32_MU_REV), Reverse(ToWord(CRC32_POLYNOMIAL)))
  {
    Crc32Divides();
    ReciprocalFound(CRC32_POLYNOMIAL, CRC32_MU_REV);
  }

  lemma Crc32cReciprocal()
    ensures Reciprocal(ToWord(CRC32C_MU_REV), Reverse(ToWord(CRC32C_POLYNOMIAL)))
  {
    Crc32cDivides();
    ReciprocalFound(CRC32C_POLYNOMIAL, CRC32C_MU_REV);
  }

  /** Steps may be taken in portions. */
  lemma {:induction false} SerialSplits(a: Word, rev: Word, m: nat, n: nat)
    requires |a| == |rev|
    ensures Serial(Serial(a, rev, m), rev, n) == Serial(a, rev, m + n)
  {
    if n > 0 {
      SerialSplits(a, rev, m, n - 1);
    }
  }

  datatype Size = Byte | Half | Full

  function SizeBits(size: Size): nat {
    match size {
      case Byte => 8
      case Half => 16
      case Full => 32
    }
  }

  /** The result of `steps` serial steps with the polynomial given by its coefficients below the leading one. */
  ghost predicate Reduces(a: Word, polynomial: bv32, steps: nat, crc: Word) {
    |a| == 32 && crc == Serial(a, Reverse(ToWord(polynomial)), steps)
  }

  /** The instructions: `castagnoli` selects the CRC-32C polynomial. */
  method Crc(size: Size, castagnoli: bool, a: Word) returns (crc: Word)
    requires |a| == 32
    ensures size == Byte && !castagnoli ==> Reduces(a, 0x04c1_1db7, 8, crc)
    ensures size == Half && !castagnoli ==> Reduces(a, 0x04c1_1db7, 16, crc)
    ensures size == Full && !castagnoli ==> Reduces(a, 0x04c1_1db7, 32, crc)
    ensures size == Byte && castagnoli ==> Reduces(a, 0x1edc_6f41, 8, crc)
    ensures size == Half && castagnoli ==> Reduces(a, 0x1edc_6f41, 16, crc)
    ensures size == Full && castagnoli ==> Reduces(a, 0x1edc_6f41, 32, crc)
  {
    Crc32Reciprocal();
    Crc32cReciprocal();
    var poly := ToWord(if castagnoli then CRC32C_POLYNOMIAL else CRC32_POLYNOMIAL);
    var mu := ToWord(if castagnoli then CRC32C_MU_REV else CRC32_MU_REV);
    assert Pow2(5) == 32 by { assert Pow2(2) == 4; }
    crc := Check(a, poly, mu, SizeBits(size), 5);
    assert Reduces(a, if castagnoli then CRC32C_POLYNOMIAL else CRC32_POLYNOMIAL, SizeBits(size), crc);
  }
}
