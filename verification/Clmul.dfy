/** The carry-less multiplier of rtl/ibex_alu.sv: one tree of exclusive-ors, used with reversed
    operands for the upper half of the product, and for cyclic redundancy checks by Barrett
    reduction. */
module Clmul {
  import opened Bits
  import opened PrefixCounter
  import opened Gf2

  /** Row `i` of the array: the shifted operand if bit `i` of the other one is set. */
  function Row(a: Word, b: Word, i: nat): Word
    requires i < |b|
  {
    if b[i] then ShiftLeft(a, i) else Zero(|a|)
  }

  lemma RowAt(a: Word, b: Word, i: nat, r: nat)
    requires i < |b| && r < |a|
    ensures |Row(a, b, i)| == |a| && At(Row(a, b, i), r) == (At(b, i) && At(a, r - i))
  {
  }

  /** Bit `r` of every row. */
  function BitColumn(rows: seq<Word>, r: nat): int -> bool {
    i => 0 <= i < |rows| && At(rows[i], r)
  }

  lemma PairsOfColumn(rows: seq<Word>, next: seq<Word>, n: nat, w: nat, r: nat)
    requires |rows| == 2 * n && |next| == n && r < w
    requires forall i | 0 <= i < |rows| :: |rows[i]| == w
    requires forall i | 0 <= i < n :: next[i] == Xor(rows[2 * i], rows[2 * i + 1])
    ensures XorSum(BitColumn(next, r), n) == XorSum(BitColumn(rows, r), 2 * n)
  {
    var f, g := BitColumn(rows, r), BitColumn(next, r);
    SumPairs(f, n);
    forall i | 0 <= i < n ensures g(i) == (f(2 * i) != f(2 * i + 1)) {
      assert next[i] == Xor(rows[2 * i], rows[2 * i + 1]);
    }
    SumOfEqual(g, i => f(2 * i) != f(2 * i + 1), n);
  }

  /** The binary tree: neighbouring rows are added until one is left. */
  method XorTree(rows0: seq<Word>, levels: nat, w: nat) returns (sum: Word)
    requires |rows0| == Pow2(levels) && forall i | 0 <= i < |rows0| :: |rows0[i]| == w
    ensures |sum| == w && forall r | 0 <= r < w :: sum[r] == XorSum(BitColumn(rows0, r), |rows0|)
  {
    var rows := rows0;
    var k := levels;
    while k > 0
      invariant |rows| == Pow2(k) && forall i | 0 <= i < |rows| :: |rows[i]| == w
      invariant forall r | 0 <= r < w :: XorSum(BitColumn(rows, r), |rows|) == XorSum(BitColumn(rows0, r), |rows0|)
    {
      var n := Pow2(k - 1);
      var next := seq(n, i requires 0 <= i < n => Xor(rows[2 * i], rows[2 * i + 1]));
      forall r | 0 <= r < w ensures XorSum(BitColumn(next, r), n) == XorSum(BitColumn(rows0, r), |rows0|) {
        PairsOfColumn(rows, next, n, w, r);
      }
      rows := next;
      k := k - 1;
    }
    sum := rows[0];
    forall r | 0 <= r < w ensures sum[r] == XorSum(BitColumn(rows0, r), |rows0|) {
      assert XorSum(BitColumn(rows, r), 1) == BitColumn(rows, r)(0);
    }
  }

  /** The tree computes the product modulo x^w. */
  method Raw(a: Word, b: Word, levels: nat) returns (p: Word)
    requires |a| == |b| == Pow2(levels)
    ensures p == Product(a, b, |a|)
  {
    var w := |a|;
    var rows := seq(w, i requires 0 <= i < w => Row(a, b, i));
    p := XorTree(rows, levels, w);
    forall r | 0 <= r < w ensures p[r] == Coef(a, b, r) {
      var f, g := BitColumn(rows, r), Terms(b, a, r);
      forall i | 0 <= i < w ensures f(i) == g(i) {
        RowAt(a, b, i, r);
        assert rows[i] == Row(a, b, i);
      }
      SumOfEqual(f, g, w);
      CoefTerms(b, a, r, w);
      CoefSymmetric(a, b, r);
    }
  }

  datatype Part = Low | Reversed | High

  /** The position in the product of the result's lowest bit. */
  function Lowest(part: Part, w: nat): nat
    requires w > 0
  {
    match part {
      case Low => 0
      case Reversed => w - 1
      case High => w
    }
  }

  lemma UpperBits(a: Word, b: Word, rev: Word, r: nat)
    requires |a| == |b| && r < |a| && rev == Reverse(Product(Reverse(a), Reverse(b), |a|))
    ensures rev[r] == Coef(a, b, |a| - 1 + r)
  {
    CoefReversed(a, b, r);
  }

  lemma HighBits(a: Word, b: Word, rev: Word, r: nat)
    requires |a| == |b| && r < |a| && rev == Reverse(Product(Reverse(a), Reverse(b), |a|))
    ensures (rev[1..] + [false])[r] == Coef(a, b, |a| + r)
  {
    if r + 1 < |a| {
      CoefReversed(a, b, r + 1);
    } else {
      CoefBeyond(a, b, |a| + r);
    }
  }

  /** Bits 31..0, 62..31 or 63..32 of the product of two 32-bit words. */
  method Multiply(part: Part, a: Word, b: Word, levels: nat) returns (p: Word)
    requires |a| == |b| == Pow2(levels)
    ensures |p| == |a| && forall r | 0 <= r < |a| :: p[r] == Coef(a, b, Lowest(part, |a|) + r)
  {
    if part.Low? {
      p := Raw(a, b, levels);
      return;
    }
    var raw := Raw(Reverse(a), Reverse(b), levels);
    var rev := Reverse(raw);
    p := if part.Reversed? then rev else rev[1..] + [false];
    forall r | 0 <= r < |a| ensures p[r] == Coef(a, b, Lowest(part, |a|) + r) {
      if part.Reversed? {
        UpperBits(a, b, rev, r);
      } else {
        HighBits(a, b, rev, r);
      }
    }
  }
}
