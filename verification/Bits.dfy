/** Words as sequences of bits, least significant bit first, and counting in them. */
module Bits {

  type Word = seq<bool>

  function Pow2(k: nat): (r: nat)
    ensures r >= 1
  {
    if k == 0 then 1 else 2 * Pow2(k - 1)
  }

  /** Number of set bits among the lowest `n`. */
  function Ones(m: Word, n: nat): (r: nat)
    requires n <= |m|
    ensures r <= n
  {
    if n == 0 then 0 else Ones(m, n - 1) + if m[n - 1] then 1 else 0
  }

  function Reverse(m: Word): Word {
    seq(|m|, i requires 0 <= i < |m| => m[|m| - 1 - i])
  }

  function And(a: Word, b: Word): Word
    requires |a| == |b|
  {
    seq(|a|, i requires 0 <= i < |a| => a[i] && b[i])
  }

  function Xor(a: Word, b: Word): Word
    requires |a| == |b|
  {
    seq(|a|, i requires 0 <= i < |a| => a[i] != b[i])
  }

  function ShiftLeft(a: Word, s: nat): Word {
    seq(|a|, i requires 0 <= i < |a| => i >= s && a[i - s])
  }

  function Or(a: Word, b: Word): Word
    requires |a| == |b|
  {
    seq(|a|, i requires 0 <= i < |a| => a[i] || b[i])
  }

  function Not(a: Word): Word {
    seq(|a|, i requires 0 <= i < |a| => !a[i])
  }

  function ShiftRight(a: Word, s: nat): Word {
    seq(|a|, i requires 0 <= i < |a| => i + s < |a| && a[i + s])
  }

  function Zero(n: nat): Word {
    seq(n, _ => false)
  }

  lemma {:induction false} OnesMonotone(m: Word, a: nat, b: nat)
    requires a <= b <= |m|
    ensures Ones(m, a) <= Ones(m, b) <= Ones(m, a) + (b - a)
  {
    if a < b {
      OnesMonotone(m, a, b - 1);
    }
  }

  lemma MulLe(a: int, b: int, w: nat)
    requires a <= b
    ensures a * w <= b * w
  {
  }

  lemma ModIs(v: int, w: nat, a: int, r: nat)
    requires r < w && v == a * w + r
    ensures v % w == r && v / w == a
  {
    if v / w < a {
      assert (v / w + 1) * w <= a * w by { MulLe(v / w + 1, a, w); }
    } else if v / w > a {
      assert (a + 1) * w <= (v / w) * w by { MulLe(a + 1, v / w, w); }
    }
  }
}
