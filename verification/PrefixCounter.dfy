/** The parallel prefix bit counter of rtl/ibex_alu.sv, for every power-of-two width, and the
    counts of leading and trailing zeros obtained from it. */
module PrefixCounter {
  import opened Bits

  /** The counters are wide enough for values below twice the width: 6 bits for a width of 32. */
  function Truncate(x: nat, width: nat): nat
    requires width > 0
  {
    x % (2 * width)
  }

  lemma SmallMod(x: nat, m: nat)
    requires x < m
    ensures x % m == x
  {
  }

  // ------------------------------------------------------------------ levels

  /** The number of trailing zeros of a position: stage `k` of the tree writes the positions whose
      successor has a level of at least `k`. */
  function Level(y: nat): nat
    requires y > 0
  {
    if y % 2 == 1 then 0 else 1 + Level(y / 2)
  }

  lemma LevelOfDouble(y: nat)
    requires y > 0
    ensures Level(2 * y) == 1 + Level(y)
  {
  }

  lemma TwiceOut(r: nat, g: nat)
    ensures r * (2 * g) == 2 * (r * g)
  {
  }

  lemma {:induction false} LevelOfMultiple(r: nat, k: nat)
    requires r > 0
    ensures r * Pow2(k) > 0 && Level(r * Pow2(k)) == k + Level(r)
  {
    if k > 0 {
      LevelOfMultiple(r, k - 1);
      TwiceOut(r, Pow2(k - 1));
      LevelOfDouble(r * Pow2(k - 1));
    }
  }

  lemma {:induction false} MultipleOfLevel(y: nat, k: nat) returns (r: nat)
    requires y > 0 && Level(y) >= k
    ensures r > 0 && y == r * Pow2(k)
  {
    if k == 0 {
      r := y;
    } else {
      r := MultipleOfLevel(y / 2, k - 1);
      assert y == r * (2 * Pow2(k - 1));
    }
  }

  lemma MulMonotone(a: nat, b: nat, g: nat)
    requires a <= b
    ensures a * g <= b * g
  {
  }

  lemma Strictly(a: nat, b: nat, g: nat)
    requires a * g < b * g
    ensures a < b
  {
    if a >= b {
      MulMonotone(b, a, g);
    }
  }

  /** Between two neighbouring multiples of a power of two every level is lower. */
  lemma LowLevel(a: nat, y: nat, k: nat)
    requires a * Pow2(k) < y < (a + 1) * Pow2(k)
    ensures Level(y) < k
  {
    if Level(y) >= k {
      var r := MultipleOfLevel(y, k);
      Strictly(a, r, Pow2(k));
      Strictly(r, a + 1, Pow2(k));
    }
  }

  lemma Distribute(a: nat, b: nat, g: nat)
    ensures (a + b) * g == a * g + b * g
  {
  }

  lemma LevelFits(y: nat)
    requires y > 0
    ensures Pow2(Level(y)) <= y
  {
    var r := MultipleOfLevel(y, Level(y));
    assert r * Pow2(Level(y)) >= 1 * Pow2(Level(y));
  }

  lemma Pow2Monotone(a: nat, b: nat)
    requires a <= b
    ensures Pow2(a) <= Pow2(b)
  {
    if a < b {
      Pow2Monotone(a, b - 1);
    }
  }

  // ------------------------------------------------------------------ contents of the tree

  function Min(a: nat, b: nat): nat {
    if a < b then a else b
  }

  /** The number of set bits among the 2^k bits before position `y`. */
  ghost function Block(bits: Word, y: nat, k: nat): nat
    requires y <= |bits|
  {
    OnesMonotone(bits, y - Min(Pow2(k), y), y);
    Ones(bits, y) - Ones(bits, y - Min(Pow2(k), y))
  }

  /** The position holds the count of its block of 2^k bits. */
  ghost predicate Counts(p: seq<nat>, bits: Word, x: nat, k: nat)
    requires |p| == |bits|
  {
    x < |p| && p[x] == Block(bits, x + 1, k)
  }

  /** The position holds the count of all bits up to it. */
  ghost predicate Total(p: seq<nat>, bits: Word, x: nat)
    requires |p| == |bits|
  {
    x < |p| && p[x] == Ones(bits, x + 1)
  }

  /** The primary tree, stage `k + 1` done below `lim`: blocks of 2^k or 2^(k+1) bits. */
  ghost predicate RisingAt(p: seq<nat>, bits: Word, k: nat, lim: nat, x: nat) {
    |p| == |bits| &&
    (Level(x + 1) >= 1 ==> Counts(p, bits, x, Min(Level(x + 1), if x + 1 < lim then k + 1 else k)))
  }

  ghost predicate Rising(p: seq<nat>, bits: Word, k: nat, lim: nat) {
    |p| == |bits| && forall x | 0 <= x < |p| :: RisingAt(p, bits, k, lim, x)
  }

  /** The intermediate tree: totals from level `k + 1` on, and at level `k` below `lim`. */
  ghost predicate FallingAt(p: seq<nat>, bits: Word, k: nat, lim: nat, x: nat) {
    |p| == |bits| &&
    (Level(x + 1) >= 1 ==>
      if Level(x + 1) > k || (Level(x + 1) == k && x + 1 < lim) then Total(p, bits, x)
      else Counts(p, bits, x, Level(x + 1)))
  }

  ghost predicate Falling(p: seq<nat>, bits: Word, k: nat, lim: nat) {
    |p| == |bits| && forall x | 0 <= x < |p| :: FallingAt(p, bits, k, lim, x)
  }

  /** Two neighbouring blocks of 2^k bits make one of twice the size. */
  lemma JoinBlocks(p: seq<nat>, bits: Word, x: nat, k: nat)
    requires |p| == |bits| > 0 && 2 * Pow2(k) <= x + 1 <= |p|
    requires Counts(p, bits, x, k) && Counts(p, bits, x - Pow2(k), k)
    ensures Truncate(p[x - Pow2(k)] + p[x], |p|) == Block(bits, x + 1, k + 1)
  {
    assert Pow2(k + 1) == 2 * Pow2(k);
    OnesMonotone(bits, x + 1 - 2 * Pow2(k), x + 1);
    SmallMod(Block(bits, x + 1, k + 1), 2 * |p|);
  }

  /** A total and the block that follows it make a total. */
  lemma JoinTotal(p: seq<nat>, bits: Word, x: nat, k: nat)
    requires |p| == |bits| > 0 && Pow2(k) <= x < |p|
    requires Counts(p, bits, x, k) && Total(p, bits, x - Pow2(k))
    ensures Truncate(p[x - Pow2(k)] + p[x], |p|) == Ones(bits, x + 1)
  {
    OnesMonotone(bits, x + 1 - Pow2(k), x + 1);
    SmallMod(Ones(bits, x + 1), 2 * |p|);
  }

  lemma RisingOne(p: seq<nat>, bits: Word, k: nat, i: nat)
    requires k >= 1 && 2 * Pow2(k) <= i + 1 <= |p| && Rising(p, bits, k, i + 1)
    requires Level(i + 1) > k && Level(i + 1 - Pow2(k)) == k
    ensures Counts(p[i := Truncate(p[i - Pow2(k)] + p[i], |p|)], bits, i, k + 1)
  {
    var j := i - Pow2(k);
    assert RisingAt(p, bits, k, i + 1, j) && RisingAt(p, bits, k, i + 1, i);
    JoinBlocks(p, bits, i, k);
  }

  lemma RisingOther(p: seq<nat>, bits: Word, k: nat, r: nat, i: nat, lim: nat, v: nat, x: nat)
    requires r * Pow2(k + 1) == i + 1 <= |p| && lim == (r + 1) * Pow2(k + 1)
    requires RisingAt(p, bits, k, i + 1, x) && x != i
    ensures RisingAt(p[i := v], bits, k, lim, x)
  {
    if i + 1 < x + 1 < lim {
      LowLevel(r, x + 1, k + 1);
    }
    assert i + 1 <= lim by {
      assert lim == r * Pow2(k + 1) + Pow2(k + 1);
    }
  }

  lemma Halve(r: nat, k: nat)
    ensures r * Pow2(k + 1) == (2 * r) * Pow2(k)
  {
    var g := Pow2(k);
    assert r * (2 * g) == (2 * r) * g;
  }

  lemma BelowTwice(g: nat, r: nat)
    requires r >= 1
    ensures r * (2 * g) == (2 * r - 1) * g + g && 2 * g <= r * (2 * g)
  {
    assert (2 * r - 1) * g == 2 * r * g - g;
    MulMonotone(1, r, 2 * g);
  }

  lemma RisingPlace(k: nat, r: nat, i: nat)
    requires r >= 1 && i + 1 == r * Pow2(k + 1)
    ensures 2 * Pow2(k) <= i + 1 && Level(i + 1) > k && Level(i + 1 - Pow2(k)) == k
  {
    var odd := 2 * r - 1;
    BelowTwice(Pow2(k), r);
    LevelOfMultiple(r, k + 1);
    LevelOfMultiple(odd, k);
    assert Level(odd) == 0;
  }

  lemma RisingStep(p: seq<nat>, bits: Word, k: nat, r: nat, i: nat)
    requires k >= 1 && r >= 1 && i + 1 == r * Pow2(k + 1) <= |p| && Rising(p, bits, k, i + 1)
    ensures Pow2(k) <= i < |p|
    ensures Rising(p[i := Truncate(p[i - Pow2(k)] + p[i], |p|)], bits, k, (r + 1) * Pow2(k + 1))
  {
    RisingPlace(k, r, i);
    RisingOne(p, bits, k, i);
    var v := Truncate(p[i - Pow2(k)] + p[i], |p|);
    var lim := (r + 1) * Pow2(k + 1);
    assert lim == r * Pow2(k + 1) + Pow2(k + 1);
    var p' := p[i := v];
    forall x | 0 <= x < |p| ensures RisingAt(p', bits, k, lim, x) {
      if x != i {
        RisingOther(p, bits, k, r, i, lim, v, x);
      }
    }
  }

  lemma RisingDone(p: seq<nat>, bits: Word, k: nat, lim: nat, d: nat)
    requires |p| < lim && Rising(p, bits, k, lim) && d <= Pow2(k + 2)
    ensures Rising(p, bits, k + 1, d)
  {
    var k' := k + 1;
    forall x | 0 <= x < |p| ensures RisingAt(p, bits, k', d, x) {
      assert RisingAt(p, bits, k, lim, x);
      if x + 1 < d {
        assert 0 * Pow2(k + 2) < x + 1 < (0 + 1) * Pow2(k + 2);
        LowLevel(0, x + 1, k + 2);
      }
    }
  }

  /** One stage of the primary adder tree. */
  method Rise(p0: seq<nat>, h: nat, ghost bits: Word, ghost k: nat) returns (p: seq<nat>)
    requires k >= 1 && h == Pow2(k) && Rising(p0, bits, k, 2 * h)
    ensures Rising(p, bits, k + 1, 0) && Rising(p, bits, k + 1, 4 * h)
  {
    p := p0;
    var i: nat := 2 * h - 1;
    ghost var r := 1;
    assert Pow2(k + 1) == 2 * h && Pow2(k + 2) == 2 * Pow2(k + 1);
    while i < |p|
      invariant |p| == |p0| && r >= 1 && i + 1 == r * Pow2(k + 1) && Rising(p, bits, k, i + 1)
      decreases |p| - i
    {
      RisingStep(p, bits, k, r, i);
      p := p[i := Truncate(p[i - h] + p[i], |p|)];
      assert (r + 1) * Pow2(k + 1) == r * Pow2(k + 1) + 2 * h;
      i := i + 2 * h;
      r := r + 1;
    }
    RisingDone(p, bits, k, i + 1, 0);
    RisingDone(p, bits, k, i + 1, 4 * h);
  }

  lemma FallingOne(p: seq<nat>, bits: Word, k: nat, i: nat)
    requires k >= 1 && Pow2(k) <= i < |p| && Falling(p, bits, k, i + 1)
    requires Level(i + 1) == k && Level(i + 1 - Pow2(k)) > k
    ensures Total(p[i := Truncate(p[i - Pow2(k)] + p[i], |p|)], bits, i)
  {
    var j := i - Pow2(k);
    assert FallingAt(p, bits, k, i + 1, j) && FallingAt(p, bits, k, i + 1, i);
    JoinTotal(p, bits, i, k);
  }

  lemma NotAtLevel(r: nat, y: nat, k: nat)
    requires (2 * r + 1) * Pow2(k) < y < (2 * r + 3) * Pow2(k)
    ensures Level(y) != k
  {
    var g := Pow2(k);
    assert (2 * r + 2) * g == (2 * r + 1) * g + g && (2 * r + 3) * g == (2 * r + 2) * g + g;
    if y < (2 * r + 2) * g {
      LowLevel(2 * r + 1, y, k);
    } else if y > (2 * r + 2) * g {
      LowLevel(2 * r + 2, y, k);
    } else {
      LevelOfMultiple(2 * r + 2, k);
    }
  }

  lemma FallingOther(p: seq<nat>, bits: Word, k: nat, r: nat, i: nat, lim: nat, v: nat, x: nat)
    requires (2 * r + 1) * Pow2(k) == i + 1 <= |p| && lim == (2 * r + 3) * Pow2(k)
    requires FallingAt(p, bits, k, i + 1, x) && x != i
    ensures FallingAt(p[i := v], bits, k, lim, x)
  {
    if i + 1 < x + 1 < lim {
      NotAtLevel(r, x + 1, k);
    }
    assert i + 1 <= lim by {
      assert lim == (2 * r + 1) * Pow2(k) + 2 * Pow2(k);
    }
  }

  lemma FallingPlace(k: nat, r: nat, i: nat)
    requires r >= 1 && i + 1 == (2 * r + 1) * Pow2(k)
    ensures Pow2(k) <= i && Level(i + 1) == k && Level(i + 1 - Pow2(k)) > k
  {
    LevelOfMultiple(2 * r + 1, k);
    LevelOfMultiple(r, k + 1);
    Halve(r, k);
    Distribute(2 * r, 1, Pow2(k));
    MulMonotone(1, 2 * r, Pow2(k));
  }

  lemma FallingStep(p: seq<nat>, bits: Word, k: nat, r: nat, i: nat)
    requires k >= 1 && r >= 1 && i + 1 == (2 * r + 1) * Pow2(k) <= |p| && Falling(p, bits, k, i + 1)
    ensures Pow2(k) <= i < |p|
    ensures Falling(p[i := Truncate(p[i - Pow2(k)] + p[i], |p|)], bits, k, (2 * r + 3) * Pow2(k))
  {
    FallingPlace(k, r, i);
    FallingOne(p, bits, k, i);
    var v := Truncate(p[i - Pow2(k)] + p[i], |p|);
    var lim := (2 * r + 3) * Pow2(k);
    var p' := p[i := v];
    forall x | 0 <= x < |p| ensures FallingAt(p', bits, k, lim, x) {
      if x != i {
        FallingOther(p, bits, k, r, i, lim, v, x);
      }
    }
  }

  lemma FirstBlock(y: nat, k: nat)
    requires y > 0 && Level(y) == k && y < 3 * Pow2(k)
    ensures y == Pow2(k)
  {
    var r := MultipleOfLevel(y, k);
    Strictly(r, 3, Pow2(k));
    LevelOfMultiple(r, k);
    assert Level(2) == 1 + Level(1);
    assert r == 1;
  }

  lemma FirstIsTotal(p: seq<nat>, bits: Word, k: nat, x: nat)
    requires x < |p| == |bits| && Counts(p, bits, x, Level(x + 1)) && Level(x + 1) == k && x + 1 < 3 * Pow2(k)
    ensures Total(p, bits, x)
  {
    FirstBlock(x + 1, k);
  }

  /** Once a stage is done, the first block of the next one is a total already. */
  lemma FallingNext(p: seq<nat>, bits: Word, k: nat, lim: nat)
    requires k >= 1 && |p| < lim && Falling(p, bits, k, lim)
    ensures Falling(p, bits, k - 1, 3 * Pow2(k - 1))
  {
    var k', d := k - 1, 3 * Pow2(k - 1);
    forall x | 0 <= x < |p| ensures FallingAt(p, bits, k', d, x) {
      assert FallingAt(p, bits, k, lim, x);
      if Level(x + 1) == k - 1 && k > 1 && x + 1 < 3 * Pow2(k - 1) {
        FirstIsTotal(p, bits, k - 1, x);
      }
    }
  }

  /** One stage of the intermediate adder tree. */
  method Fall(p0: seq<nat>, h: nat, ghost bits: Word, ghost k: nat) returns (p: seq<nat>)
    requires k >= 1 && h == Pow2(k) && Falling(p0, bits, k, 3 * h)
    ensures Falling(p, bits, k - 1, 3 * Pow2(k - 1))
  {
    p := p0;
    var i: nat := 3 * h - 1;
    ghost var r := 1;
    while i < |p|
      invariant |p| == |p0| && r >= 1 && i + 1 == (2 * r + 1) * Pow2(k) && Falling(p, bits, k, i + 1)
      decreases |p| - i
    {
      FallingStep(p, bits, k, r, i);
      p := p[i := Truncate(p[i - h] + p[i], |p|)];
      assert (2 * r + 3) * Pow2(k) == (2 * r + 1) * Pow2(k) + 2 * h;
      i := i + 2 * h;
      r := r + 1;
    }
    FallingNext(p, bits, k, i + 1);
  }

  // ------------------------------------------------------------------ first and last stage

  function Bit(b: bool): nat {
    if b then 1 else 0
  }

  lemma PairBlock(bits: Word, i: nat)
    requires 1 <= i < |bits|
    ensures Block(bits, i + 1, 1) == Bit(bits[i]) + Bit(bits[i - 1])
  {
    assert Pow2(1) == 2 * Pow2(0) == 2;
    assert Ones(bits, i + 1) == Ones(bits, i) + Bit(bits[i]);
    assert Ones(bits, i) == Ones(bits, i - 1) + Bit(bits[i - 1]);
  }

  lemma FirstStageDone(p: seq<nat>, bits: Word, d: nat)
    requires |p| == |bits| && d <= 4
    requires forall x | 0 <= x < |p| && x % 2 == 1 :: p[x] == Block(bits, x + 1, 1)
    ensures Rising(p, bits, 1, d)
  {
    forall x | 0 <= x < |p| ensures RisingAt(p, bits, 1, d, x) {
      assert Level(1) == 0 && Level(2) == 1 && Level(3) == 0;
    }
  }

  /** Stage 1: the bits are added in pairs. */
  method FirstStage(bits: Word) returns (p: seq<nat>)
    ensures Rising(p, bits, 1, 0) && Rising(p, bits, 1, 4)
  {
    p := seq(|bits|, _ => 0);
    var i := 1;
    while i < |bits|
      invariant |p| == |bits| && i % 2 == 1
      invariant forall x | 0 <= x < |p| && x < i && x % 2 == 1 :: p[x] == Block(bits, x + 1, 1)
    {
      PairBlock(bits, i);
      p := p[i := Bit(bits[i]) + Bit(bits[i - 1])];
      i := i + 2;
    }
    FirstStageDone(p, bits, 0);
    FirstStageDone(p, bits, 4);
  }

  /** Stage 8: the even positions. */
  method LastStage(p0: seq<nat>, bits: Word) returns (p: seq<nat>)
    requires Falling(p0, bits, 0, 3) && |bits| > 0
    ensures |p| == |bits| && forall x | 0 <= x < |p| :: p[x] == Ones(bits, x + 1)
  {
    p := p0[0 := Bit(bits[0])];
    forall x | 0 <= x < |p| && (x < 2 || x % 2 == 1) ensures p[x] == Ones(bits, x + 1) {
      assert FallingAt(p0, bits, 0, 3, x);
      assert Ones(bits, 1) == Ones(bits, 0) + Bit(bits[0]);
    }
    var i := 2;
    while i < |p|
      invariant |p| == |bits| && i % 2 == 0 && i > 0
      invariant forall x | 0 <= x < |p| && (x < i || x % 2 == 1) :: p[x] == Ones(bits, x + 1)
    {
      assert p[i - 1] == Ones(bits, i);
      SmallMod(p[i - 1] + Bit(bits[i]), 2 * |p|);
      p := p[i := Truncate(p[i - 1] + Bit(bits[i]), |p|)];
      i := i + 2;
    }
  }

  /** At the top of the tree the block is everything. */
  lemma Turn(p: seq<nat>, bits: Word, k: nat)
    requires k >= 1 && |bits| == Pow2(k) && Rising(p, bits, k, 0)
    ensures Falling(p, bits, k - 1, 3 * Pow2(k - 1))
  {
    var k', d := k - 1, 3 * Pow2(k - 1);
    forall x | 0 <= x < |p| ensures FallingAt(p, bits, k', d, x) {
      assert RisingAt(p, bits, k, 0, x);
      if Level(x + 1) >= k {
        LevelFits(x + 1);
        Pow2Monotone(k, Level(x + 1));
      } else if Level(x + 1) == k - 1 && k > 1 && x + 1 < 3 * Pow2(k - 1) {
        FirstIsTotal(p, bits, k - 1, x);
      }
    }
  }

  /** The whole counter: position `x` ends up with the number of set bits up to and including it. */
  method PrefixCount(bits: Word, levels: nat) returns (p: seq<nat>)
    requires levels >= 1 && |bits| == Pow2(levels)
    ensures |p| == |bits| && forall x | 0 <= x < |p| :: p[x] == Ones(bits, x + 1)
  {
    p := FirstStage(bits);
    var h := 2;
    var k := 1;
    while k < levels
      invariant 1 <= k <= levels && h == Pow2(k)
      invariant Rising(p, bits, k, 0) && Rising(p, bits, k, 2 * h)
    {
      p := Rise(p, h, bits, k);
      h := 2 * h;
      k := k + 1;
    }
    Turn(p, bits, k);
    k := k - 1;
    h := h / 2;
    while k > 0
      invariant 0 <= k < levels && h == Pow2(k) && Falling(p, bits, k, 3 * h)
    {
      p := Fall(p, h, bits, k);
      k := k - 1;
      h := h / 2;
    }
    p := LastStage(p, bits);
  }

  // ------------------------------------------------------------------ leading and trailing zeros

  /** The position of the lowest set bit, or the width if there is none. */
  function TrailingZeros(a: Word): (r: nat)
    ensures r <= |a| && (r < |a| ==> a[r])
    ensures forall i | 0 <= i < r :: !a[i]
  {
    if a == [] || a[0] then 0 else 1 + TrailingZeros(a[1..])
  }

  /** How far the highest set bit is from the top, or the width if there is none. */
  function LeadingZeros(a: Word): (r: nat)
    ensures r <= |a| && (r < |a| ==> a[|a| - 1 - r])
    ensures forall i | |a| - r <= i < |a| :: !a[i]
  {
    if a == [] || a[|a| - 1] then 0 else 1 + LeadingZeros(a[..|a| - 1])
  }

  lemma LeadingIsTrailing(a: Word)
    ensures TrailingZeros(Reverse(a)) == LeadingZeros(a)
  {
    var t, l := TrailingZeros(Reverse(a)), LeadingZeros(a);
    forall i | 0 <= i < |a| ensures Reverse(a)[|a| - 1 - i] == a[i] {
    }
    assert l < |a| ==> Reverse(a)[l] == a[|a| - 1 - l];
  }

  /** Bit `i` of the mask says whether the operand has a set bit among the `s` bits ending at `i`. */
  ghost predicate Smeared(mask: Word, op: Word, s: nat) {
    |mask| == |op| &&
    forall i | 0 <= i < |mask| :: mask[i] <==> Ones(op, i + 1 - Min(s, i + 1)) < Ones(op, i + 1)
  }

  lemma SmearStep(mask: Word, op: Word, s: nat)
    requires s > 0 && Smeared(mask, op, s)
    ensures Smeared(Or(mask, ShiftLeft(mask, s)), op, 2 * s)
  {
    var mask' := Or(mask, ShiftLeft(mask, s));
    forall i | 0 <= i < |mask|
      ensures mask'[i] <==> Ones(op, i + 1 - Min(2 * s, i + 1)) < Ones(op, i + 1)
    {
      OnesMonotone(op, i + 1 - Min(2 * s, i + 1), i + 1 - Min(s, i + 1));
      OnesMonotone(op, i + 1 - Min(s, i + 1), i + 1);
      if i >= s {
        assert mask[i - s] <==> Ones(op, i - s + 1 - Min(s, i - s + 1)) < Ones(op, i - s + 1);
      }
    }
  }

  /** Spread the lowest set bit to all higher positions by doubling shifts. */
  method Smear(op: Word, levels: nat) returns (mask: Word)
    requires |op| == Pow2(levels)
    ensures |mask| == |op| && forall i | 0 <= i < |op| :: mask[i] <==> Ones(op, i + 1) > 0
  {
    mask := op;
    var s := 1;
    ghost var k := 0;
    while s < |op|
      invariant k <= levels && s == Pow2(k) && Smeared(mask, op, s)
      decreases levels - k
    {
      SmearStep(mask, op, s);
      mask := Or(mask, ShiftLeft(mask, s));
      s := 2 * s;
      k := k + 1;
      if k > levels {
        Pow2Monotone(levels, k - 1);
      }
    }
  }

  lemma {:induction false} ZerosCounted(bits: Word, op: Word, n: nat)
    requires n <= |bits| == |op|
    requires forall i | 0 <= i < |op| :: bits[i] <==> Ones(op, i + 1) == 0
    ensures Ones(bits, n) == Min(n, TrailingZeros(op))
    ensures Ones(op, n) == 0 <==> n <= TrailingZeros(op)
  {
    if n > 0 {
      ZerosCounted(bits, op, n - 1);
    }
  }

  datatype Operator = Cpop | Clz | Ctz | Compress | Decompress

  /** The bit counter with its operand selection: one count per position, the last of them the
      result of `cpop`, `clz` and `ctz`, all of them the control of the bit permutations. */
  method BitCount(operator: Operator, a: Word, b: Word, levels: nat) returns (counts: seq<nat>)
    requires levels >= 1 && |a| == |b| == Pow2(levels)
    ensures |counts| == |a|
    ensures operator.Cpop? ==> counts[|a| - 1] == Ones(a, |a|)
    ensures operator.Clz? ==> counts[|a| - 1] == LeadingZeros(a)
    ensures operator.Ctz? ==> counts[|a| - 1] == TrailingZeros(a)
    ensures operator.Compress? || operator.Decompress? ==>
              forall x | 0 <= x < |b| :: counts[x] == Ones(b, x + 1)
  {
    var op := if operator.Clz? then Reverse(a) else a;
    var mask := Smear(op, levels);
    mask := Not(mask);
    var bits := match operator {
      case Compress | Decompress => b
      case Clz | Ctz => And(mask, Not(op))
      case Cpop => a
    };
    counts := PrefixCount(bits, levels);
    if operator.Clz? || operator.Ctz? {
      ZerosCounted(bits, op, |bits|);
      LeadingIsTrailing(a);
    }
  }
}
