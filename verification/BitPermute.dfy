/** The two cycles of bit extract and bit deposit in rtl/ibex_alu.sv. Between them only the two
    intermediate-value registers survive, so the prefix counts are cut down to the bits the
    network needs: the counter of level `b` keeps its bits 0 to `b`. */
module BitPermute {
  import opened Bits
  import opened PrefixCounter
  import opened Butterfly

  predicate BitOf(c: nat, b: nat) {
    (c / Pow2(b)) % 2 == 1
  }

  lemma EvenSplit(a: nat, h: nat, g: nat, r: nat)
    requires a == 2 * h
    ensures a * g + r == h * (2 * g) + r
  {
  }

  lemma OddSplit(a: nat, h: nat, g: nat, r: nat)
    requires a == 2 * h + 1
    ensures a * g + r == h * (2 * g) + (g + r)
  {
  }

  lemma DoubleMod(c: nat, g: nat)
    requires g > 0
    ensures c % (2 * g) == c % g + if (c / g) % 2 == 1 then g else 0
  {
    var a, r := c / g, c % g;
    assert c == a * g + r;
    var h := a / 2;
    if a % 2 == 1 {
      OddSplit(a, h, g, r);
      ModIs(c, 2 * g, h, g + r);
    } else {
      EvenSplit(a, h, g, r);
      ModIs(c, 2 * g, h, r);
    }
  }

  lemma OneMoreBit(c: nat, b: nat)
    ensures c % Pow2(b + 1) == c % Pow2(b) + if BitOf(c, b) then Pow2(b) else 0
  {
    assert Pow2(b + 1) == 2 * Pow2(b);
    DoubleMod(c, Pow2(b));
  }

  function PrefixCounts(m: Word): seq<nat> {
    seq(|m|, i requires 0 <= i < |m| => Ones(m, i + 1))
  }

  /** The `i`-th position of level `b` or above. */
  function Position(b: nat, i: nat): nat {
    (i + 1) * Pow2(b) - 1
  }

  lemma Twice(x: nat, y: nat)
    ensures x * (2 * y) == (2 * x) * y
  {
  }

  lemma {:induction false} PowerSplit(b: nat, k: nat)
    requires b <= k
    ensures Pow2(k - b) * Pow2(b) == Pow2(k)
  {
    if b > 0 {
      PowerSplit(b - 1, k);
      Twice(Pow2(k - b), Pow2(b - 1));
    }
  }

  lemma PositionFits(b: nat, i: nat, k: nat)
    requires b <= k
    ensures Position(b, i) + 1 == i * Pow2(b) + Pow2(b)
    ensures i < Pow2(k - b) <==> Position(b, i) < Pow2(k)
  {
    PowerSplit(b, k);
    if i < Pow2(k - b) {
      MulLe(i + 1, Pow2(k - b), Pow2(b));
    } else {
      MulLe(Pow2(k - b) + 1, i + 1, Pow2(b));
    }
  }

  /** Bit `b` of the counters of level `b` and above, in order. */
  function Column(counts: seq<nat>, b: nat, k: nat): (w: Word)
    requires b <= k && |counts| == Pow2(k)
    ensures |w| == Pow2(k - b)
  {
    seq(Pow2(k - b), i requires 0 <= i < Pow2(k - b) =>
      (PositionFits(b, i, k); BitOf(counts[Position(b, i)], b)))
  }

  /** The columns from level 1 to `b`, one after the other. */
  function Columns(counts: seq<nat>, b: nat, k: nat): (w: Word)
    requires b <= k && |counts| == Pow2(k)
    ensures |w| + Pow2(k - b) == Pow2(k)
  {
    if b == 0 then [] else Columns(counts, b - 1, k) + Column(counts, b, k)
  }

  /** What the first cycle leaves in the intermediate-value registers. */
  ghost predicate Stored(lsb: Word, msb: Word, m: Word, k: nat) {
    |m| == Pow2(k) && lsb == Column(PrefixCounts(m), 0, k) && msb == Columns(PrefixCounts(m), k, k) + [false]
  }

  /** First cycle: count, and store the bits needed. */
  method Store(operator: Operator, a: Word, b: Word, k: nat) returns (lsb: Word, msb: Word)
    requires k >= 1 && |a| == |b| == Pow2(k) && (operator.Compress? || operator.Decompress?)
    ensures Stored(lsb, msb, b, k)
  {
    var counts := BitCount(operator, a, b, k);
    assert counts == PrefixCounts(b);
    lsb := Column(counts, 0, k);
    msb := [];
    var level := 1;
    while level <= k
      invariant 1 <= level <= k + 1 && msb == Columns(counts, level - 1, k)
    {
      msb := msb + Column(counts, level, k);
      level := level + 1;
    }
    msb := msb + [false];
  }

  /** The counter holds its low bits up to level `b`, below `lim`, or below level `b`. */
  ghost predicate Loaded(q: seq<nat>, counts: seq<nat>, b: nat, lim: nat, x: nat) {
    x < |q| == |counts| && q[x] == counts[x] % Pow2(Min(Level(x + 1) + 1, if x + 1 < lim then b + 1 else b))
  }

  ghost predicate LoadedTo(q: seq<nat>, counts: seq<nat>, b: nat, lim: nat) {
    |q| == |counts| && forall x | 0 <= x < |q| :: Loaded(q, counts, b, lim, x)
  }

  lemma LoadBit(q: seq<nat>, counts: seq<nat>, b: nat, i: nat, v: nat)
    requires Loaded(q, counts, b, Position(b, i) + 1, Position(b, i))
    requires v == q[Position(b, i)] + if BitOf(counts[Position(b, i)], b) then Pow2(b) else 0
    ensures Loaded(q[Position(b, i) := v], counts, b, Position(b, i + 1) + 1, Position(b, i))
  {
    LevelOfMultiple(i + 1, b);
    OneMoreBit(counts[Position(b, i)], b);
    Distribute(i + 1, 1, Pow2(b));
  }

  lemma LoadOther(q: seq<nat>, counts: seq<nat>, b: nat, i: nat, v: nat, x: nat)
    requires Position(b, i) < |q| && x != Position(b, i) && Loaded(q, counts, b, Position(b, i) + 1, x)
    ensures Loaded(q[Position(b, i) := v], counts, b, Position(b, i + 1) + 1, x)
  {
    Distribute(i + 1, 1, Pow2(b));
    if Position(b, i) < x < Position(b, i + 1) {
      LowLevel(i + 1, x + 1, b);
    }
  }

  lemma LoadFirst(q: seq<nat>, counts: seq<nat>, b: nat)
    requires LoadedTo(q, counts, b, 0)
    ensures LoadedTo(q, counts, b, Position(b, 0) + 1)
  {
    var lim := Position(b, 0) + 1;
    forall x | 0 <= x < |q| ensures Loaded(q, counts, b, lim, x) {
      assert Loaded(q, counts, b, 0, x);
      if x + 1 < lim {
        assert 0 * Pow2(b) < x + 1 < (0 + 1) * Pow2(b);
        LowLevel(0, x + 1, b);
      }
    }
  }

  /** Second cycle: load one column. */
  method Load(q0: seq<nat>, column: Word, b: nat, k: nat, ghost counts: seq<nat>) returns (q: seq<nat>)
    requires b <= k && |q0| == |counts| == Pow2(k) && column == Column(counts, b, k)
    requires LoadedTo(q0, counts, b, 0)
    ensures |q| == |q0| && LoadedTo(q, counts, b + 1, 0)
  {
    q := q0;
    LoadFirst(q, counts, b);
    var i := 0;
    while i < |column|
      invariant i <= |column| && |q| == |q0|
      invariant LoadedTo(q, counts, b, Position(b, i) + 1)
    {
      PositionFits(b, i, k);
      var v := q[Position(b, i)] + if column[i] then Pow2(b) else 0;
      LoadBit(q, counts, b, i, v);
      ghost var lim, q1 := Position(b, i + 1) + 1, q[Position(b, i) := v];
      forall x | 0 <= x < |q| ensures Loaded(q1, counts, b, lim, x) {
        if x != Position(b, i) {
          LoadOther(q, counts, b, i, v, x);
        }
      }
      q := q[Position(b, i) := v];
      i := i + 1;
    }
    PositionFits(b, i, k);
    ghost var b' := b + 1;
    forall x | 0 <= x < |q| ensures Loaded(q, counts, b', 0, x) {
      assert Loaded(q, counts, b, Position(b, i) + 1, x);
    }
  }

  lemma AllLoaded(q: seq<nat>, m: Word, counts: seq<nat>, k: nat, x: nat)
    requires x < |q| == |m| == Pow2(k) && counts == PrefixCounts(m) && Loaded(q, counts, k + 1, 0, x)
    ensures CountedAt(q, m, x)
  {
    LevelFits(x + 1);
    if Level(x + 1) > k {
      Pow2Monotone(k + 1, Level(x + 1));
    }
  }

  lemma {:induction false} ColumnsPrefix(counts: seq<nat>, b: nat, c: nat, k: nat)
    requires 1 <= b <= c <= k && |counts| == Pow2(k)
    ensures Columns(counts, b - 1, k) + Column(counts, b, k) <= Columns(counts, c, k)
  {
    if b < c {
      ColumnsPrefix(counts, b, c - 1, k);
    }
  }

  /** Second cycle: the counters the network is controlled by. The bits stored suffice. */
  method LoadCounters(lsb: Word, msb: Word, k: nat, ghost m: Word) returns (q: seq<nat>)
    requires Stored(lsb, msb, m, k)
    ensures Counted(q, m)
  {
    ghost var counts := PrefixCounts(m);
    q := seq(Pow2(k), _ => 0);
    q := Load(q, lsb, 0, k, counts);
    var level, offset := 1, 0;
    while level <= k
      invariant 1 <= level <= k + 1 && |q| == Pow2(k) && offset == |Columns(counts, level - 1, k)|
      invariant LoadedTo(q, counts, level, 0)
    {
      ColumnsPrefix(counts, level, k, k);
      var column := msb[offset..offset + Pow2(k - level)];
      assert column == Column(counts, level, k);
      q := Load(q, column, level, k, counts);
      offset := offset + Pow2(k - level);
      level := level + 1;
    }
    forall x | 0 <= x < |q| ensures CountedAt(q, m, x) {
      assert Loaded(q, counts, level, 0, x);
      AllLoaded(q, m, counts, k, x);
    }
  }

  /** The butterfly network and the final mask. */
  method Bdecompress(a: Word, m: Word, q: seq<nat>, k: nat) returns (r: Word)
    requires |a| == |m| == Pow2(k) && Counted(q, m)
    ensures r == Deposit(a, m)
  {
    r := a;
    var e := k;
    while e > 0
      invariant 0 <= e <= k && |r| == |a| && Network(r, q, e) == Network(a, q, k)
    {
      r := Stage(r, q, Pow2(e - 1));
      e := e - 1;
    }
    NetworkDeposits(a, m, q, k);
    r := And(r, m);
  }

  /** The inverse network on the masked operand. */
  method Bcompress(a: Word, m: Word, q: seq<nat>, k: nat) returns (r: Word)
    requires |a| == |m| == Pow2(k) && Counted(q, m)
    ensures r == Extract(a, m)
  {
    r := And(a, m);
    var e := 0;
    while e < k
      invariant 0 <= e <= k && |r| == |a| && r == InverseNetwork(And(a, m), q, e)
    {
      e := e + 1;
      r := Stage(r, q, Pow2(e - 1));
    }
    InverseExtracts(a, m, q, k);
  }

  /** Second cycle: reload the counters from the registers and run the network asked for. */
  method Permute(operator: Operator, a: Word, b: Word, lsb: Word, msb: Word, k: nat) returns (r: Word)
    requires |a| == |b| == Pow2(k) && Stored(lsb, msb, b, k)
    ensures r == if operator.Decompress? then Deposit(a, b) else Extract(a, b)
  {
    var q := LoadCounters(lsb, msb, k, b);
    if operator.Decompress? {
      r := Bdecompress(a, b, q, k);
    } else {
      r := Bcompress(a, b, q, k);
    }
  }
}
