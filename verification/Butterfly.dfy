/** The bit permutations of rtl/ibex_alu.sv: in the first cycle the prefix counts of the mask are
    stored in the two intermediate-value registers, in the second a butterfly network controlled
    by them deposits bits, and its inverse extracts them. Any power-of-two width. */
module Butterfly {
  import opened Bits
  import opened PrefixCounter

  // ------------------------------------------------------------------ the operations meant

  /** Bit deposit: set bits of the mask take the low bits of the operand in order. */
  function Deposit(x: Word, m: Word): Word
    requires |x| == |m|
  {
    seq(|x|, i requires 0 <= i < |x| => m[i] && x[Ones(m, i)])
  }

  /** The operand's bits selected by the lowest `n` bits of the mask, in order. */
  function Gather(x: Word, m: Word, n: nat): (g: Word)
    requires n <= |x| == |m|
    ensures |g| == Ones(m, n)
  {
    if n == 0 then [] else Gather(x, m, n - 1) + if m[n - 1] then [x[n - 1]] else []
  }

  /** Bit extract: the selected bits packed at the low end, zeros above them. */
  function Extract(x: Word, m: Word): (r: Word)
    requires |x| == |m|
    ensures |r| == |x|
  {
    var g := Gather(x, m, |x|);
    OnesMonotone(m, 0, |m|);
    g + Zero(|x| - |g|)
  }

  lemma {:induction false} GatherAt(x: Word, m: Word, n: nat, i: nat)
    requires i < n <= |x| == |m| && m[i]
    ensures Ones(m, i) < Ones(m, n) && Gather(x, m, n)[Ones(m, i)] == x[i]
  {
    if i < n - 1 {
      GatherAt(x, m, n - 1, i);
    }
  }

  /** Extracting and depositing again restores exactly the selected bits. */
  lemma DepositOfExtract(x: Word, m: Word)
    requires |x| == |m|
    ensures Deposit(Extract(x, m), m) == And(x, m)
  {
    forall i | 0 <= i < |x| ensures Deposit(Extract(x, m), m)[i] == And(x, m)[i] {
      if m[i] {
        GatherAt(x, m, |x|, i);
      }
    }
  }

  lemma {:induction false} GatherDeposit(x: Word, m: Word, n: nat)
    requires n <= |x| == |m|
    ensures Gather(Deposit(x, m), m, n) == x[..Ones(m, n)]
  {
    if n > 0 {
      GatherDeposit(x, m, n - 1);
    }
  }

  /** Depositing and extracting again keeps as many low bits as the mask has set bits. */
  lemma ExtractOfDeposit(x: Word, m: Word)
    requires |x| == |m|
    ensures Extract(Deposit(x, m), m) == x[..Ones(m, |m|)] + Zero(|x| - Ones(m, |m|))
  {
    var d, n := Deposit(x, m), Ones(m, |m|);
    GatherDeposit(x, m, |x|);
    assert Extract(d, m) == Gather(d, m, |d|) + Zero(|d| - n);
  }

  // ------------------------------------------------------------------ arithmetic

  /** The remainder, by repeated subtraction: the form the proofs below follow. */
  ghost function Rot(v: nat, w: nat): (r: nat)
    requires w > 0
    ensures r < w
  {
    if v < w then v else Rot(v - w, w)
  }

  lemma {:induction false} RotIsMod(v: nat, w: nat)
    requires w > 0
    ensures Rot(v, w) == v % w
  {
    if v >= w {
      RotIsMod(v - w, w);
      ModIs(v, w, (v - w) / w + 1, (v - w) % w);
    }
  }

  // ------------------------------------------------------------------ one stage of the network

  /** The control word of a segment of two halves of `n` bits: ones rotated left by the count and
      complemented when they wrap. */
  function Lrotc(count: nat, n: nat): Word {
    ShiftLeft(seq(2 * n, i => i < n), count)
  }

  predicate Control(count: nat, n: nat, j: nat)
    requires j < n
  {
    !Lrotc(count, n)[n + j]
  }

  predicate Crosses(count: nat, n: nat, j: nat) {
    j >= count || n + j < count
  }

  /** The exchange happens when the left rotated ones do not cover the position. */
  lemma ControlMeaning(count: nat, n: nat, j: nat)
    requires j < n
    ensures Control(count, n, j) <==> Crosses(count, n, j)
  {
  }

  /** The counter that controls the segment position `i` is in: the one at the end of its right half. */
  function CountAt(q: seq<nat>, n: nat, i: nat): nat
    requires n > 0
  {
    var e := n * (2 * (i / (2 * n)) + 1) - 1;
    if 0 <= e < |q| then q[e] % (2 * n) else 0
  }

  function MaskL(q: seq<nat>, n: nat): Word
    requires n > 0
  {
    seq(|q|, i requires 0 <= i < |q| => i % (2 * n) >= n && Control(CountAt(q, n, i), n, i % (2 * n) - n))
  }

  function MaskR(q: seq<nat>, n: nat): Word
    requires n > 0
  {
    seq(|q|, i requires 0 <= i < |q| => i % (2 * n) < n && Control(CountAt(q, n, i), n, i % (2 * n)))
  }

  function Stage(d: Word, q: seq<nat>, n: nat): (s: Word)
    requires n > 0 && |d| == |q|
    ensures |s| == |d|
  {
    var l, r := MaskL(q, n), MaskR(q, n);
    Or(Or(And(d, Not(Or(l, r))), ShiftRight(And(d, l), n)), ShiftLeft(And(d, r), n))
  }

  /** Segments of `2 * n` bits fill the word. */
  ghost predicate Fills(q: seq<nat>, n: nat, segs: nat) {
    n > 0 && |q| == segs * (2 * n)
  }

  ghost predicate Swapped(q: seq<nat>, n: nat, base: nat, j: nat)
    requires n > 0 && j < n && base + n <= |q|
  {
    Control(q[base + n - 1] % (2 * n), n, j)
  }

  lemma CountOfSegment(q: seq<nat>, n: nat, seg: nat, base: nat, r: nat)
    requires n > 0 && r < 2 * n && base == seg * (2 * n) && base + 2 * n <= |q|
    ensures (base + r) % (2 * n) == r && CountAt(q, n, base + r) == q[base + n - 1] % (2 * n)
  {
    ModIs(base + r, 2 * n, seg, r);
    assert n * (2 * seg + 1) == base + n;
  }

  lemma MaskAt(q: seq<nat>, n: nat, seg: nat, base: nat, j: nat)
    requires n > 0 && j < n && base == seg * (2 * n) && base + 2 * n <= |q|
    ensures MaskR(q, n)[base + j] == Swapped(q, n, base, j) && !MaskL(q, n)[base + j]
  {
    CountOfSegment(q, n, seg, base, j);
  }

  lemma MaskAbove(q: seq<nat>, n: nat, seg: nat, base: nat, j: nat)
    requires n > 0 && j < n && base == seg * (2 * n) && base + 2 * n <= |q|
    ensures MaskL(q, n)[base + n + j] == Swapped(q, n, base, j) && !MaskR(q, n)[base + n + j]
  {
    CountOfSegment(q, n, seg, base, n + j);
  }

  /** What one stage does to one bit, given its masks. */
  ghost predicate StageBit(d: Word, s: Word, l: Word, r: Word, n: nat, i: nat)
    requires i < |d| == |s| == |l| == |r|
  {
    s[i] ==
    ((d[i] && !l[i] && !r[i]) || (i + n < |d| && d[i + n] && l[i + n]) || (i >= n && d[i - n] && r[i - n]))
  }

  lemma StageBits(d: Word, q: seq<nat>, n: nat, i: nat)
    requires n > 0 && i < |d| == |q|
    ensures StageBit(d, Stage(d, q, n), MaskL(q, n), MaskR(q, n), n, i)
  {
  }

  /** The two bits of a pair, exchanged or not. */
  ghost predicate Exchanged(d: Word, s: Word, n: nat, base: nat, j: nat, swap: bool)
    requires j < n && base + 2 * n <= |d| == |s|
  {
    s[base + j] == (if swap then d[base + n + j] else d[base + j]) &&
    s[base + n + j] == (if swap then d[base + j] else d[base + n + j])
  }

  lemma ExchangeBits(d: Word, s: Word, l: Word, r: Word, n: nat, base: nat, j: nat, swap: bool)
    requires j < n && base + 2 * n <= |d| == |s| == |l| == |r|
    requires StageBit(d, s, l, r, n, base + j) && StageBit(d, s, l, r, n, base + n + j)
    requires r[base + j] == swap == l[base + n + j] && !l[base + j] && !r[base + n + j]
    requires base + j >= n ==> !r[base + j - n]
    requires base + 2 * n + j < |d| ==> !l[base + 2 * n + j]
    ensures Exchanged(d, s, n, base, j, swap)
  {
  }

  lemma StagePair(d: Word, q: seq<nat>, n: nat, base: nat, j: nat, l: Word, r: Word, swap: bool)
    requires n > 0 && j < n && base + 2 * n <= |q| == |d| && l == MaskL(q, n) && r == MaskR(q, n)
    requires r[base + j] == swap == l[base + n + j] && !l[base + j] && !r[base + n + j]
    requires base + j >= n ==> !r[base + j - n]
    requires base + 2 * n + j < |d| ==> !l[base + 2 * n + j]
    ensures Exchanged(d, Stage(d, q, n), n, base, j, swap)
  {
    StageBits(d, q, n, base + j);
    StageBits(d, q, n, base + n + j);
    ExchangeBits(d, Stage(d, q, n), l, r, n, base, j, swap);
  }

  lemma NoSpillBelow(q: seq<nat>, n: nat, seg: nat, base: nat, j: nat)
    requires n > 0 && j < n && base == seg * (2 * n) && base + 2 * n <= |q| && base >= n
    ensures !MaskR(q, n)[base + j - n]
  {
    assert base - 2 * n == (seg - 1) * (2 * n);
    ModIs(base + j - n, 2 * n, seg - 1, n + j);
  }

  lemma NoSpillAbove(q: seq<nat>, n: nat, seg: nat, base: nat, j: nat)
    requires n > 0 && j < n && base == seg * (2 * n) && base + 2 * n + j < |q|
    ensures !MaskL(q, n)[base + 2 * n + j]
  {
    ModIs(base + 2 * n + j, 2 * n, seg + 1, j);
  }

  lemma MaskOfPair(q: seq<nat>, n: nat, seg: nat, base: nat, j: nat, l: Word, r: Word)
    requires n > 0 && j < n && base == seg * (2 * n) && base + 2 * n <= |q|
    requires l == MaskL(q, n) && r == MaskR(q, n)
    ensures |l| == |q| == |r|
    ensures r[base + j] == Swapped(q, n, base, j) == l[base + n + j]
    ensures !l[base + j] && !r[base + n + j]
    ensures base + j >= n ==> !r[base + j - n]
    ensures base + 2 * n + j < |q| ==> !l[base + 2 * n + j]
  {
    MaskAt(q, n, seg, base, j);
    MaskAbove(q, n, seg, base, j);
    if base > 0 {
      MulLe(1, seg, 2 * n);
      NoSpillBelow(q, n, seg, base, j);
    }
    if base + 2 * n + j < |q| {
      NoSpillAbove(q, n, seg, base, j);
    }
  }

  /** A stage exchanges the two bits of each pair whose control is set. */
  lemma StageAt(d: Word, q: seq<nat>, n: nat, seg: nat, base: nat, j: nat)
    requires n > 0 && j < n && base == seg * (2 * n) && base + 2 * n <= |q| == |d|
    ensures Exchanged(d, Stage(d, q, n), n, base, j, Swapped(q, n, base, j))
  {
    var l, r := MaskL(q, n), MaskR(q, n);
    MaskOfPair(q, n, seg, base, j, l, r);
    StagePair(d, q, n, base, j, l, r, Swapped(q, n, base, j));
  }

  /** The place of a position in its segment. */
  lemma Locate(q: seq<nat>, n: nat, segs: nat, i: nat) returns (seg: nat, base: nat, j: nat)
    requires Fills(q, n, segs) && i < |q|
    ensures seg < segs && base == seg * (2 * n) && base + 2 * n <= |q| && j < n && (i == base + j || i == base + n + j)
  {
    seg := i / (2 * n);
    base := seg * (2 * n);
    assert i == base + i % (2 * n);
    j := if i % (2 * n) < n then i % (2 * n) else i % (2 * n) - n;
    if seg >= segs {
      MulLe(segs, seg, 2 * n);
    } else {
      MulLe(seg + 1, segs, 2 * n);
    }
  }

  ghost predicate ExchangedIn(d: Word, s: Word, q: seq<nat>, n: nat, seg: nat, j: nat) {
    var base := seg * (2 * n);
    j < n && base + 2 * n <= |d| == |s| == |q| && Exchanged(d, s, n, base, j, Swapped(q, n, base, j))
  }

  /** `s` is the outcome of the stage. */
  ghost predicate StageOf(d: Word, s: Word, q: seq<nat>, n: nat, segs: nat) {
    Fills(q, n, segs) && |d| == |s| == |q| &&
    forall seg, j | 0 <= seg < segs && 0 <= j < n :: ExchangedIn(d, s, q, n, seg, j)
  }

  lemma StageExchanges(d: Word, q: seq<nat>, n: nat, segs: nat)
    requires |d| == |q| && Fills(q, n, segs)
    ensures StageOf(d, Stage(d, q, n), q, n, segs)
  {
    var s := Stage(d, q, n);
    forall seg, j | 0 <= seg < segs && 0 <= j < n ensures ExchangedIn(d, s, q, n, seg, j) {
      MulLe(seg + 1, segs, 2 * n);
      Distribute(seg, 1, 2 * n);
      StageAt(d, q, n, seg, seg * (2 * n), j);
    }
  }

  lemma TwiceAt(d: Word, s: Word, t: Word, q: seq<nat>, n: nat, segs: nat, i: nat)
    requires StageOf(d, s, q, n, segs) && StageOf(s, t, q, n, segs) && i < |d|
    ensures t[i] == d[i]
  {
    var seg, base, j := Locate(q, n, segs, i);
    assert ExchangedIn(d, s, q, n, seg, j) && ExchangedIn(s, t, q, n, seg, j);
  }

  /** Every stage undoes itself. */
  lemma StageInvolution(d: Word, q: seq<nat>, n: nat, segs: nat)
    requires |d| == |q| && Fills(q, n, segs)
    ensures Stage(Stage(d, q, n), q, n) == d
  {
    var s := Stage(d, q, n);
    var t := Stage(s, q, n);
    StageExchanges(d, q, n, segs);
    StageExchanges(s, q, n, segs);
    forall i | 0 <= i < |d| ensures t[i] == d[i] {
      TwiceAt(d, s, t, q, n, segs, i);
    }
  }

  // ------------------------------------------------------------------ the network

  /** All stages, from segments of 2^k bits down to pairs. */
  function Network(d: Word, q: seq<nat>, k: nat): (r: Word)
    requires |d| == |q|
    ensures |r| == |d|
    decreases k
  {
    if k == 0 then d else Network(Stage(d, q, Pow2(k - 1)), q, k - 1)
  }

  /** The same stages in the opposite order. */
  function InverseNetwork(d: Word, q: seq<nat>, k: nat): (r: Word)
    requires |d| == |q|
    ensures |r| == |d|
    decreases k
  {
    if k == 0 then d else Stage(InverseNetwork(d, q, k - 1), q, Pow2(k - 1))
  }

  lemma LastUndone(d: Word, s: Word, q: seq<nat>, k: nat, segs: nat)
    requires k > 0 && |d| == |q| == |s| && Fills(q, Pow2(k - 1), segs)
    requires s == Stage(d, q, Pow2(k - 1)) && InverseNetwork(Network(s, q, k - 1), q, k - 1) == s
    ensures InverseNetwork(Network(d, q, k), q, k) == d
  {
    StageInvolution(d, q, Pow2(k - 1), segs);
  }

  lemma {:induction false} NetworkUndone(d: Word, q: seq<nat>, k: nat, segs: nat)
    requires |d| == |q| == segs * Pow2(k)
    ensures InverseNetwork(Network(d, q, k), q, k) == d
    decreases k
  {
    if k > 0 {
      Halve(segs, k - 1);
      NetworkUndone(Stage(d, q, Pow2(k - 1)), q, k - 1, 2 * segs);
      LastUndone(d, Stage(d, q, Pow2(k - 1)), q, k, segs);
    }
  }

  ghost predicate CountedAt(q: seq<nat>, m: Word, x: nat)
    requires x < |q| == |m|
  {
    q[x] == Ones(m, x + 1) % Pow2(Level(x + 1) + 1)
  }

  /** Each counter holds as many low bits of the prefix count of the mask as its level has. */
  ghost predicate Counted(q: seq<nat>, m: Word) {
    |q| == |m| && forall x | 0 <= x < |q| :: CountedAt(q, m, x)
  }

  lemma EvenTimes(seg: nat, n: nat)
    ensures seg * (2 * n) == (2 * seg) * n
  {
  }

  lemma LevelOfPlace(e: nat, n: nat, seg: nat, base: nat)
    requires n == Pow2(e) && base == seg * (2 * n)
    ensures Level(base + n) == e && Pow2(e + 1) == 2 * n
  {
    LevelOfMultiple(2 * seg + 1, e);
    Distribute(2 * seg, 1, n);
    EvenTimes(seg, n);
  }

  lemma CountOfPlace(q: seq<nat>, m: Word, e: nat, n: nat, seg: nat, base: nat)
    requires Counted(q, m) && n == Pow2(e) && base == seg * (2 * n) && base + 2 * n <= |q|
    ensures q[base + n - 1] == Ones(m, base + n) % (2 * n) < 2 * n
    ensures q[base + n - 1] % (2 * n) == q[base + n - 1]
  {
    LevelOfPlace(e, n, seg, base);
    assert CountedAt(q, m, base + n - 1);
    SmallMod(q[base + n - 1], 2 * n);
  }

  ghost predicate WindowAt(d: Word, x: Word, m: Word, base: nat, w: nat, rest: bool, t: nat)
    requires base + w <= |d| == |x| == |m| && w > 0
  {
    var c := Ones(m, base);
    if c + t < Ones(m, base + w) then
      d[base + Rot(c + t, w)] == x[c + t]
    else
      rest ==> !d[base + Rot(c + t, w)]
  }

  /** The bits bound for a segment are in it in order, rotated by the number of those bound for
      places below; with `rest`, the other bits of the segment are clear. */
  ghost predicate Window(d: Word, x: Word, m: Word, base: nat, w: nat, rest: bool)
    requires base + w <= |d| == |x| == |m| && w > 0
  {
    forall t | 0 <= t < w :: WindowAt(d, x, m, base, w, rest, t)
  }

  /** What the control decides for a bit bound for the right half. */
  lemma {:induction false} SwapLow(v: nat, count: nat, n: nat)
    requires n > 0 && v < count <= v + n
    ensures Rot(v, 2 * n) == Rot(v, n) + if Crosses(Rot(count, 2 * n), n, Rot(v, n)) then n else 0
  {
    if v >= 2 * n {
      SwapLow(v - 2 * n, count - 2 * n, n);
      assert Rot(v, n) == Rot(v - n, n);
    } else {
      assert Rot(v, n) == if v < n then v else v - n;
      assert Rot(count, 2 * n) == if count < 2 * n then count else count - 2 * n;
    }
  }

  /** What it decides for a bit bound for the left half. */
  lemma {:induction false} SwapHigh(v: nat, count: nat, n: nat)
    requires n > 0 && count <= v < count + n
    ensures Rot(v, 2 * n) == Rot(v, n) + if Crosses(Rot(count, 2 * n), n, Rot(v, n)) then 0 else n
    ensures Rot(v + n, 2 * n) == Rot(v, n) + if Crosses(Rot(count, 2 * n), n, Rot(v, n)) then n else 0
  {
    if count >= 2 * n {
      SwapHigh(v - 2 * n, count - 2 * n, n);
      assert Rot(v, n) == Rot(v - n, n);
    } else {
      assert Rot(v, 2 * n) == if v < 2 * n then v else v - 2 * n;
      assert Rot(v, n) == if v < n then v else Rot(v - n, n);
      assert v >= n ==> Rot(v - n, n) == if v < 2 * n then v - n else v - 2 * n by {
        assert v >= 2 * n ==> Rot(v - n, n) == Rot(v - 2 * n, n);
      }
    }
  }

  ghost predicate Controlled(d: Word, s: Word, m: Word, n: nat, base: nat, j: nat) {
    j < n && base + 2 * n <= |d| == |s| == |m| &&
    Exchanged(d, s, n, base, j, Crosses(Rot(Ones(m, base + n), 2 * n), n, j))
  }

  lemma WindowHigh(d: Word, s: Word, x: Word, m: Word, base: nat, n: nat, rest: bool, t: nat, j: nat, u: nat)
    requires t < n && base + 2 * n <= |d| == |s| == |x| == |m| && j == Rot(Ones(m, base + n) + t, n)
    requires Ones(m, base) + u == Ones(m, base + n) + t
    requires WindowAt(d, x, m, base, 2 * n, rest, u) && Controlled(d, s, m, n, base, j)
    ensures WindowAt(s, x, m, base + n, n, rest, t)
  {
    SwapHigh(Ones(m, base + n) + t, Ones(m, base + n), n);
  }

  lemma WindowLow(d: Word, s: Word, x: Word, m: Word, base: nat, n: nat, rest: bool, t: nat, j: nat)
    requires t < n && base + 2 * n <= |d| == |s| == |x| == |m| && j == Rot(Ones(m, base) + t, n)
    requires WindowAt(d, x, m, base, 2 * n, rest, t) && Controlled(d, s, m, n, base, j)
    requires Ones(m, base) + t < Ones(m, base + n) <= Ones(m, base + 2 * n)
    ensures WindowAt(s, x, m, base, n, rest, t)
  {
    OnesMonotone(m, base, base + n);
    SwapLow(Ones(m, base) + t, Ones(m, base + n), n);
  }

  lemma WindowLowRest(d: Word, s: Word, x: Word, m: Word, base: nat, n: nat, rest: bool, t: nat, j: nat)
    requires t < n && base + 2 * n <= |d| == |s| == |x| == |m| && j == Rot(Ones(m, base) + t, n)
    requires WindowAt(d, x, m, base, 2 * n, rest, t + n) && Controlled(d, s, m, n, base, j)
    requires Ones(m, base) + t >= Ones(m, base + n)
    ensures WindowAt(s, x, m, base, n, rest, t)
  {
    OnesMonotone(m, base, base + n);
    OnesMonotone(m, base + n, base + 2 * n);
    SwapHigh(Ones(m, base) + t, Ones(m, base + n), n);
    var v := Ones(m, base) + t;
    assert Ones(m, base) + (t + n) == v + n && v + n >= Ones(m, base + 2 * n);
  }

  /** One stage splits a window into those of the two halves. */
  lemma SplitWindow(d: Word, s: Word, x: Word, m: Word, base: nat, n: nat, rest: bool)
    requires n > 0 && base + 2 * n <= |d| == |s| == |x| == |m|
    requires Window(d, x, m, base, 2 * n, rest)
    requires forall j | 0 <= j < n :: Controlled(d, s, m, n, base, j)
    ensures Window(s, x, m, base, n, rest) && Window(s, x, m, base + n, n, rest)
  {
    var c, high := Ones(m, base), base + n;
    OnesMonotone(m, base, high);
    OnesMonotone(m, high, base + 2 * n);
    forall t | 0 <= t < n ensures WindowAt(s, x, m, base, n, rest, t) {
      if c + t < Ones(m, high) {
        WindowLow(d, s, x, m, base, n, rest, t, Rot(c + t, n));
      } else {
        WindowLowRest(d, s, x, m, base, n, rest, t, Rot(c + t, n));
      }
    }
    forall t | 0 <= t < n ensures WindowAt(s, x, m, high, n, rest, t) {
      WindowHigh(d, s, x, m, base, n, rest, t, Rot(Ones(m, high) + t, n), Ones(m, high) - c + t);
    }
  }

  ghost predicate WindowOf(d: Word, x: Word, m: Word, w: nat, seg: nat, rest: bool) {
    w > 0 && |d| == |x| == |m| && seg * w + w <= |d| && Window(d, x, m, seg * w, w, rest)
  }

  /** The word is cut into segments of `w` bits, all of them windows. */
  ghost predicate Windows(d: Word, x: Word, m: Word, w: nat, segs: nat, rest: bool) {
    w > 0 && |d| == |x| == |m| == segs * w && forall seg | 0 <= seg < segs :: WindowOf(d, x, m, w, seg, rest)
  }

  lemma SegmentControlled(d: Word, s: Word, q: seq<nat>, m: Word, e: nat, n: nat, seg: nat, base: nat, j: nat)
    requires ExchangedIn(d, s, q, n, seg, j) && Counted(q, m) && n == Pow2(e) && base == seg * (2 * n)
    ensures Controlled(d, s, m, n, base, j)
  {
    CountOfPlace(q, m, e, n, seg, base);
    RotIsMod(Ones(m, base + n), 2 * n);
    ControlMeaning(Rot(Ones(m, base + n), 2 * n), n, j);
  }

  lemma StageOnSegment(d: Word, s: Word, q: seq<nat>, x: Word, m: Word, e: nat, n: nat, segs: nat, seg: nat, rest: bool)
    requires StageOf(d, s, q, n, segs) && seg < segs
    requires Counted(q, m) && n == Pow2(e) && WindowOf(d, x, m, 2 * n, seg, rest)
    ensures WindowOf(s, x, m, n, 2 * seg, rest) && WindowOf(s, x, m, n, 2 * seg + 1, rest)
  {
    var base := seg * (2 * n);
    forall j | 0 <= j < n ensures Controlled(d, s, m, n, base, j) {
      assert ExchangedIn(d, s, q, n, seg, j);
      SegmentControlled(d, s, q, m, e, n, seg, base, j);
    }
    SplitWindow(d, s, x, m, base, n, rest);
    Distribute(2 * seg, 1, n);
    assert base == 2 * seg * n;
  }

  lemma SplitWindows(d: Word, s: Word, q: seq<nat>, x: Word, m: Word, e: nat, n: nat, segs: nat, rest: bool)
    requires StageOf(d, s, q, n, segs) && Counted(q, m) && n == Pow2(e) && Windows(d, x, m, 2 * n, segs, rest)
    ensures Windows(s, x, m, n, 2 * segs, rest)
  {
    EvenTimes(segs, n);
    forall seg | 0 <= seg < 2 * segs ensures WindowOf(s, x, m, n, seg, rest) {
      StageOnSegment(d, s, q, x, m, e, n, segs, seg / 2, rest);
    }
  }

  lemma StageOnWindows(d: Word, q: seq<nat>, x: Word, m: Word, e: nat, n: nat, segs: nat, rest: bool)
    requires Counted(q, m) && n == Pow2(e) && Windows(d, x, m, 2 * n, segs, rest)
    ensures Windows(Stage(d, q, n), x, m, n, 2 * segs, rest)
  {
    StageExchanges(d, q, n, segs);
    SplitWindows(d, Stage(d, q, n), q, x, m, e, n, segs, rest);
  }

  /** After all stages every bit bound for a place is there. */
  lemma {:induction false} NetworkOnWindows(d: Word, q: seq<nat>, x: Word, m: Word, k: nat, segs: nat, rest: bool)
    requires Counted(q, m) && Windows(d, x, m, Pow2(k), segs, rest)
    ensures Windows(Network(d, q, k), x, m, 1, |m|, rest)
    decreases k
  {
    if k > 0 {
      StageOnWindows(d, q, x, m, k - 1, Pow2(k - 1), segs, rest);
      NetworkOnWindows(Stage(d, q, Pow2(k - 1)), q, x, m, k - 1, 2 * segs, rest);
    }
  }

  lemma LastWindow(d: Word, x: Word, m: Word, i: nat, rest: bool)
    requires Windows(d, x, m, 1, |m|, rest) && i < |m|
    ensures m[i] ==> d[i] == x[Ones(m, i)]
    ensures rest && !m[i] ==> !d[i]
  {
    assert WindowOf(d, x, m, 1, i, rest);
    assert WindowAt(d, x, m, i, 1, rest, 0);
  }

  /** Before the first stage the operand itself is the one window. */
  lemma Whole(x: Word, m: Word, k: nat, rest: bool)
    requires |x| == |m| == Pow2(k)
    requires rest ==> forall i | Ones(m, |m|) <= i < |x| :: !x[i]
    ensures Windows(x, x, m, Pow2(k), 1, rest)
  {
    forall t | 0 <= t < |x| ensures WindowAt(x, x, m, 0, |x|, rest, t) {
    }
    assert WindowOf(x, x, m, Pow2(k), 0, rest);
  }

  /** The network followed by the mask deposits the operand's bits. */
  lemma NetworkDeposits(x: Word, m: Word, q: seq<nat>, k: nat)
    requires |x| == |m| == Pow2(k) && Counted(q, m)
    ensures And(Network(x, q, k), m) == Deposit(x, m)
  {
    Whole(x, m, k, false);
    NetworkOnWindows(x, q, x, m, k, 1, false);
    var d := Network(x, q, k);
    forall i | 0 <= i < |m| ensures And(d, m)[i] == Deposit(x, m)[i] {
      LastWindow(d, x, m, i, false);
    }
  }

  /** On an operand that has only bits to deposit the network needs no mask, and so its inverse
      extracts. */
  lemma InverseExtracts(x: Word, m: Word, q: seq<nat>, k: nat)
    requires |x| == |m| == Pow2(k) && Counted(q, m)
    ensures InverseNetwork(And(x, m), q, k) == Extract(x, m)
  {
    var y := Extract(x, m);
    Whole(y, m, k, true);
    NetworkOnWindows(y, q, y, m, k, 1, true);
    var d := Network(y, q, k);
    DepositOfExtract(x, m);
    forall i | 0 <= i < |m| ensures d[i] == And(x, m)[i] {
      LastWindow(d, y, m, i, true);
      assert Deposit(y, m)[i] == And(x, m)[i];
    }
    assert d == And(x, m);
    NetworkUndone(y, q, k, 1);
  }
}
