/** Shuffle and unshuffle of rtl/ibex_alu.sv: stages that exchange neighbouring groups of bits, each under a bit of the
    control. */
module Shuffle {

  /** The stages a control selects; `s3` is the widest. */
  datatype Mode = Mode(s3: bool, s2: bool, s1: bool, s0: bool) {
    function Mirrored(): Mode {
      Mode(s0, s1, s2, s3)
    }
  }

  /** The bits under `l` come from below and those under `r` from above. */
  function Exchanged(x: bv32, below: bv32, above: bv32, l: bv32, r: bv32): bv32 {
    (x & !(l | r)) | (below & l) | (above & r)
  }

  function Swap8(x: bv32): bv32 {
    Exchanged(x, x << 8, x >> 8, 0x00ff_0000, 0x0000_ff00)
  }

  function Swap4(x: bv32): bv32 {
    Exchanged(x, x << 4, x >> 4, 0x0f00_0f00, 0x00f0_00f0)
  }

  function Swap2(x: bv32): bv32 {
    Exchanged(x, x << 2, x >> 2, 0x3030_3030, 0x0c0c_0c0c)
  }

  function Swap1(x: bv32): bv32 {
    Exchanged(x, x << 1, x >> 1, 0x4444_4444, 0x2222_2222)
  }

  function Flip(x: bv32): bv32 {
    (x & 0x8822_4411) |
    ((x << 6) & 0x2200_1100) | ((x >> 6) & 0x0088_0044) | ((x << 9) & 0x0044_0000) | ((x >> 9) & 0x0000_2200) |
    ((x << 15) & 0x4411_0000) | ((x >> 15) & 0x0000_8822) | ((x << 21) & 0x1100_0000) | ((x >> 21) & 0x0000_0088)
  }

  /** The stages under their bits of the control. */
  function Stage8(on: bool, x: bv32): bv32 {
    if on then Swap8(x) else x
  }

  function Stage4(on: bool, x: bv32): bv32 {
    if on then Swap4(x) else x
  }

  function Stage2(on: bool, x: bv32): bv32 {
    if on then Swap2(x) else x
  }

  function Stage1(on: bool, x: bv32): bv32 {
    if on then Swap1(x) else x
  }

  /** All of them, the widest first. */
  function Stages(x: bv32, m: Mode): bv32 {
    Stage1(m.s0, Stage2(m.s1, Stage4(m.s2, Stage8(m.s3, x))))
  }

  function Unshuffled(x: bv32, m: Mode): bv32 {
    Flip(Stages(Flip(x), m.Mirrored()))
  }

  /** The part of the source's block between the flips. */
  method Exchanges(x: bv32, m: Mode) returns (r: bv32)
    ensures r == Stages(x, m)
  {
    r := x;
    if m.s3 {
      r := Swap8(r);
    }
    if m.s2 {
      r := Swap4(r);
    }
    if m.s1 {
      r := Swap2(r);
    }
    if m.s0 {
      r := Swap1(r);
    }
  }

  /** The source's block: unshuffle flips before and after, and mirrors the control. */
  method Block(x: bv32, unshuffle: bool, m: Mode) returns (r: bv32)
    ensures r == if unshuffle then Unshuffled(x, m) else Stages(x, m)
  {
    r := x;
    var mode := if unshuffle then m.Mirrored() else m;
    if unshuffle {
      r := Flip(r);
    }
    r := Exchanges(r, mode);
    if unshuffle {
      r := Flip(r);
    }
  }

  // ------------------------------------------------------------------ the stages

  lemma Stage8Twice(on: bool, x: bv32)
    ensures Stage8(on, Stage8(on, x)) == x
  {
  }

  lemma Stage4Twice(on: bool, x: bv32)
    ensures Stage4(on, Stage4(on, x)) == x
  {
  }

  lemma Stage2Twice(on: bool, x: bv32)
    ensures Stage2(on, Stage2(on, x)) == x
  {
  }

  lemma Stage1Twice(on: bool, x: bv32)
    ensures Stage1(on, Stage1(on, x)) == x
  {
  }

  lemma FlipTwice(x: bv32)
    ensures Flip(Flip(x)) == x
  {
  }

  lemma Flip8(on: bool, x: bv32)
    ensures Flip(Stage8(on, x)) == Stage1(on, Flip(x))
  {
  }

  lemma Flip4(on: bool, x: bv32)
    ensures Flip(Stage4(on, x)) == Stage2(on, Flip(x))
  {
  }

  lemma Flip2(on: bool, x: bv32)
    ensures Flip(Stage2(on, x)) == Stage4(on, Flip(x))
  {
  }

  lemma Flip1(on: bool, x: bv32)
    ensures Flip(Stage1(on, x)) == Stage8(on, Flip(x))
  {
  }

  // ------------------------------------------------------------------ the whole

  /** The stages in the opposite order, the narrowest first. */
  function Backward(x: bv32, m: Mode): bv32 {
    Stage8(m.s3, Stage4(m.s2, Stage2(m.s1, Stage1(m.s0, x))))
  }

  /** Flipped and with a mirrored control, the stages from the widest on are those from the narrowest on. */
  lemma FlippedStages(x: bv32, m: Mode)
    ensures Unshuffled(x, m) == Backward(x, m)
  {
    var x0 := Stage1(m.s0, x);
    var x1 := Stage2(m.s1, x0);
    var x2 := Stage4(m.s2, x1);
    Flip1(m.s0, x);
    Flip2(m.s1, x0);
    Flip4(m.s2, x1);
    Flip8(m.s3, x2);
    FlipTwice(Stage8(m.s3, x2));
  }

  lemma NarrowUndone(x: bv32, s1: bool, s0: bool)
    ensures Stage2(s1, Stage1(s0, Stage1(s0, Stage2(s1, x)))) == x
  {
    Stage1Twice(s0, Stage2(s1, x));
    Stage2Twice(s1, x);
  }

  lemma WideUndone(x: bv32, s3: bool, s2: bool)
    ensures Stage8(s3, Stage4(s2, Stage4(s2, Stage8(s3, x)))) == x
  {
    Stage4Twice(s2, Stage8(s3, x));
    Stage8Twice(s3, x);
  }

  lemma BackwardUndoes(x: bv32, m: Mode)
    ensures Backward(Stages(x, m), m) == x
  {
    NarrowUndone(Stage4(m.s2, Stage8(m.s3, x)), m.s1, m.s0);
    WideUndone(x, m.s3, m.s2);
  }

  lemma StagesUndo(x: bv32, m: Mode)
    ensures Stages(Backward(x, m), m) == x
  {
    var x0 := Stage1(m.s0, x);
    var x1 := Stage2(m.s1, x0);
    var x2 := Stage4(m.s2, x1);
    Stage1Twice(m.s0, x);
    Stage2Twice(m.s1, x0);
    Stage4Twice(m.s2, x1);
    Stage8Twice(m.s3, x2);
  }

  /** Unshuffle undoes shuffle with the same control, and the other way around, for every control and operand. */
  lemma UnshuffleInverts(x: bv32, m: Mode)
    ensures Unshuffled(Stages(x, m), m) == x && Stages(Unshuffled(x, m), m) == x
  {
    FlippedStages(x, m);
    FlippedStages(Stages(x, m), m);
    BackwardUndoes(x, m);
    StagesUndo(x, m);
  }

  // ------------------------------------------------------------------ where the bits go

  predicate BitAt(x: bv32, i: bv5) {
    (x >> i) & 1 == 1
  }

  /** An index with the bit `k` stands for and the one above it exchanged, if the stage is on. */
  function Exchange(on: bool, i: bv5, k: bv5): bv5 {
    if on && (i & k != 0) != (i & (k << 1) != 0) then i ^ (k | (k << 1)) else i
  }

  lemma Moves8(on: bool, x: bv32, i: bv5)
    ensures BitAt(Stage8(on, x), i) == BitAt(x, Exchange(on, i, 8))
  {
  }

  lemma Moves4(on: bool, x: bv32, i: bv5)
    ensures BitAt(Stage4(on, x), i) == BitAt(x, Exchange(on, i, 4))
  {
    if on {
      if i & 12 == 4 {
        assert BitAt(Swap4(x), i) == BitAt(x, i + 4);
      } else if i & 12 == 8 {
        assert BitAt(Swap4(x), i) == BitAt(x, i - 4);
      } else {
        assert BitAt(Swap4(x), i) == BitAt(x, i);
      }
    }
  }

  lemma Moves2(on: bool, x: bv32, i: bv5)
    ensures BitAt(Stage2(on, x), i) == BitAt(x, Exchange(on, i, 2))
  {
  }

  lemma Moves1(on: bool, x: bv32, i: bv5)
    ensures BitAt(Stage1(on, x), i) == BitAt(x, Exchange(on, i, 1))
  {
  }

  /** The operand bit that a bit of the shuffled word is. */
  function ShuffledFrom(i: bv5, m: Mode): bv5 {
    Exchange(m.s3, Exchange(m.s2, Exchange(m.s1, Exchange(m.s0, i, 1), 2), 4), 8)
  }

  function UnshuffledFrom(i: bv5, m: Mode): bv5 {
    Exchange(m.s0, Exchange(m.s1, Exchange(m.s2, Exchange(m.s3, i, 8), 4), 2), 1)
  }

  lemma NarrowMoves(s1: bool, s0: bool, x: bv32, i: bv5)
    ensures BitAt(Stage1(s0, Stage2(s1, x)), i) == BitAt(x, Exchange(s1, Exchange(s0, i, 1), 2))
    ensures BitAt(Stage2(s1, Stage1(s0, x)), i) == BitAt(x, Exchange(s0, Exchange(s1, i, 2), 1))
  {
    Moves1(s0, Stage2(s1, x), i);
    Moves2(s1, x, Exchange(s0, i, 1));
    Moves2(s1, Stage1(s0, x), i);
    Moves1(s0, x, Exchange(s1, i, 2));
  }

  lemma WideMoves(s3: bool, s2: bool, x: bv32, i: bv5)
    ensures BitAt(Stage4(s2, Stage8(s3, x)), i) == BitAt(x, Exchange(s3, Exchange(s2, i, 4), 8))
    ensures BitAt(Stage8(s3, Stage4(s2, x)), i) == BitAt(x, Exchange(s2, Exchange(s3, i, 8), 4))
  {
    Moves4(s2, Stage8(s3, x), i);
    Moves8(s3, x, Exchange(s2, i, 4));
    Moves8(s3, Stage4(s2, x), i);
    Moves4(s2, x, Exchange(s3, i, 8));
  }

  lemma ThroughNarrow(y: bv32, x: bv32, m: Mode, i: bv5, j: bv5)
    requires BitAt(y, Exchange(m.s1, Exchange(m.s0, i, 1), 2)) == BitAt(x, j)
    ensures BitAt(Stage1(m.s0, Stage2(m.s1, y)), i) == BitAt(x, j)
  {
    NarrowMoves(m.s1, m.s0, y, i);
  }

  lemma ShuffledBit(x: bv32, m: Mode, i: bv5)
    ensures BitAt(Stages(x, m), i) == BitAt(x, ShuffledFrom(i, m))
  {
    WideMoves(m.s3, m.s2, x, Exchange(m.s1, Exchange(m.s0, i, 1), 2));
    ThroughNarrow(Stage4(m.s2, Stage8(m.s3, x)), x, m, i, ShuffledFrom(i, m));
  }

  lemma BackwardBit(x: bv32, m: Mode, i: bv5)
    ensures BitAt(Backward(x, m), i) == BitAt(x, UnshuffledFrom(i, m))
  {
    WideMoves(m.s3, m.s2, Stage2(m.s1, Stage1(m.s0, x)), i);
    NarrowMoves(m.s1, m.s0, x, Exchange(m.s2, Exchange(m.s3, i, 8), 4));
  }

  lemma UnshuffledBit(x: bv32, m: Mode, i: bv5)
    ensures BitAt(Unshuffled(x, m), i) == BitAt(x, UnshuffledFrom(i, m))
  {
    FlippedStages(x, m);
    BackwardBit(x, m, i);
  }

  /** With all stages the halves of the operand are interleaved, the lower one in the even places. */
  lemma FullShuffleInterleaves(x: bv32, i: bv5)
    requires i < 16
    ensures var r := Stages(x, Mode(true, true, true, true));
      BitAt(r, 2 * i) == BitAt(x, i) && BitAt(r, 2 * i + 1) == BitAt(x, i + 16)
  {
    var all := Mode(true, true, true, true);
    ShuffledBit(x, all, 2 * i);
    ShuffledBit(x, all, 2 * i + 1);
    assert ShuffledFrom(2 * i, all) == i && ShuffledFrom(2 * i + 1, all) == i + 16;
  }
}
