/** Rotates and funnel shifts of rtl/ibex_alu.sv: one right shifter, used in two cycles, with the first
    cycle's result kept in an intermediate-value register. Any width. */
module FunnelShift {
  import opened Bits

  datatype Operator = Rol | Ror | Fsl | Fsr

  /** The shifter: a left shift reverses the operand and the result. */
  function Shifter(a: Word, left: bool, amount: nat): Word {
    var r := ShiftRight(if left then Reverse(a) else a, amount);
    if left then Reverse(r) else r
  }

  /** Bit `i` of a word shifted either way. */
  predicate ShiftedBit(a: Word, left: bool, amount: nat, i: nat)
    requires i < |a|
  {
    if left then i >= amount && a[i - amount] else i + amount < |a| && a[i + amount]
  }

  lemma ShifterBit(a: Word, left: bool, amount: nat, i: nat)
    requires i < |a|
    ensures |Shifter(a, left, amount)| == |a| && Shifter(a, left, amount)[i] == ShiftedBit(a, left, amount, i)
  {
    if left {
      var v := Reverse(a);
      var r := ShiftRight(v, amount);
      assert Reverse(r)[i] == r[|a| - 1 - i];
      if i >= amount {
        assert v[|a| - 1 - i + amount] == a[i - amount];
      }
    }
  }

  /** The shift amount of the first cycle and of the second; `swap` is the amount's top bit, which only
      funnel shifts look at. */
  function Amount(width: nat, amount: nat, swap: bool, first: bool): nat
    requires amount < width
  {
    if first != swap then amount
    else if amount == 0 then 0  // the low bits of the width itself
    else width - amount
  }

  predicate GoesLeft(op: Operator, swap: bool, first: bool) {
    match op {
      case Rol => first
      case Ror => !first
      case Fsl => first != swap
      case Fsr => first == swap
    }
  }

  /** Bit `i` of what is meant: the operands side by side, read from position `s` on, cyclically. */
  predicate WindowBit(low: Word, high: Word, s: nat, i: nat)
    requires |low| == |high| && s < 2 * |low| && i < |low|
  {
    var w := |low|;
    if i + s < w then low[i + s] else if i + s < 2 * w then high[i + s - w] else low[i + s - 2 * w]
  }

  function Window(low: Word, high: Word, s: nat): Word
    requires |low| == |high| && s < 2 * |low|
  {
    seq(|low|, i requires 0 <= i < |low| => WindowBit(low, high, s, i))
  }

  predicate Rotates(op: Operator) {
    op.Rol? || op.Ror?
  }

  /** A left shift leaves the top `w - s` bits of the first operand's pair above, so it starts `w - s`
      bits into the pair, and `2w - s` if it is by `w` or more. */
  function Meaning(op: Operator, a: Word, c: Word, amount: nat, swap: bool): Word
    requires |a| == |c| && amount < |a|
  {
    var w := |a|;
    var s := if swap then amount + w else amount;
    match op {
      case Rol | Fsl => Window(c, a, if s <= w then w - s else 3 * w - s)
      case Ror | Fsr => Window(a, c, s)
    }
  }

  /** First cycle. */
  method FirstCycle(op: Operator, a: Word, amount: nat, swap: bool) returns (imd: Word)
    requires amount < |a|
    ensures |imd| == |a|
    ensures forall i | 0 <= i < |a| ::
      imd[i] == ShiftedBit(a, GoesLeft(op, swap, true), Amount(|a|, amount, swap, true), i)
  {
    var left, s := GoesLeft(op, swap, true), Amount(|a|, amount, swap, true);
    imd := Shifter(a, left, s);
    forall i | 0 <= i < |a| ensures |imd| == |a| && imd[i] == ShiftedBit(a, left, s, i) {
      ShifterBit(a, left, s, i);
    }
  }

  /** Second cycle: the other operand, shifted the other way, fills the gap. */
  method SecondCycle(op: Operator, c: Word, imd: Word, amount: nat, swap: bool) returns (r: Word)
    requires amount < |c| == |imd|
    ensures |r| == |c|
    ensures forall i | 0 <= i < |c| ::
      var left, s := GoesLeft(op, swap, false), Amount(|c|, amount, swap, false);
      r[i] == if s == 0 then (if swap then c[i] else imd[i]) else imd[i] || ShiftedBit(c, left, s, i)
  {
    var left, s := GoesLeft(op, swap, false), Amount(|c|, amount, swap, false);
    if s == 0 {
      r := if swap then c else imd;
    } else {
      var t := Shifter(c, left, s);
      forall i | 0 <= i < |c| ensures |t| == |c| && t[i] == ShiftedBit(c, left, s, i) {
        ShifterBit(c, left, s, i);
      }
      r := Or(imd, t);
    }
  }

  /** The two shifted parts together. */
  predicate Joined(a: Word, c: Word, left: bool, s1: nat, s2: nat, swap: bool, i: nat)
    requires i < |a| == |c|
  {
    if s2 == 0 then (if swap then c[i] else ShiftedBit(a, left, s1, i))
    else ShiftedBit(a, left, s1, i) || ShiftedBit(c, !left, s2, i)
  }

  lemma RightJoined(a: Word, c: Word, amount: nat, i: nat)
    requires amount < |a| == |c| && i < |a|
    ensures Joined(a, c, false, amount, if amount == 0 then 0 else |a| - amount, false, i)
      == WindowBit(a, c, amount, i)
  {
  }

  /** What the two amounts are. */
  lemma Amounts(w: nat, amount: nat, swap: bool)
    requires amount < w
    ensures var rest := if amount == 0 then 0 else w - amount;
      Amount(w, amount, swap, true) == (if swap then rest else amount) &&
      Amount(w, amount, swap, false) == (if swap then amount else rest)
  {
  }

  lemma RightSwapped(a: Word, c: Word, amount: nat, i: nat)
    requires amount < |a| == |c| && i < |a|
    ensures Joined(a, c, true, if amount == 0 then 0 else |a| - amount, amount, true, i)
      == WindowBit(a, c, amount + |a|, i)
  {
  }

  lemma RightMeaning(a: Word, c: Word, amount: nat, swap: bool, i: nat)
    requires amount < |a| == |c| && i < |a|
    ensures Meaning(Fsr, a, c, amount, swap)[i] ==
      Joined(a, c, swap, Amount(|a|, amount, swap, true), Amount(|a|, amount, swap, false), swap, i)
  {
    Amounts(|a|, amount, swap);
    if swap {
      RightSwapped(a, c, amount, i);
    } else {
      RightJoined(a, c, amount, i);
    }
  }

  lemma LeftSwapped(a: Word, c: Word, amount: nat, i: nat)
    requires amount < |a| == |c| && i < |a|
    ensures Joined(a, c, false, if amount == 0 then 0 else |a| - amount, amount, true, i)
      == WindowBit(c, a, if amount == 0 then 0 else 2 * |a| - amount, i)
  {
  }

  lemma LeftJoined(a: Word, c: Word, amount: nat, i: nat)
    requires amount < |a| == |c| && i < |a|
    ensures Joined(a, c, true, amount, if amount == 0 then 0 else |a| - amount, false, i)
      == WindowBit(c, a, |a| - amount, i)
  {
  }

  lemma LeftMeaning(a: Word, c: Word, amount: nat, swap: bool, i: nat)
    requires amount < |a| == |c| && i < |a|
    ensures Meaning(Fsl, a, c, amount, swap)[i] ==
      Joined(a, c, !swap, Amount(|a|, amount, swap, true), Amount(|a|, amount, swap, false), swap, i)
  {
    Amounts(|a|, amount, swap);
    if swap {
      LeftSwapped(a, c, amount, i);
    } else {
      LeftJoined(a, c, amount, i);
    }
  }

  lemma MeaningJoined(op: Operator, a: Word, c: Word, amount: nat, swap: bool, i: nat)
    requires amount < |a| == |c| && i < |a| && (Rotates(op) ==> a == c && !swap)
    ensures Meaning(op, a, c, amount, swap)[i] ==
      Joined(a, c, GoesLeft(op, swap, true), Amount(|a|, amount, swap, true), Amount(|a|, amount, swap, false), swap, i)
  {
    if op.Rol? || op.Fsl? {
      LeftMeaning(a, c, amount, swap, i);
    } else {
      RightMeaning(a, c, amount, swap, i);
    }
  }

  lemma MeaningBit(op: Operator, a: Word, c: Word, amount: nat, swap: bool, i: nat, imd: bool, r: bool)
    requires amount < |a| == |c| && i < |a| && (Rotates(op) ==> a == c && !swap)
    requires imd == ShiftedBit(a, GoesLeft(op, swap, true), Amount(|a|, amount, swap, true), i)
    requires var left, s := GoesLeft(op, swap, false), Amount(|c|, amount, swap, false);
      r == if s == 0 then (if swap then c[i] else imd) else imd || ShiftedBit(c, left, s, i)
    ensures Meaning(op, a, c, amount, swap)[i] == r
  {
    MeaningJoined(op, a, c, amount, swap, i);
    assert GoesLeft(op, swap, false) == !GoesLeft(op, swap, true);
  }

  /** Both cycles. A rotate is given the same operand twice and ignores the top bit. */
  method Shift(op: Operator, a: Word, c: Word, amount: nat, swap: bool) returns (r: Word)
    requires amount < |a| == |c| && (Rotates(op) ==> a == c && !swap)
    ensures r == Meaning(op, a, c, amount, swap)
  {
    var imd := FirstCycle(op, a, amount, swap);
    r := SecondCycle(op, c, imd, amount, swap);
    ghost var m := Meaning(op, a, c, amount, swap);
    forall i | 0 <= i < |a| ensures r[i] == m[i] {
      MeaningBit(op, a, c, amount, swap, i, imd[i], r[i]);
    }
  }

  /** A cyclic window read from a cyclic window that starts where it ends. */
  lemma WindowOfWindow(a: Word, b: Word, s: nat, i: nat)
    requires s <= |a| && i < |a| == |b| && forall k | 0 <= k < |a| :: b[k] == WindowBit(a, a, s, k)
    ensures WindowBit(b, b, |a| - s, i) == a[i]
  {
    var k := i + (|a| - s);
    assert b[if k < |a| then k else k - |a|] == WindowBit(a, a, s, if k < |a| then k else k - |a|);
  }

  /** Rotating left and then right by the same amount, or the other way round, changes nothing. */
  lemma RotatesUndo(a: Word, amount: nat)
    requires amount < |a|
    ensures var l := Meaning(Rol, a, a, amount, false); |l| == |a| && Meaning(Ror, l, l, amount, false) == a
    ensures var r := Meaning(Ror, a, a, amount, false); |r| == |a| && Meaning(Rol, r, r, amount, false) == a
  {
    var l, r := Window(a, a, |a| - amount), Window(a, a, amount);
    forall i | 0 <= i < |a| ensures WindowBit(l, l, amount, i) == a[i] && WindowBit(r, r, |a| - amount, i) == a[i] {
      WindowOfWindow(a, l, |a| - amount, i);
      WindowOfWindow(a, r, amount, i);
    }
  }
}
