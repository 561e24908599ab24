/** The memory checker of dv/cosim/spike_cosim.cc: it matches the word accesses the core makes on its
    bus with the accesses the instruction set simulator makes, which for a misaligned access are
    single bytes. */
module Cosim {
  import opened Lsu
  import opened LsuAccess

  /** An access seen on the core's bus: a word, its enabled bytes, and whether it is the first or the
      second half of a misaligned access. */
  datatype Dut = Dut(store: bool, data: Word, addr: nat, be: Enables, error: bool, first: bool, second: bool) {
    predicate Misaligned() {
      first || second
    }
  }

  datatype Pending = Pending(dut: Dut, seen: Enables)

  /** An access of the simulator; it does not cross a word boundary. */
  datatype Iss = Iss(store: bool, addr: nat, bytes: seq<bv8>) {
    predicate Valid() {
      addr < SPACE && 1 <= |bytes| && addr % 4 + |bytes| <= 4
    }

    predicate Covers(j: nat) {
      addr % 4 <= j < addr % 4 + |bytes|
    }

    /** The byte enables expected. */
    function Be(): Enables {
      Enables(Covers(0), Covers(1), Covers(2), Covers(3))
    }
  }

  datatype Failure =
    | NothingPending | WrongAddress | WrongKind | SeenTwice | OtherBytes | WrongBytes | WrongData
    | SecondMissing | SecondAddress

  datatype Result = MemOk | MemBusError | MemCheckFailed

  const NO_BYTES: Enables := Enables(false, false, false, false)

  function OrEnables(a: Enables, b: Enables): Enables {
    Enables(a.e0 || b.e0, a.e1 || b.e1, a.e2 || b.e2, a.e3 || b.e3)
  }

  function AndEnables(a: Enables, b: Enables): Enables {
    Enables(a.e0 && b.e0, a.e1 && b.e1, a.e2 && b.e2, a.e3 && b.e3)
  }

  function NotEnables(a: Enables): Enables {
    Enables(!a.e0, !a.e1, !a.e2, !a.e3)
  }

  // ------------------------------------------------------------------ what a check means

  /** The byte expected in a lane. */
  function ExpectedByte(a: Iss, j: nat): bv8 {
    if a.Covers(j) then a.bytes[j - a.addr % 4] else 0
  }

  predicate SameData(a: Iss, d: Dut) {
    forall j | 0 <= j < 4 && a.Covers(j) :: d.data.Byte(j) == ExpectedByte(a, j)
  }

  /** After an error in a first half that reaches the top of its word, the second half goes too. */
  predicate SecondExpected(d: Dut) {
    d.error && d.first && d.be.e3
  }

  /** The first test that fails, if any. Bytes seen by an access that passes the byte tests count as
      seen even if a later test fails. */
  ghost function Fault(pending: seq<Pending>, a: Iss): (f: seq<Failure>)
    ensures |f| <= 1
  {
    if pending == [] then [NothingPending]
    else
      var p := pending[0];
      if Aligned(a.addr) != p.dut.addr then [WrongAddress]
      else if a.store != p.dut.store then [WrongKind]
      else if p.dut.Misaligned() && AndEnables(a.Be(), p.seen) != NO_BYTES then [SeenTwice]
      else if p.dut.Misaligned() && AndEnables(a.Be(), NotEnables(p.dut.be)) != NO_BYTES then [OtherBytes]
      else if !p.dut.Misaligned() && a.Be() != p.dut.be then [WrongBytes]
      else if (a.store || !p.dut.error) && !SameData(a, p.dut) then [WrongData]
      else if !SecondExpected(p.dut) then []
      else if |pending| < 2 || !pending[1].dut.second then [SecondMissing]
      else if pending[1].dut.addr != (p.dut.addr + 4) % SPACE then [SecondAddress]
      else []
  }

  predicate Records(p: Pending, f: seq<Failure>) {
    p.dut.Misaligned() && (f == [] || f[0].WrongData? || f[0].SecondMissing? || f[0].SecondAddress?)
  }

  ghost function Remaining(pending: seq<Pending>, a: Iss): seq<Pending> {
    if pending == [] then []
    else
      var f, p := Fault(pending, a), pending[0];
      var seen := if Records(p, f) then OrEnables(p.seen, a.Be()) else p.seen;
      if f != [] then [Pending(p.dut, seen)] + pending[1..]
      else if p.dut.Misaligned() && !p.dut.error && seen != p.dut.be then [Pending(p.dut, seen)] + pending[1..]
      else if SecondExpected(p.dut) && |pending| >= 2 then pending[2..]
      else pending[1..]
  }

  ghost function Outcome(pending: seq<Pending>, a: Iss): Result {
    if Fault(pending, a) != [] then MemCheckFailed
    else if pending != [] && pending[0].dut.error then MemBusError
    else MemOk
  }

  // ------------------------------------------------------------------ the checker

  function SetByte(w: Word, k: nat, b: bv8): Word {
    if k == 0 then w.(b0 := b) else if k == 1 then w.(b1 := b) else if k == 2 then w.(b2 := b) else w.(b3 := b)
  }

  /** A shift to the left by whole bytes. */
  function ShiftBytes(w: Word, n: nat): Word {
    match n {
      case 0 => w
      case 1 => Word(0, w.b0, w.b1, w.b2)
      case 2 => Word(0, 0, w.b0, w.b1)
      case _ => Word(0, 0, 0, w.b0)
    }
  }

  function Masked(w: Word, e: Enables): Word {
    Word(if e.e0 then w.b0 else 0, if e.e1 then w.b1 else 0, if e.e2 then w.b2 else 0, if e.e3 then w.b3 else 0)
  }

  /** Combine the bytes into a word. */
  method Assemble(bytes: seq<bv8>) returns (w: Word)
    requires |bytes| <= 4
    ensures forall j | 0 <= j < 4 :: w.Byte(j) == if j < |bytes| then bytes[j] else 0
  {
    w := Word(0, 0, 0, 0);
    var i := 0;
    while i < |bytes|
      invariant i <= |bytes|
      invariant forall j | 0 <= j < 4 :: w.Byte(j) == if j < i then bytes[j] else 0
    {
      w := SetByte(w, i, bytes[i]);
      i := i + 1;
    }
  }

  lemma Shifted(w: Word, n: nat, j: nat)
    requires n < 4 && j < 4
    ensures ShiftBytes(w, n).Byte(j) == if j >= n then w.Byte(j - n) else 0
  {
  }

  /** Combine the bytes into a word and shift it into place. */
  method ExpectedData(a: Iss) returns (w: Word)
    requires a.Valid()
    ensures forall j | 0 <= j < 4 :: w.Byte(j) == ExpectedByte(a, j)
  {
    var v := Assemble(a.bytes);
    w := ShiftBytes(v, a.addr % 4);
    forall j | 0 <= j < 4 ensures w.Byte(j) == ExpectedByte(a, j) {
      Shifted(v, a.addr % 4, j);
    }
  }

  lemma MaskedCompare(a: Iss, d: Dut, w: Word)
    requires a.Valid() && forall j | 0 <= j < 4 :: w.Byte(j) == ExpectedByte(a, j)
    ensures (w == Masked(d.data, a.Be())) == SameData(a, d)
  {
    assert w.Byte(0) == w.b0 && w.Byte(1) == w.b1 && w.Byte(2) == w.b2 && w.Byte(3) == w.b3;
    assert d.data.Byte(0) == d.data.b0 && d.data.Byte(1) == d.data.b1;
    assert d.data.Byte(2) == d.data.b2 && d.data.Byte(3) == d.data.b3;
  }

  class Checker {
    var pending: seq<Pending>
    var errors: seq<Failure>

    constructor ()
      ensures pending == [] && errors == []
    {
      pending, errors := [], [];
    }

    method NotifyDsideAccess(info: Dut)
      requires info.addr % 4 == 0
      modifies this
      ensures pending == old(pending) + [Pending(info, NO_BYTES)] && errors == old(errors)
    {
      pending := pending + [Pending(info, NO_BYTES)];
    }

    method CheckMemAccess(store: bool, addr: nat, bytes: seq<bv8>) returns (result: Result)
      requires Iss(store, addr, bytes).Valid()
      modifies this
      ensures var a := Iss(store, addr, bytes);
        && result == Outcome(old(pending), a)
        && pending == Remaining(old(pending), a)
        && errors == old(errors) + Fault(old(pending), a)
    {
      if |pending| == 0 {
        errors := errors + [NothingPending];
        return MemCheckFailed;
      }
      var top := pending[0].dut;
      if Aligned(addr) != top.addr {
        errors := errors + [WrongAddress];
        return MemCheckFailed;
      }
      if store != top.store {
        errors := errors + [WrongKind];
        return MemCheckFailed;
      }
      var a := Iss(store, addr, bytes);
      var expected := a.Be();
      var done := false;
      var misaligned := top.first || top.second;
      if misaligned {
        if AndEnables(expected, pending[0].seen) != NO_BYTES {
          errors := errors + [SeenTwice];
          return MemCheckFailed;
        }
        if AndEnables(expected, NotEnables(top.be)) != NO_BYTES {
          errors := errors + [OtherBytes];
          return MemCheckFailed;
        }
        pending := [Pending(top, OrEnables(pending[0].seen, expected))] + pending[1..];
        done := pending[0].seen == top.be;
      } else {
        if expected != top.be {
          errors := errors + [WrongBytes];
          return MemCheckFailed;
        }
        done := true;
      }
      if store || !top.error {
        var data := ExpectedData(a);
        MaskedCompare(a, top, data);
        if data != Masked(top.data, expected) {
          errors := errors + [WrongData];
          return MemCheckFailed;
        }
      }
      if top.error && misaligned {
        if top.first && top.be.e3 {
          if |pending| < 2 || !pending[1].dut.second {
            errors := errors + [SecondMissing];
            return MemCheckFailed;
          }
          if pending[1].dut.addr != (top.addr + 4) % SPACE {
            errors := errors + [SecondAddress];
            return MemCheckFailed;
          }
          pending := pending[1..];
        }
        done := true;
      }
      if done {
        pending := pending[1..];
      }
      return if top.error then MemBusError else MemOk;
    }
  }
}
