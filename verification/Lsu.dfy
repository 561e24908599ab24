/** The load/store unit of rtl/ibex_load_store_unit.sv with the address adder of the ID stage: one
    cycle of its registers and outputs. */
module Lsu {

  /** A 32-bit word as its bytes, least significant first. */
  datatype Word = Word(b0: bv8, b1: bv8, b2: bv8, b3: bv8) {
    function Byte(k: nat): bv8 {
      if k == 0 then b0 else if k == 1 then b1 else if k == 2 then b2 else b3
    }
  }

  datatype Size = WordAccess | HalfAccess | ByteAccess

  datatype Request = Request(we: bool, size: Size, signExt: bool, addr: nat, wdata: Word)

  /** One bit per byte of the bus word. */
  datatype Enables = Enables(e0: bool, e1: bool, e2: bool, e3: bool) {
    predicate At(j: nat) {
      if j == 0 then e0 else if j == 1 then e1 else if j == 2 then e2 else j == 3 && e3
    }
  }

  const SPACE: nat := 0x1_0000_0000

  function Aligned(a: nat): nat {
    a - a % 4
  }

  // ------------------------------------------------------------------ alignment

  function ByteEnables(size: Size, second: bool, offset: nat): Enables {
    match size {
      case WordAccess =>
        if !second then
          match offset {
            case 0 => Enables(true, true, true, true)
            case 1 => Enables(false, true, true, true)
            case 2 => Enables(false, false, true, true)
            case _ => Enables(false, false, false, true)
          }
        else
          match offset {
            case 0 => Enables(false, false, false, false)
            case 1 => Enables(true, false, false, false)
            case 2 => Enables(true, true, false, false)
            case _ => Enables(true, true, true, false)
          }
      case HalfAccess =>
        if !second then
          match offset {
            case 0 => Enables(true, true, false, false)
            case 1 => Enables(false, true, true, false)
            case 2 => Enables(false, false, true, true)
            case _ => Enables(false, false, false, true)
          }
        else
          Enables(true, false, false, false)
      case ByteAccess =>
        match offset {
          case 0 => Enables(true, false, false, false)
          case 1 => Enables(false, true, false, false)
          case 2 => Enables(false, false, true, false)
          case _ => Enables(false, false, false, true)
        }
    }
  }

  function Rotate(w: Word, offset: nat): Word {
    match offset {
      case 0 => w
      case 1 => Word(w.b3, w.b0, w.b1, w.b2)
      case 2 => Word(w.b2, w.b3, w.b0, w.b1)
      case _ => Word(w.b1, w.b2, w.b3, w.b0)
    }
  }

  predicate SplitMisaligned(size: Size, offset: nat) {
    (size.WordAccess? && offset != 0) || (size.HalfAccess? && offset == 3)
  }

  function Extension(top: bv8, signExt: bool): bv8 {
    if signExt && top & 0x80 != 0 then 0xff else 0
  }

  // ------------------------------------------------------------------ registers

  datatype Fsm = Idle | WaitGntMis | WaitRvalidMis | WaitGnt | WaitRvalidMisGntsDone

  /** The upper three bytes of the first word of a misaligned load. */
  datatype Upper = Upper(b1: bv8, b2: bv8, b3: bv8)

  datatype Input = Input(
    req: bool, access: Request,                                // from the ID stage
    gnt: bool, rvalid: bool, busErr: bool, pmpErr: bool,       // from the bus and the PMP
    rdata: Word, intgErr: bool)

  datatype State = State(
    fsm: Fsm, handleMisaligned: bool, pmpErr: bool, lsuErr: bool,
    rdata: Upper, offset: nat, size: Size, signExt: bool, we: bool, addrLast: nat) {

    // ---------------------------------------------------------------- outputs to the bus

    predicate AddrIncrReq() {
      match fsm {
        case WaitRvalidMis | WaitRvalidMisGntsDone => true
        case WaitGnt => handleMisaligned
        case _ => false
      }
    }

    /** The ID stage adds four to the last address for the second half. */
    function Adder(i: Input): nat {
      if AddrIncrReq() then (addrLast + 4) % SPACE else i.access.addr
    }

    predicate DataReq(i: Input) {
      match fsm {
        case Idle => i.req
        case WaitRvalidMisGntsDone => false
        case _ => true
      }
    }

    function DataAddr(i: Input): nat {
      Aligned(Adder(i))
    }

    function DataBe(i: Input): Enables {
      ByteEnables(i.access.size, handleMisaligned, Adder(i) % 4)
    }

    function DataWdata(i: Input): Word {
      Rotate(i.access.wdata, Adder(i) % 4)
    }

    predicate Split(i: Input) {
      SplitMisaligned(i.access.size, Adder(i) % 4)
    }

    // ---------------------------------------------------------------- state machine

    function NextFsm(i: Input): Fsm {
      match fsm {
        case Idle =>
          if !i.req then Idle
          else if i.gnt then (if Split(i) then WaitRvalidMis else Idle)
          else if Split(i) then WaitGntMis
          else WaitGnt
        case WaitGntMis => if i.gnt || pmpErr then WaitRvalidMis else WaitGntMis
        case WaitRvalidMis =>
          if i.rvalid || pmpErr then (if i.gnt then Idle else WaitGnt)
          else if i.gnt then WaitRvalidMisGntsDone
          else WaitRvalidMis
        case WaitGnt => if i.gnt || pmpErr then Idle else WaitGnt
        case WaitRvalidMisGntsDone => if i.rvalid then Idle else WaitRvalidMisGntsDone
      }
    }

    predicate NextHandleMisaligned(i: Input) {
      match fsm {
        case Idle => if i.req && i.gnt then Split(i) else handleMisaligned
        case WaitGntMis => if i.gnt || pmpErr then true else handleMisaligned
        case WaitRvalidMis => if i.rvalid || pmpErr then !i.gnt else if i.gnt then false else handleMisaligned
        case WaitGnt => if i.gnt || pmpErr then false else handleMisaligned
        case WaitRvalidMisGntsDone => handleMisaligned
      }
    }

    /** The first half of a split access gets its response, or was stopped by the PMP. */
    predicate FirstDone(i: Input) {
      match fsm {
        case WaitRvalidMis => i.rvalid || pmpErr
        case WaitRvalidMisGntsDone => i.rvalid
        case _ => false
      }
    }

    predicate NextPmpErr(i: Input) {
      if fsm.Idle? then i.req && i.pmpErr
      else if FirstDone(i) then i.pmpErr
      else pmpErr
    }

    predicate NextLsuErr(i: Input) {
      if fsm.Idle? && i.req then false
      else if FirstDone(i) then i.busErr || (fsm.WaitRvalidMis? && pmpErr)
      else lsuErr
    }

    predicate AddrUpdate(i: Input) {
      match fsm {
        case Idle => i.req && i.gnt
        case WaitGntMis => i.gnt || pmpErr
        case WaitRvalidMis => (i.rvalid || pmpErr) && i.gnt && !(i.busErr || pmpErr)
        case WaitGnt => (i.gnt || pmpErr) && !lsuErr
        case WaitRvalidMisGntsDone => i.rvalid && !i.busErr
      }
    }

    predicate CtrlUpdate(i: Input) {
      match fsm {
        case Idle => i.req && i.gnt
        case WaitGntMis | WaitGnt => i.gnt || pmpErr
        case _ => false
      }
    }

    predicate RdataUpdate(i: Input) {
      FirstDone(i) && !we
    }

    function Next(i: Input): State {
      State(
        NextFsm(i), NextHandleMisaligned(i), NextPmpErr(i), NextLsuErr(i),
        if RdataUpdate(i) then Upper(i.rdata.b1, i.rdata.b2, i.rdata.b3) else rdata,
        if CtrlUpdate(i) then Adder(i) % 4 else offset,
        if CtrlUpdate(i) then i.access.size else size,
        if CtrlUpdate(i) then i.access.signExt else signExt,
        if CtrlUpdate(i) then i.access.we else we,
        if AddrUpdate(i) then (if AddrIncrReq() then DataAddr(i) else Adder(i)) else addrLast)
    }

    // ---------------------------------------------------------------- outputs to the pipeline

    predicate DataOrPmpErr(i: Input) {
      lsuErr || i.busErr || pmpErr
    }

    predicate RespValid(i: Input) {
      (i.rvalid || pmpErr) && fsm.Idle?
    }

    predicate LoadErr(i: Input) {
      DataOrPmpErr(i) && !we && RespValid(i)
    }

    predicate StoreErr(i: Input) {
      DataOrPmpErr(i) && we && RespValid(i)
    }

    predicate RdataValid(i: Input) {
      fsm.Idle? && i.rvalid && !DataOrPmpErr(i) && !we && !i.intgErr
    }

    predicate ReqDone(i: Input) {
      (i.req || !fsm.Idle?) && NextFsm(i).Idle?
    }

    function WordExt(d: Word): Word {
      match offset {
        case 0 => d
        case 1 => Word(rdata.b1, rdata.b2, rdata.b3, d.b0)
        case 2 => Word(rdata.b2, rdata.b3, d.b0, d.b1)
        case _ => Word(rdata.b3, d.b0, d.b1, d.b2)
      }
    }

    function HalfExt(d: Word): Word {
      match offset {
        case 0 => Word(d.b0, d.b1, Extension(d.b1, signExt), Extension(d.b1, signExt))
        case 1 => Word(d.b1, d.b2, Extension(d.b2, signExt), Extension(d.b2, signExt))
        case 2 => Word(d.b2, d.b3, Extension(d.b3, signExt), Extension(d.b3, signExt))
        case _ => Word(rdata.b3, d.b0, Extension(d.b0, signExt), Extension(d.b0, signExt))
      }
    }

    function ByteExt(d: Word): Word {
      var b := match offset { case 0 => d.b0 case 1 => d.b1 case 2 => d.b2 case _ => d.b3 };
      Word(b, Extension(b, signExt), Extension(b, signExt), Extension(b, signExt))
    }

    function Rdata(i: Input): Word {
      match size {
        case WordAccess => WordExt(i.rdata)
        case HalfAccess => HalfExt(i.rdata)
        case ByteAccess => ByteExt(i.rdata)
      }
    }
  }

  function ResetState(): State {
    State(Idle, false, false, false, Upper(0, 0, 0), 0, WordAccess, false, false, 0)
  }

  /** The module's registers, loaded under their enables at the clock edge. */
  class Registers {
    var fsm: Fsm
    var handleMisaligned: bool
    var pmpErr: bool
    var lsuErr: bool
    var rdata: Upper
    var offset: nat
    var size: Size
    var signExt: bool
    var we: bool
    var addrLast: nat

    ghost function Values(): State
      reads this
    {
      State(fsm, handleMisaligned, pmpErr, lsuErr, rdata, offset, size, signExt, we, addrLast)
    }

    constructor ()
      ensures Values() == ResetState()
      ensures fsm == Idle && !handleMisaligned && !pmpErr && !lsuErr && !we && !signExt
      ensures rdata == Upper(0, 0, 0) && addrLast == offset == 0 && size == WordAccess
    {
      fsm, handleMisaligned, pmpErr, lsuErr := Idle, false, false, false;
      rdata, addrLast := Upper(0, 0, 0), 0;
      offset, size, signExt, we := 0, WordAccess, false, false;
    }

    /** The combinational block: defaults first, then what the state decides. */
    method Decide(i: Input, split: bool)
      returns (next: Fsm, handle: bool, pmp: bool, err: bool, addr: bool, ctrl: bool, data: bool)
      requires split == Values().Split(i)
      ensures next == Values().NextFsm(i) && handle == Values().NextHandleMisaligned(i)
      ensures pmp == Values().NextPmpErr(i) && err == Values().NextLsuErr(i)
      ensures addr == Values().AddrUpdate(i) && ctrl == Values().CtrlUpdate(i) && data == Values().RdataUpdate(i)
    {
      next, handle, pmp, err := fsm, handleMisaligned, pmpErr, lsuErr;
      addr, ctrl, data := false, false, false;
      match fsm {
        case Idle =>
          pmp := false;
          if i.req {
            pmp, err := i.pmpErr, false;
            if i.gnt {
              ctrl, addr, handle := true, true, split;
              next := if split then WaitRvalidMis else Idle;
            } else {
              next := if split then WaitGntMis else WaitGnt;
            }
          }
        case WaitGntMis =>
          if i.gnt || pmpErr {
            addr, ctrl, handle, next := true, true, true, WaitRvalidMis;
          }
        case WaitRvalidMis =>
          if i.rvalid || pmpErr {
            pmp, err, data := i.pmpErr, i.busErr || pmpErr, !we;
            next := if i.gnt then Idle else WaitGnt;
            addr := i.gnt && !(i.busErr || pmpErr);
            handle := !i.gnt;
          } else if i.gnt {
            next, handle := WaitRvalidMisGntsDone, false;
          }
        case WaitGnt =>
          if i.gnt || pmpErr {
            ctrl, addr, next, handle := true, !lsuErr, Idle, false;
          }
        case WaitRvalidMisGntsDone =>
          if i.rvalid {
            pmp, err, addr, data, next := i.pmpErr, i.busErr, !i.busErr, !we, Idle;
          }
      }
    }

    /** All registers take their next values at once. */
    method Load(next: State)
      modifies this
      ensures Values() == next
    {
      fsm, handleMisaligned, pmpErr, lsuErr := next.fsm, next.handleMisaligned, next.pmpErr, next.lsuErr;
      rdata, addrLast := next.rdata, next.addrLast;
      offset, size, signExt, we := next.offset, next.size, next.signExt, next.we;
    }

    /** The address adder of the ID stage. */
    method Address(i: Input) returns (incr: bool, adder: nat, split: bool)
      ensures incr == Values().AddrIncrReq() && adder == Values().Adder(i) && split == Values().Split(i)
    {
      incr := fsm.WaitRvalidMis? || fsm.WaitRvalidMisGntsDone? || (fsm.WaitGnt? && handleMisaligned);
      adder := if incr then (addrLast + 4) % SPACE else i.access.addr;
      split := SplitMisaligned(i.access.size, adder % 4);
    }

    method Clock(i: Input)
      modifies this
      ensures Values() == old(Values()).Next(i)
    {
      var incr, adder, split := Address(i);
      var next, handle, pmp, err, addr, ctrl, data := Decide(i, split);
      NextIs(Values(), i, incr, adder, next, handle, pmp, err, addr, ctrl, data);
      Load(State(
        next, handle, pmp, err,
        if data then Upper(i.rdata.b1, i.rdata.b2, i.rdata.b3) else rdata,
        if ctrl then adder % 4 else offset,
        if ctrl then i.access.size else size,
        if ctrl then i.access.signExt else signExt,
        if ctrl then i.access.we else we,
        if addr then (if incr then Aligned(adder) else adder) else addrLast));
    }
  }

  lemma NextIs(s: State, i: Input, incr: bool, adder: nat,
               next: Fsm, handle: bool, pmp: bool, err: bool, addr: bool, ctrl: bool, data: bool)
    requires incr == s.AddrIncrReq() && adder == s.Adder(i)
    requires next == s.NextFsm(i) && handle == s.NextHandleMisaligned(i)
    requires pmp == s.NextPmpErr(i) && err == s.NextLsuErr(i)
    requires addr == s.AddrUpdate(i) && ctrl == s.CtrlUpdate(i) && data == s.RdataUpdate(i)
    ensures s.Next(i) == State(
      next, handle, pmp, err,
      if data then Upper(i.rdata.b1, i.rdata.b2, i.rdata.b3) else s.rdata,
      if ctrl then adder % 4 else s.offset,
      if ctrl then i.access.size else s.size,
      if ctrl then i.access.signExt else s.signExt,
      if ctrl then i.access.we else s.we,
      if addr then (if incr then Aligned(adder) else adder) else s.addrLast)
  {
  }
}
