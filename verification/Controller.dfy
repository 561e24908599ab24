/** The controller of rtl/ibex_controller.sv: interrupts, non-maskable interrupt mode, debug mode and
    the latch for memory integrity errors. */
module Controller {
  import opened TrapCsrs

  datatype Fsm =
    | Reset | BootSet | WaitSleep | Sleep | FirstFetch | Decode | Flush | IrqTaken | DbgTakenIf | DbgTakenId

  /** One cycle's inputs. The causes and trap values of exceptions and of maskable interrupts are
      taken as given. */
  datatype Input = Input(
    // interrupts and debug
    irqNmExt: bool, irqPending: bool, irqCause: Cause, debugReq: bool, singleStep: bool, triggerMatch: bool,
    ebreakIntoDebug: bool,
    // the instruction in ID, and the pipeline
    instrValid: bool, excInstr: bool, ebreak: bool, mret: bool, dret: bool, wfi: bool, csrFlush: bool,
    idReady: bool, stall: bool, readyWb: bool, wbException: bool,
    // exceptions
    storeErr: bool, loadErr: bool, excCause: Cause, excTval: nat,
    // memory integrity errors
    memIntgErr: bool, lsuAddrLast: nat,
    // program counters, and whether there is a writeback stage
    pcIf: nat, pcId: nat, pcWb: nat, writebackStage: bool,
    // the CSR write of the instruction in ID
    write: Write)

  const CAUSE_NMI: Cause := Cause(true, false, 31)
  const CAUSE_INTEGRITY: Cause := Cause(false, true, 0)

  datatype State = State(
    fsm: Fsm, nmiMode: bool, debugMode: bool,
    doSingleStep: bool, enterDebugPrio: bool, excReq: bool, storeErr: bool, loadErr: bool,
    intgPending: bool, intgAddr: nat) {

    predicate DoSingleStep(i: Input) {
      if i.instrValid then !debugMode && i.singleStep else doSingleStep
    }

    predicate EnterDebugPrio(i: Input) {
      (i.debugReq || DoSingleStep(i)) && !debugMode
    }

    predicate EnterDebug(i: Input) {
      EnterDebugPrio(i) || (i.triggerMatch && !debugMode)
    }

    predicate ExcReq(i: Input) {
      i.excInstr && i.instrValid && !fsm.Flush?
    }

    predicate SpecialReq(i: Input) {
      ExcReq(i) || i.storeErr || i.loadErr || (i.instrValid && (i.mret || i.dret || i.wfi || i.csrFlush))
    }

    predicate IrqNm(i: Input) {
      i.irqNmExt || intgPending
    }

    predicate HandleIrq(i: Input, csrs: TrapCsrs.State) {
      !debugMode && !i.singleStep && !nmiMode &&
      (IrqNm(i) || (i.irqPending && (csrs.status.mie || csrs.priv.PrivU?)))
    }

    /** A non-maskable interrupt is taken, from outside or for a latched integrity error. */
    predicate TakesNmi(i: Input, csrs: TrapCsrs.State) {
      fsm.IrqTaken? && HandleIrq(i, csrs) && IrqNm(i)
    }

    /** The exception branch of the flush state, and whether it ends in debug mode instead. */
    predicate Excepting() {
      fsm.Flush? && (excReq || storeErr || loadErr)
    }

    predicate EbreakToDebug(i: Input) {
      i.ebreak && (debugMode || i.ebreakIntoDebug)
    }

    /** A return from a trap, or from debug mode, is executed. */
    predicate Returning(i: Input) {
      fsm.Flush? && !Excepting() && i.instrValid && i.mret
    }

    predicate LeavingDebug(i: Input) {
      fsm.Flush? && !Excepting() && i.instrValid && !i.mret && i.dret
    }

    /** What is asked of the CSRs. */
    function Act(i: Input, csrs: TrapCsrs.State): Action {
      match fsm {
        case IrqTaken =>
          if !HandleIrq(i, csrs) then NoAction
          else if IrqNm(i) then
            if i.irqNmExt then Save(i.pcIf, CAUSE_NMI, 0, false) else Save(i.pcIf, CAUSE_INTEGRITY, intgAddr, false)
          else Save(i.pcIf, i.irqCause, 0, false)
        case DbgTakenIf => Save(i.pcIf, Cause(false, false, 0), 0, true)
        case DbgTakenId =>
          if i.ebreakIntoDebug && !debugMode then Save(i.pcId, Cause(false, false, 0), 0, true) else NoAction
        case Flush =>
          if Excepting() then
            if EbreakToDebug(i) then NoAction
            else
              Save(if i.writebackStage && (storeErr || loadErr) then i.pcWb else i.pcId, i.excCause, i.excTval, false)
          else if Returning(i) then Mret
          else if LeavingDebug(i) then Dret
          else NoAction
        case _ => NoAction
      }
    }

    function NextFsm(i: Input, csrs: TrapCsrs.State): Fsm {
      match fsm {
        case Reset => BootSet
        case BootSet => FirstFetch
        case WaitSleep => Sleep
        case Sleep =>
          if IrqNm(i) || i.irqPending || i.debugReq || debugMode || i.singleStep then FirstFetch else Sleep
        case FirstFetch =>
          if EnterDebug(i) then DbgTakenIf
          else if HandleIrq(i, csrs) then IrqTaken
          else if i.idReady then Decode
          else FirstFetch
        case Decode =>
          if SpecialReq(i) then (if i.readyWb || i.wbException then Flush else Decode)
          else if !i.stall && !i.instrValid && i.readyWb then
            if EnterDebug(i) then DbgTakenIf
            else if HandleIrq(i, csrs) then IrqTaken
            else Decode
          else Decode
        case IrqTaken | DbgTakenIf | DbgTakenId => Decode
        case Flush =>
          var ebreakDebug := Excepting() && EbreakToDebug(i);
          if enterDebugPrio && !(i.ebreak && i.ebreakIntoDebug) then DbgTakenIf
          else if ebreakDebug then DbgTakenId
          else if !Excepting() && !Returning(i) && !LeavingDebug(i) && i.instrValid && i.wfi then WaitSleep
          else Decode
      }
    }

    predicate NextNmiMode(i: Input, csrs: TrapCsrs.State) {
      if TakesNmi(i, csrs) then true
      else if Returning(i) then false
      else nmiMode
    }

    predicate NextDebugMode(i: Input) {
      if fsm.DbgTakenIf? || fsm.DbgTakenId? then true
      else if LeavingDebug(i) then false
      else debugMode
    }

    /** The integrity latch is cleared on entering NMI mode unless an external NMI comes first; errors
        that arrive while it is set are ignored. */
    predicate IntgClear(i: Input, csrs: TrapCsrs.State) {
      intgPending && NextNmiMode(i, csrs) && !nmiMode && !i.irqNmExt
    }

    predicate IntgSet(i: Input) {
      !intgPending && i.memIntgErr
    }

    function Next(i: Input, csrs: TrapCsrs.State): State {
      State.State(NextFsm(i, csrs), NextNmiMode(i, csrs), NextDebugMode(i),
            DoSingleStep(i), EnterDebugPrio(i), ExcReq(i), i.storeErr, i.loadErr,
            (intgPending && !IntgClear(i, csrs)) || IntgSet(i),
            if IntgSet(i) then i.lsuAddrLast else intgAddr)
    }
  }

  function ControllerReset(): State {
    State.State(Reset, false, false, false, false, false, false, false, false, 0)
  }

  /** The modes change in few states. */
  lemma ModesKept(s: State, i: Input, csrs: TrapCsrs.State)
    ensures !s.fsm.IrqTaken? && !s.fsm.Flush? ==> s.NextNmiMode(i, csrs) == s.nmiMode
    ensures s.fsm.IrqTaken? ==> s.NextNmiMode(i, csrs) == (s.nmiMode || (s.HandleIrq(i, csrs) && s.IrqNm(i)))
    ensures !s.fsm.DbgTakenIf? && !s.fsm.DbgTakenId? && !s.fsm.Flush? ==> s.NextDebugMode(i) == s.debugMode
  {
  }

  /** The controller's registers. */
  class Registers {
    var fsm: Fsm
    var nmiMode: bool
    var debugMode: bool
    var doSingleStep: bool
    var enterDebugPrio: bool
    var excReq: bool
    var storeErr: bool
    var loadErr: bool
    var intgPending: bool
    var intgAddr: nat

    function Values(): State
      reads this
    {
      State.State(fsm, nmiMode, debugMode, doSingleStep, enterDebugPrio, excReq, storeErr, loadErr,
                  intgPending, intgAddr)
    }

    constructor ()
      ensures Values() == ControllerReset()
      ensures fsm == Reset && !nmiMode && !debugMode && !doSingleStep && !enterDebugPrio
      ensures !excReq && !storeErr && !loadErr && !intgPending && intgAddr == 0
    {
      fsm, nmiMode, debugMode := Reset, false, false;
      doSingleStep, enterDebugPrio := false, false;
      excReq, storeErr, loadErr := false, false, false;
      intgPending, intgAddr := false, 0;
    }

    /** The flush state: exceptions first, then returns, then sleep; a debug request overrides. */
    method FlushState(i: Input, csrs: TrapCsrs.State) returns (next: Fsm, nmi: bool, debug: bool)
      requires fsm.Flush?
      ensures next == Values().NextFsm(i, csrs)
      ensures nmi == Values().NextNmiMode(i, csrs)
      ensures debug == Values().NextDebugMode(i)
    {
      next, nmi, debug := Decode, nmiMode, debugMode;
      if excReq || storeErr || loadErr {
        if i.ebreak && (debugMode || i.ebreakIntoDebug) {
          next := DbgTakenId;
        }
      } else if i.instrValid && i.mret {
        nmi := false;
      } else if i.instrValid && i.dret {
        debug := false;
      } else if i.instrValid && i.wfi {
        next := WaitSleep;
      }
      if enterDebugPrio && !(i.ebreak && i.ebreakIntoDebug) {
        next := DbgTakenIf;
      }
    }

    /** The state machine: defaults first, then what the state decides. */
    method Decide(i: Input, csrs: TrapCsrs.State, handleIrq: bool, enterDebug: bool, special: bool)
      returns (next: Fsm, nmi: bool, debug: bool)
      requires enterDebug == Values().EnterDebug(i) && special == Values().SpecialReq(i)
      requires handleIrq == Values().HandleIrq(i, csrs)
      ensures next == Values().NextFsm(i, csrs)
      ensures nmi == Values().NextNmiMode(i, csrs)
      ensures debug == Values().NextDebugMode(i)
    {
      next, nmi, debug := fsm, nmiMode, debugMode;
      ModesKept(Values(), i, csrs);
      match fsm {
        case Reset => next := BootSet;
        case BootSet => next := FirstFetch;
        case WaitSleep => next := Sleep;
        case Sleep =>
          if i.irqNmExt || intgPending || i.irqPending || i.debugReq || debugMode || i.singleStep {
            next := FirstFetch;
          }
        case FirstFetch =>
          if i.idReady {
            next := Decode;
          }
          if handleIrq {
            next := IrqTaken;
          }
          if enterDebug {
            next := DbgTakenIf;
          }
        case Decode =>
          if special && (i.readyWb || i.wbException) {
            next := Flush;
          }
          if !i.stall && !special && !(i.instrValid || !i.readyWb) {
            if enterDebug {
              next := DbgTakenIf;
            } else if handleIrq {
              next := IrqTaken;
            }
          }
        case IrqTaken =>
          if handleIrq && (i.irqNmExt || intgPending) && !nmiMode {
            nmi := true;
          }
          next := Decode;
        case DbgTakenIf =>
          debug, next := true, Decode;
        case DbgTakenId =>
          debug, next := true, Decode;
        case Flush =>
          next, nmi, debug := FlushState(i, csrs);
      }
    }

    /** The latch for memory integrity errors. */
    method Latch(i: Input, csrs: TrapCsrs.State, nmi: bool) returns (pending: bool, addr: nat)
      requires nmi == Values().NextNmiMode(i, csrs)
      ensures pending == ((intgPending && !Values().IntgClear(i, csrs)) || Values().IntgSet(i))
      ensures addr == if Values().IntgSet(i) then i.lsuAddrLast else intgAddr
    {
      pending, addr := intgPending, intgAddr;
      if intgPending {
        if nmi && !nmiMode && !i.irqNmExt {
          pending := false;
        }
      } else if i.memIntgErr {
        addr := i.lsuAddrLast;
        pending := true;
      }
    }

    method Load(next: State)
      modifies this
      ensures Values() == next
    {
      fsm, nmiMode, debugMode := next.fsm, next.nmiMode, next.debugMode;
      doSingleStep, enterDebugPrio := next.doSingleStep, next.enterDebugPrio;
      excReq, storeErr, loadErr := next.excReq, next.storeErr, next.loadErr;
      intgPending, intgAddr := next.intgPending, next.intgAddr;
    }

    method Clock(i: Input, csrs: TrapCsrs.State)
      modifies this
      ensures Values() == old(Values()).Next(i, csrs)
    {
      var s := Values();
      var next, nmi, debug := Decide(i, csrs, s.HandleIrq(i, csrs), s.EnterDebug(i), s.SpecialReq(i));
      var pending, addr := Latch(i, csrs, nmi);
      var step, prio, exc := s.DoSingleStep(i), s.EnterDebugPrio(i), s.ExcReq(i);
      NextIs(s, i, csrs, next, nmi, debug, step, prio, exc, pending, addr);
      Load(State.State(next, nmi, debug, step, prio, exc, i.storeErr, i.loadErr, pending, addr));
    }
  }

  lemma NextIs(s: State, i: Input, csrs: TrapCsrs.State, next: Fsm, nmi: bool, debug: bool,
               step: bool, prio: bool, exc: bool, pending: bool, addr: nat)
    requires next == s.NextFsm(i, csrs) && nmi == s.NextNmiMode(i, csrs) && debug == s.NextDebugMode(i)
    requires step == s.DoSingleStep(i) && prio == s.EnterDebugPrio(i) && exc == s.ExcReq(i)
    requires pending == ((s.intgPending && !s.IntgClear(i, csrs)) || s.IntgSet(i))
    requires addr == if s.IntgSet(i) then i.lsuAddrLast else s.intgAddr
    ensures s.Next(i, csrs) == State.State(next, nmi, debug, step, prio, exc, i.storeErr, i.loadErr, pending, addr)
  {
  }
}
