/** What the controller of rtl/ibex_controller.sv answers to interrupts, debug requests and instructions that need it,
    in terms of its inputs and of the registers that traps change. */
module TrapEntry {
  import opened TrapCsrs
  import opened Controller
  import opened Traps

  /** Instructions the controller has to deal with: exceptions, returns, sleep and flushes. */
  predicate Special(i: Input) {
    i.storeErr || i.loadErr || (i.instrValid && (i.excInstr || i.mret || i.dret || i.wfi || i.csrFlush))
  }

  // ------------------------------------------------------------------ between instructions

  /** No instruction in ID, and nothing to wait for or to report in writeback. */
  predicate Rests(i: Input) {
    !i.instrValid && !i.stall && i.readyWb && !i.storeErr && !i.loadErr && i.write.NoWrite?
  }

  /** Debug mode is asked for, by request, by the step before or by a trigger. */
  predicate DebugAsked(s: System, i: Input) {
    !s.ctrl.debugMode && (i.debugReq || s.ctrl.doSingleStep || i.triggerMatch)
  }

  /** Interrupts are attended to outside debug mode, NMI mode and stepping. */
  predicate Attends(s: System, i: Input) {
    !s.ctrl.debugMode && !s.ctrl.nmiMode && !i.singleStep
  }

  predicate NmiAsked(s: System, i: Input) {
    i.irqNmExt || s.ctrl.intgPending
  }

  /** A maskable interrupt counts in U-mode, and in M-mode if mie is set. */
  predicate IrqAsked(s: System, i: Input) {
    i.irqPending && (s.csrs.priv == PrivU || s.csrs.status.mie)
  }

  /** What a trap leaves: M-mode with interrupts disabled, the state before saved, and that saved before stacked. */
  function Entered(c: TrapCsrs.State, pc: nat, cause: Cause, tval: nat): TrapCsrs.State {
    TrapCsrs.State.State(PrivM, Status(false, c.status.mie, c.priv, c.status.mprv, c.status.tw), pc, cause, tval,
                         StackedStatus(c.status.mpie, c.status.mpp), c.epc, c.cause, c.dcsrPrv, c.depc)
  }

  /** What entry to debug mode leaves. */
  function Halted(c: TrapCsrs.State, pc: nat): TrapCsrs.State {
    c.(priv := PrivM, dcsrPrv := c.priv, depc := pc)
  }

  /** Nothing happens to the registers, and the next state is the given. */
  ghost predicate Turns(s: System, i: Input, fsm: Fsm) {
    s.Next(i).csrs == s.csrs && s.Next(i).ctrl.fsm == fsm && s.Next(i).ctrl.debugMode == s.ctrl.debugMode
    && s.Next(i).ctrl.nmiMode == s.ctrl.nmiMode
  }

  /** Between instructions debug requests come before interrupts. */
  lemma AtRest(s: System, i: Input)
    requires s.ctrl.fsm == Decode && Rests(i)
    ensures Turns(s, i,
      if DebugAsked(s, i) then DbgTakenIf
      else if Attends(s, i) && (NmiAsked(s, i) || IrqAsked(s, i)) then IrqTaken
      else Decode)
  {
  }

  /** So do they before the first instruction. */
  lemma AtFirstFetch(s: System, i: Input)
    requires s.ctrl.fsm == FirstFetch && Rests(i)
    ensures Turns(s, i,
      if DebugAsked(s, i) then DbgTakenIf
      else if Attends(s, i) && (NmiAsked(s, i) || IrqAsked(s, i)) then IrqTaken
      else if i.idReady then Decode
      else FirstFetch)
  {
  }

  /** In the cycle after: an external non-maskable interrupt comes before one for a memory error, and that before a
      maskable one. If none is asked for any more nothing happens. */
  lemma Taken(s: System, i: Input)
    requires s.ctrl.fsm == IrqTaken && i.write.NoWrite?
    ensures s.Next(i).ctrl.fsm == Decode && s.Next(i).ctrl.debugMode == s.ctrl.debugMode
    ensures s.Next(i).ctrl.nmiMode == (s.ctrl.nmiMode || (Attends(s, i) && NmiAsked(s, i)))
    ensures s.Next(i).csrs ==
      if !Attends(s, i) then s.csrs
      else if i.irqNmExt then Entered(s.csrs, i.pcIf, Cause(true, false, 31), 0)
      else if s.ctrl.intgPending then Entered(s.csrs, i.pcIf, Cause(false, true, 0), s.ctrl.intgAddr)
      else if IrqAsked(s, i) then Entered(s.csrs, i.pcIf, i.irqCause, 0)
      else s.csrs
  {
  }

  /** A maskable interrupt is taken only in U-mode or with mie set, outside debug mode, NMI mode and stepping. */
  lemma MaskedStaysOut(s: System, i: Input)
    requires s.ctrl.fsm == IrqTaken && i.write.NoWrite? && !i.irqNmExt && !s.ctrl.intgPending
    ensures s.Next(i).csrs != s.csrs ==>
      && i.irqPending && (s.csrs.priv == PrivU || s.csrs.status.mie)
      && !s.ctrl.debugMode && !s.ctrl.nmiMode && !i.singleStep
  {
  }

  /** From rest an enabled interrupt that stays pending is taken in two cycles, and one that is not is not. */
  lemma EnabledIsTaken(s: System, i: Input, i': Input)
    requires s.ctrl.fsm == Decode && Rests(i) && i'.write.NoWrite? && Attends(s, i) && !i'.singleStep
    requires !i.debugReq && !i.triggerMatch && !s.ctrl.doSingleStep
    requires !NmiAsked(s, i) && !i'.irqNmExt && !i.memIntgErr && i.irqPending && i'.irqPending
    ensures var t := s.Next(i).Next(i');
      if s.csrs.priv == PrivU || s.csrs.status.mie then
        && t.csrs.epc == i'.pcIf && t.csrs.cause == i'.irqCause && t.csrs.priv == PrivM && !t.csrs.status.mie
        && t.csrs.status.mpie == s.csrs.status.mie && t.csrs.status.mpp == s.csrs.priv && !t.ctrl.nmiMode
      else t.csrs == s.csrs
  {
    AtRest(s, i);
  }

  /** An external non-maskable interrupt is taken in two cycles whatever is enabled. */
  lemma NmiIsTaken(s: System, i: Input, i': Input)
    requires s.ctrl.fsm == Decode && Rests(i) && i'.write.NoWrite? && Attends(s, i) && !i'.singleStep
    requires !i.debugReq && !i.triggerMatch && !s.ctrl.doSingleStep && i.irqNmExt && i'.irqNmExt
    ensures var t := s.Next(i).Next(i');
      t.csrs == Entered(s.csrs, i'.pcIf, Cause(true, false, 31), 0) && t.ctrl.nmiMode
  {
    AtRest(s, i);
  }

  /** So is one for a memory error, with the address of the access, and its latch is free again. */
  lemma ErrorIsTaken(s: System, i: Input, i': Input)
    requires s.ctrl.fsm == Decode && Rests(i) && i'.write.NoWrite? && Attends(s, i) && !i'.singleStep
    requires !i.debugReq && !i.triggerMatch && !s.ctrl.doSingleStep && !i.irqNmExt && !i'.irqNmExt && s.ctrl.intgPending
    ensures var t := s.Next(i).Next(i');
      && t.csrs == Entered(s.csrs, i'.pcIf, Cause(false, true, 0), s.ctrl.intgAddr)
      && t.ctrl.nmiMode && !t.ctrl.intgPending
  {
    AtRest(s, i);
  }

  // ------------------------------------------------------------------ debug mode

  /** A debug request between instructions is answered in two cycles, before any interrupt. */
  lemma DebugIsEntered(s: System, i: Input, i': Input)
    requires s.ctrl.fsm == Decode && Rests(i) && i'.write.NoWrite? && DebugAsked(s, i)
    ensures var t := s.Next(i).Next(i');
      && t.csrs == Halted(s.csrs, i'.pcIf) && t.ctrl.debugMode && t.ctrl.nmiMode == s.ctrl.nmiMode
      && t.ctrl.fsm == Decode
  {
    AtRest(s, i);
  }

  /** After an instruction executed in single-step mode the core enters debug mode, with the address of the next. */
  lemma StepsOnce(s: System, step: Input, i: Input, i': Input)
    requires s.ctrl.fsm == Decode && !s.ctrl.debugMode && step.instrValid && step.singleStep && !Special(step)
    requires step.write.NoWrite? && Rests(i) && i'.write.NoWrite?
    ensures var t := s.Next(step).Next(i).Next(i'); t.csrs == Halted(s.csrs, i'.pcIf) && t.ctrl.debugMode
  {
    assert Turns(s, step, Decode);
    DebugIsEntered(s.Next(step), i, i');
  }

  // ------------------------------------------------------------------ instructions

  /** The controller waits for writeback and then flushes; the instruction does not make it write CSRs yet. */
  lemma Flushes(s: System, i: Input)
    requires s.ctrl.fsm == Decode && Special(i) && i.write.NoWrite?
    ensures Turns(s, i, if i.readyWb || i.wbException then Flush else Decode)
    ensures var c := s.Next(i).ctrl;
      && (c.excReq <==> i.excInstr && i.instrValid) && c.storeErr == i.storeErr && c.loadErr == i.loadErr
      && (c.enterDebugPrio <==>
            !s.ctrl.debugMode && (i.debugReq || if i.instrValid then i.singleStep else s.ctrl.doSingleStep))
  {
  }

  /** Anything else runs on. */
  lemma RunsOn(s: System, i: Input)
    requires s.ctrl.fsm == Decode && !Special(i) && i.write.NoWrite? && (i.instrValid || i.stall || !i.readyWb)
    ensures Turns(s, i, Decode)
  {
  }

  /** An exception, or an error of the access in writeback, was found. */
  predicate Faulted(c: Controller.State) {
    c.excReq || c.storeErr || c.loadErr
  }

  /** ebreak leads to debug mode, again or where that is configured. */
  predicate BreaksIntoDebug(s: System, i: Input) {
    i.ebreak && (s.ctrl.debugMode || i.ebreakIntoDebug)
  }

  /** What the flush does: exceptions come first, and save the address of the instruction that caused them. */
  lemma ExceptionIsTaken(s: System, i: Input)
    requires s.ctrl.fsm == Flush && Faulted(s.ctrl) && !BreaksIntoDebug(s, i) && i.write.NoWrite?
    ensures var pc := if i.writebackStage && (s.ctrl.storeErr || s.ctrl.loadErr) then i.pcWb else i.pcId;
      s.Next(i).csrs ==
        if s.ctrl.debugMode then s.csrs.(priv := PrivM) else Entered(s.csrs, pc, i.excCause, i.excTval)
    ensures s.Next(i).ctrl.nmiMode == s.ctrl.nmiMode && s.Next(i).ctrl.debugMode == s.ctrl.debugMode
    ensures s.Next(i).ctrl.fsm ==
      if s.ctrl.enterDebugPrio && !(i.ebreak && i.ebreakIntoDebug) then DbgTakenIf else Decode
  {
  }

  lemma EbreakIsTaken(s: System, i: Input)
    requires s.ctrl.fsm == Flush && Faulted(s.ctrl) && BreaksIntoDebug(s, i) && i.write.NoWrite?
    ensures Turns(s, i, if s.ctrl.enterDebugPrio && !i.ebreakIntoDebug then DbgTakenIf else DbgTakenId)
  {
  }

  /** And then debug mode is entered, at the address of the ebreak unless it was executed in debug mode. */
  lemma EbreakEnters(s: System, i: Input)
    requires s.ctrl.fsm == DbgTakenId && i.write.NoWrite?
    ensures s.Next(i).ctrl.debugMode && s.Next(i).ctrl.fsm == Decode && s.Next(i).ctrl.nmiMode == s.ctrl.nmiMode
    ensures s.Next(i).csrs == if i.ebreakIntoDebug && !s.ctrl.debugMode then Halted(s.csrs, i.pcId) else s.csrs
  {
  }

  /** Without an exception mret takes back what the last trap saved, dret leaves debug mode, and wfi goes to sleep. */
  lemma OthersAreExecuted(s: System, i: Input)
    requires s.ctrl.fsm == Flush && !Faulted(s.ctrl) && i.write.NoWrite?
    ensures var t := s.Next(i);
      && (if i.instrValid && i.mret then
            t.csrs.priv == s.csrs.status.mpp && t.csrs.status.mie == s.csrs.status.mpie && !t.ctrl.nmiMode
          else t.ctrl.nmiMode == s.ctrl.nmiMode)
      && (i.instrValid && !i.mret && i.dret ==> t.csrs == s.csrs.(priv := s.csrs.dcsrPrv))
      && (t.ctrl.debugMode <==> s.ctrl.debugMode && !(i.instrValid && !i.mret && i.dret))
      && (!i.instrValid || (!i.mret && !i.dret) ==> t.csrs == s.csrs)
      && t.ctrl.fsm ==
           if s.ctrl.enterDebugPrio && !(i.ebreak && i.ebreakIntoDebug) then DbgTakenIf
           else if i.instrValid && i.wfi && !i.mret && !i.dret then WaitSleep
           else Decode
  {
  }

  /** An exception in ID is taken in two cycles if no earlier access is at fault. */
  lemma FaultIsTaken(s: System, i: Input, i': Input)
    requires s.ctrl.fsm == Decode && !s.ctrl.debugMode && i.write.NoWrite? && i'.write.NoWrite?
    requires i.instrValid && i.excInstr && !i.storeErr && !i.loadErr && i.readyWb && !BreaksIntoDebug(s, i')
    ensures s.Next(i).Next(i').csrs == Entered(s.csrs, i'.pcId, i'.excCause, i'.excTval)
    ensures s.Next(i).Next(i').ctrl.nmiMode == s.ctrl.nmiMode
  {
    Flushes(s, i);
    ExceptionIsTaken(s.Next(i), i');
  }

  /** An error of the access in writeback is taken before it. */
  lemma AccessFaultIsTaken(s: System, i: Input, i': Input)
    requires s.ctrl.fsm == Decode && !s.ctrl.debugMode && i.write.NoWrite? && i'.write.NoWrite?
    requires (i.storeErr || i.loadErr) && (i.readyWb || i.wbException) && i'.writebackStage && !BreaksIntoDebug(s, i')
    ensures s.Next(i).Next(i').csrs == Entered(s.csrs, i'.pcWb, i'.excCause, i'.excTval)
  {
    Flushes(s, i);
    ExceptionIsTaken(s.Next(i), i');
  }

  // ------------------------------------------------------------------ sleep

  /** Reasons to wake: any interrupt, enabled or not, and debug and stepping, where wfi is no sleep. */
  predicate Wakes(s: System, i: Input) {
    i.irqNmExt || s.ctrl.intgPending || i.irqPending || i.debugReq || i.singleStep || s.ctrl.debugMode
  }

  /** Asleep the core stays so, with its registers, until it has a reason to wake. */
  lemma Sleeps(s: System, i: Input)
    requires s.ctrl.fsm == Sleep && i.write.NoWrite?
    ensures Turns(s, i, if Wakes(s, i) then FirstFetch else Sleep)
  {
  }

  lemma FallsAsleep(s: System, i: Input)
    requires s.ctrl.fsm == WaitSleep && i.write.NoWrite?
    ensures Turns(s, i, Sleep)
  {
  }

  /** wfi: until a reason comes it sleeps, however long. */
  lemma {:induction false} SleepsOn(s: System, inputs: seq<Input>)
    requires s.ctrl.fsm == Sleep && forall k | 0 <= k < |inputs| :: inputs[k].write.NoWrite?
    requires forall k | 0 <= k < |inputs| :: !Wakes(s, inputs[k]) && !inputs[k].memIntgErr
    ensures var t := Run(s, inputs); t.ctrl.fsm == Sleep && t.csrs == s.csrs
    decreases |inputs|
  {
    if inputs != [] {
      Sleeps(s, inputs[0]);
      var n := s.Next(inputs[0]);
      assert !n.ctrl.intgPending && n.ctrl.debugMode == s.ctrl.debugMode;
      SleepsOn(n, inputs[1..]);
    }
  }
}
