/** The controller with its registers over whole runs: what a non-maskable interrupt leaves
    recoverable, and that every memory integrity error is reported once. */
module Traps {
  import opened TrapCsrs
  import opened Controller
  import TrapStack

  datatype System = System(ctrl: Controller.State, csrs: TrapCsrs.State) {

    function Action(i: Input): Action {
      ctrl.Act(i, csrs)
    }

    function Next(i: Input): System {
      System(ctrl.Next(i, csrs), csrs.Next(i.write, Action(i), ctrl.nmiMode, ctrl.debugMode))
    }
  }

  function Initial(): System {
    System(ControllerReset(), ResetState())
  }

  ghost function Run(s: System, inputs: seq<Input>): System
    decreases |inputs|
  {
    if inputs == [] then s else Run(s.Next(inputs[0]), inputs[1..])
  }

  // ------------------------------------------------------------------ privileges

  lemma LegalStep(c: TrapCsrs.State, w: Write, a: Action, nmiMode: bool, debugMode: bool)
    requires c.Legal()
    ensures c.Next(w, a, nmiMode, debugMode).Legal()
  {
  }

  /** In every reachable state the privilege and all its stored copies are M or U. */
  lemma {:induction false} PrivilegesExist(s: System, inputs: seq<Input>)
    requires s.csrs.Legal()
    ensures Run(s, inputs).csrs.Legal()
    decreases |inputs|
  {
    if inputs != [] {
      LegalStep(s.csrs, inputs[0].write, s.Action(inputs[0]), s.ctrl.nmiMode, s.ctrl.debugMode);
      PrivilegesExist(s.Next(inputs[0]), inputs[1..]);
    }
  }

  lemma ReachablePrivileges(inputs: seq<Input>)
    ensures Run(Initial(), inputs).csrs.Legal()
  {
    PrivilegesExist(Initial(), inputs);
  }

  // ------------------------------------------------------------------ the trap stack

  /** Neither a trap or return nor a write to the registers the stack holds. */
  ghost predicate Quiet(s: System, i: Input) {
    s.Action(i) == NoAction && !i.write.WriteStatus? && !i.write.WriteEpc? && !i.write.WriteCause?
  }

  ghost predicate AllQuiet(s: System, inputs: seq<Input>)
    decreases |inputs|
  {
    inputs == [] || (Quiet(s, inputs[0]) && AllQuiet(s.Next(inputs[0]), inputs[1..]))
  }

  /** The registers that traps and returns use agree. */
  ghost predicate SameStack(s: System, t: System) {
    && t.csrs.priv == s.csrs.priv && t.csrs.status == s.csrs.status
    && t.csrs.epc == s.csrs.epc && t.csrs.cause == s.csrs.cause
    && t.csrs.stack == s.csrs.stack && t.csrs.stackEpc == s.csrs.stackEpc && t.csrs.stackCause == s.csrs.stackCause
    && t.ctrl.nmiMode == s.ctrl.nmiMode
  }

  lemma {:induction false} QuietKeeps(s: System, inputs: seq<Input>)
    requires AllQuiet(s, inputs)
    ensures SameStack(s, Run(s, inputs))
    decreases |inputs|
  {
    if inputs != [] {
      QuietKeeps(s.Next(inputs[0]), inputs[1..]);
    }
  }

  /** A return with nothing else in the cycle; the next program counter is the saved one. */
  ghost predicate Returns(s: System, i: Input) {
    s.Action(i).Mret? && !i.write.WriteStatus? && !i.write.WriteEpc? && !i.write.WriteCause?
  }

  function ReturnAddress(s: System): nat {
    s.csrs.epc
  }

  /** A trap other than into debug mode, outside debug mode, with no write in the same cycle. */
  ghost predicate Traps(s: System, i: Input) {
    s.Action(i).Save? && !s.Action(i).debug && !s.ctrl.debugMode &&
    !i.write.WriteStatus? && !i.write.WriteEpc? && !i.write.WriteCause?
  }

  ghost predicate TakesNmi(s: System, i: Input) {
    s.ctrl.TakesNmi(i, s.csrs) && Traps(s, i)
  }

  /** An exception or a maskable interrupt, taken outside debug mode. In NMI mode it is an exception. */
  ghost predicate TakesTrap(s: System, i: Input) {
    !s.ctrl.TakesNmi(i, s.csrs) && Traps(s, i)
  }

  /** Non-maskable interrupts are taken only outside debug mode and outside each other, and the saved
      program counter is that of the fetch stage. */
  lemma NmiEntry(s: System, i: Input)
    requires s.ctrl.TakesNmi(i, s.csrs)
    ensures !s.ctrl.nmiMode && !s.ctrl.debugMode && s.Next(i).ctrl.nmiMode
    ensures s.Action(i).Save? && s.Action(i).pc == i.pcIf && !s.Action(i).debug
  {
  }

  /** Quiet cycles and then an exception, or a maskable interrupt, lead from one state to the other. */
  ghost predicate Faults(s: System, body: seq<Input>, i: Input, t: System) {
    AllQuiet(s, body) && TakesTrap(Run(s, body), i) && t == Run(s, body).Next(i)
  }

  /** Quiet cycles and then a return lead from one state to the other. */
  ghost predicate Leaves(s: System, body: seq<Input>, i: Input, t: System) {
    AllQuiet(s, body) && Returns(Run(s, body), i) && t == Run(s, body).Next(i)
  }

  ghost function FaultAddress(s: System, body: seq<Input>, i: Input): nat
    requires Faults(s, body, i, Run(s, body).Next(i))
  {
    Run(s, body).Action(i).pc
  }

  lemma NmiEffect(s: System, i: Input)
    requires TakesNmi(s, i)
    ensures var t := s.Next(i);
      && t.ctrl.nmiMode && t.csrs.priv == PrivM && t.csrs.epc == i.pcIf
      && t.csrs.status == s.csrs.status.(mie := false, mpie := s.csrs.status.mie, mpp := s.csrs.priv)
      && t.csrs.stack == StackedStatus(s.csrs.status.mpie, s.csrs.status.mpp)
      && t.csrs.stackEpc == s.csrs.epc && t.csrs.stackCause == s.csrs.cause
  {
  }

  lemma FaultEffect(s: System, body: seq<Input>, i: Input, t: System)
    requires Faults(s, body, i, t)
    ensures t.ctrl.nmiMode == s.ctrl.nmiMode && t.csrs.priv == PrivM && t.csrs.epc == FaultAddress(s, body, i)
    ensures !t.csrs.status.mie && t.csrs.status.mpie == s.csrs.status.mie && t.csrs.status.mpp == s.csrs.priv
    ensures t.csrs.stack == StackedStatus(s.csrs.status.mpie, s.csrs.status.mpp) && t.csrs.stackEpc == s.csrs.epc
  {
    QuietKeeps(s, body);
  }

  lemma LeaveEffect(s: System, body: seq<Input>, i: Input, t: System)
    requires Leaves(s, body, i, t)
    ensures ReturnAddress(Run(s, body)) == s.csrs.epc && !t.ctrl.nmiMode
    ensures t.csrs.priv == s.csrs.status.mpp && t.csrs.status.mie == s.csrs.status.mpie
    ensures if s.ctrl.nmiMode then
              && t.csrs.status.mpie == s.csrs.stack.mpie && t.csrs.status.mpp == s.csrs.stack.mpp
              && t.csrs.epc == s.csrs.stackEpc
            else
              t.csrs.status.mpie && t.csrs.status.mpp == PrivU && t.csrs.epc == s.csrs.epc
  {
    QuietKeeps(s, body);
  }

  lemma NmiLeaves(s: System, body: seq<Input>, i: Input, t: System)
    requires Leaves(s, body, i, t) && s.ctrl.nmiMode
    ensures ReturnAddress(Run(s, body)) == s.csrs.epc && !t.ctrl.nmiMode
    ensures t.csrs.priv == s.csrs.status.mpp && t.csrs.epc == s.csrs.stackEpc && t.csrs.cause == s.csrs.stackCause
    ensures t.csrs.status == Status(s.csrs.status.mpie, s.csrs.stack.mpie, s.csrs.stack.mpp,
                                    s.csrs.status.mprv && s.csrs.status.mpp.PrivM?, s.csrs.status.tw)
  {
    QuietKeeps(s, body);
  }

  /** Entry to a non-maskable interrupt and return from it restore everything the interrupted code
      could see: privilege, interrupt enables, the previous privilege, exception program counter and
      cause; mprv too if the code ran in M-mode or mprv was clear. It resumes where it was. */
  lemma NmiIsTransparent(s: System, entry: Input, body: seq<Input>, exit: Input, t: System)
    requires TakesNmi(s, entry) && Leaves(s.Next(entry), body, exit, t)
    ensures ReturnAddress(Run(s.Next(entry), body)) == entry.pcIf && !t.ctrl.nmiMode
    ensures t.csrs.priv == s.csrs.priv && t.csrs.epc == s.csrs.epc && t.csrs.cause == s.csrs.cause
    ensures t.csrs.status.(mprv := s.csrs.status.mprv) == s.csrs.status
    ensures t.csrs.status.mprv == s.csrs.status.mprv <==> s.csrs.priv.PrivM? || !s.csrs.status.mprv
  {
    NmiEffect(s, entry);
    NmiLeaves(s.Next(entry), body, exit, t);
  }

  /** An ordinary trap and its return restore privilege and interrupt enable, and the code resumes. */
  lemma TrapReturns(s: System, entry: Input, body: seq<Input>, exit: Input, t: System)
    requires Traps(s, entry) && !s.ctrl.TakesNmi(entry, s.csrs) && !s.ctrl.nmiMode
    requires Leaves(s.Next(entry), body, exit, t)
    ensures ReturnAddress(Run(s.Next(entry), body)) == s.Action(entry).pc
    ensures t.csrs.priv == s.csrs.priv && t.csrs.status.mie == s.csrs.status.mie
    ensures t.csrs.status.mpie && t.csrs.status.mpp == PrivU
  {
    LeaveEffect(s.Next(entry), body, exit, t);
  }

  /** One exception in the handler is survived: its own return leads back into the handler, and the
      handler's to the interrupted code with its privilege and interrupt enable. */
  lemma OneFaultRecovers(s: System, entry: Input, body: seq<Input>, fault: Input, f: System,
                         body2: seq<Input>, exit: Input, g: System, body3: seq<Input>, exit2: Input, t: System)
    requires TakesNmi(s, entry) && Faults(s.Next(entry), body, fault, f)
    requires Leaves(f, body2, exit, g) && Leaves(g, body3, exit2, t)
    ensures ReturnAddress(Run(f, body2)) == FaultAddress(s.Next(entry), body, fault) && g.csrs.priv == PrivM
    ensures ReturnAddress(Run(g, body3)) == entry.pcIf
    ensures t.csrs.priv == s.csrs.priv && t.csrs.status.mie == s.csrs.status.mie
  {
    NmiEffect(s, entry);
    FaultEffect(s.Next(entry), body, fault, f);
    LeaveEffect(f, body2, exit, g);
    LeaveEffect(g, body3, exit2, t);
  }

  // ------------------------------------------------------------------ everything a handler may do

  /** Quiet cycles, and then an exception, a non-maskable interrupt or a return. */
  datatype Event =
    | Fault(body: seq<Input>, at: Input)
    | Interrupt(body: seq<Input>, at: Input)
    | Leave(body: seq<Input>, at: Input)

  ghost function After(s: System, e: Event): System {
    Run(s, e.body).Next(e.at)
  }

  ghost predicate Happens(s: System, e: Event) {
    match e {
      case Fault(body, at) => Faults(s, body, at, After(s, e))
      case Interrupt(body, at) => AllQuiet(s, body) && TakesNmi(Run(s, body), at)
      case Leave(body, at) => Leaves(s, body, at, After(s, e))
    }
  }

  ghost function End(s: System, es: seq<Event>): System {
    if es == [] then s else After(End(s, es[..|es| - 1]), es[|es| - 1])
  }

  ghost predicate AllHappen(s: System, es: seq<Event>) {
    es == [] || (AllHappen(s, es[..|es| - 1]) && Happens(End(s, es[..|es| - 1]), es[|es| - 1]))
  }

  /** What an event is to the registers. */
  ghost function Effect(s: System, e: Event): TrapStack.Event {
    match e {
      case Fault(body, at) => TrapStack.Trap(if Happens(s, e) then FaultAddress(s, body, at) else 0)
      case Interrupt(_, at) => TrapStack.Nmi(at.pcIf)
      case Leave(_, _) => TrapStack.Return
    }
  }

  ghost function Effects(s: System, es: seq<Event>): (r: seq<TrapStack.Event>)
    ensures |r| == |es|
  {
    if es == [] then [] else Effects(s, es[..|es| - 1]) + [Effect(End(s, es[..|es| - 1]), es[|es| - 1])]
  }

  /** All that happens in a handler, in any order, up to the return that leaves it. */
  ghost predicate Handles(s: System, es: seq<Event>) {
    AllHappen(s, es) && TrapStack.Handler(Effects(s, es))
  }

  ghost function Exceptions(s: System, es: seq<Event>): nat {
    TrapStack.Traps(Effects(s, es))
  }

  /** Where the last event, a return, leads. */
  ghost function Target(s: System, es: seq<Event>): nat
    requires es != []
  {
    ReturnAddress(Run(End(s, es[..|es| - 1]), es[|es| - 1].body))
  }

  function StackOf(s: System): TrapStack.Stack {
    TrapStack.Stack(s.ctrl.nmiMode, s.csrs.priv, s.csrs.status.mie, s.csrs.status.mpie, s.csrs.status.mpp, s.csrs.epc,
                    s.csrs.stack.mpie, s.csrs.stack.mpp, s.csrs.stackEpc)
  }

  lemma FaultIs(s: System, body: seq<Input>, i: Input, t: System)
    requires Faults(s, body, i, t)
    ensures StackOf(t) == StackOf(s).Step(TrapStack.Trap(FaultAddress(s, body, i)))
  {
    FaultEffect(s, body, i, t);
  }

  lemma NmiIs(s: System, body: seq<Input>, i: Input)
    requires AllQuiet(s, body) && TakesNmi(Run(s, body), i)
    ensures !s.ctrl.nmiMode && StackOf(Run(s, body).Next(i)) == StackOf(s).Step(TrapStack.Nmi(i.pcIf))
  {
    QuietKeeps(s, body);
    NmiEffect(Run(s, body), i);
  }

  lemma LeaveIs(s: System, body: seq<Input>, i: Input, t: System)
    requires Leaves(s, body, i, t)
    ensures StackOf(t) == StackOf(s).Step(TrapStack.Return)
  {
    QuietKeeps(s, body);
  }

  lemma EffectIs(s: System, e: Event)
    requires Happens(s, e)
    ensures StackOf(After(s, e)) == StackOf(s).Step(Effect(s, e))
    ensures Run(s, e.body).csrs.epc == s.csrs.epc && (e.Interrupt? ==> !s.ctrl.nmiMode)
  {
    QuietKeeps(s, e.body);
    match e {
      case Fault(body, at) => FaultIs(s, body, at, After(s, e));
      case Interrupt(body, at) => NmiIs(s, body, at);
      case Leave(body, at) => LeaveIs(s, body, at, After(s, e));
    }
  }

  /** The registers follow the two levels of the stack. */
  lemma {:induction false} EffectsAre(s: System, es: seq<Event>)
    requires AllHappen(s, es)
    ensures StackOf(End(s, es)) == TrapStack.Exec(StackOf(s), Effects(s, es))
    ensures TrapStack.Taken(StackOf(s), Effects(s, es))
  {
    if es != [] {
      var before := es[..|es| - 1];
      EffectsAre(s, before);
      EffectIs(End(s, before), es[|es| - 1]);
      TrapStack.ExecAppend(StackOf(s), Effects(s, before), Effect(End(s, before), es[|es| - 1]));
    }
  }

  lemma TargetIs(s: System, es: seq<Event>)
    requires es != [] && AllHappen(s, es)
    ensures Target(s, es) == TrapStack.Target(StackOf(s), Effects(s, es))
  {
    var before := es[..|es| - 1];
    EffectsAre(s, before);
    EffectIs(End(s, before), es[|es| - 1]);
    assert Effects(s, es)[..|es| - 1] == Effects(s, before);
  }

  /** The handler ends where the interrupt was taken, with the privilege and interrupt enable of then. */
  ghost predicate Recovers(s: System, entry: Input, es: seq<Event>) {
    var h := s.Next(entry);
    && es != [] && Target(h, es) == entry.pcIf
    && End(h, es).csrs.priv == s.csrs.priv && End(h, es).csrs.status.mie == s.csrs.status.mie
  }

  /** The last return leads to U-mode with interrupts enabled, at an address saved in the handler. */
  ghost predicate GoesAstray(s: System, entry: Input, es: seq<Event>) {
    var h := s.Next(entry);
    && es != [] && TrapStack.SavedIn(Effects(h, es), Target(h, es))
    && End(h, es).csrs.priv == PrivU && End(h, es).csrs.status.mie
  }

  /** Whatever the handler does, with quiet cycles, exceptions, further interrupts and returns in any order: with at
      most one exception the interrupted code is recovered, and with more it is not, but for code in U-mode with
      interrupts enabled that was at an address saved in the handler. */
  lemma HandlerReturns(s: System, entry: Input, es: seq<Event>)
    requires TakesNmi(s, entry) && Handles(s.Next(entry), es)
    ensures if Exceptions(s.Next(entry), es) <= 1 then Recovers(s, entry, es) else GoesAstray(s, entry, es)
    ensures var h := s.Next(entry);
      !(s.csrs.priv == PrivU && s.csrs.status.mie && TrapStack.SavedIn(Effects(h, es), entry.pcIf)) ==>
        (Recovers(s, entry, es) <==> Exceptions(h, es) <= 1)
  {
    var h := s.Next(entry);
    NmiEffect(s, entry);
    EffectsAre(h, es);
    TargetIs(h, es);
    if Exceptions(h, es) <= 1 {
      TrapStack.ComesBack(StackOf(h), Effects(h, es));
    } else {
      TrapStack.GoesAstray(StackOf(h), Effects(h, es));
    }
  }

  lemma {:induction false} EffectsBefore(s: System, es: seq<Event>, k: nat)
    requires k <= |es|
    ensures Effects(s, es)[..k] == Effects(s, es[..k]) && (AllHappen(s, es) ==> AllHappen(s, es[..k]))
    decreases |es|
  {
    if k == |es| {
      assert es[..k] == es;
    } else {
      var before := es[..|es| - 1];
      EffectsBefore(s, before, k);
      assert before[..k] == es[..k];
      assert Effects(s, es)[..k] == Effects(s, before)[..k];
    }
  }

  lemma EffectsAt(s: System, es: seq<Event>, k: nat)
    requires k < |es|
    ensures Effects(s, es)[k] == Effect(End(s, es[..k]), es[k]) && Effects(s, es)[..k] == Effects(s, es[..k])
    ensures AllHappen(s, es) ==> AllHappen(s, es[..k])
  {
    var upTo := es[..k + 1];
    EffectsBefore(s, es, k);
    EffectsBefore(s, es, k + 1);
    assert upTo[..k] == es[..k];
    assert Effects(s, es)[k] == Effects(s, es)[..k + 1][k];
  }

  lemma EffectKinds(s: System, es: seq<Event>, i: nat)
    requires i < |es|
    ensures Effects(s, es)[i].Return? <==> es[i].Leave?
    ensures Effects(s, es)[i].Trap? <==> es[i].Fault?
  {
    EffectsAt(s, es, i);
  }

  /** The last event that is not a return. */
  ghost predicate LastTrap(es: seq<Event>, j: nat) {
    j < |es| && !es[j].Leave? && forall i | j < i < |es| :: es[i].Leave?
  }

  /** The address it saved, if it was an exception outside NMI mode, and otherwise the one that was current when it was
      taken. */
  ghost function LastSaved(s: System, es: seq<Event>, j: nat): nat
    requires LastTrap(es, j)
  {
    var t := End(s, es[..j]);
    if es[j].Fault? && !t.ctrl.nmiMode then Effect(t, es[j]).pc else t.csrs.epc
  }

  /** The last return leads there. */
  lemma LastAddress(s: System, entry: Input, es: seq<Event>, j: nat)
    requires TakesNmi(s, entry) && Handles(s.Next(entry), es) && LastTrap(es, j)
    ensures Target(s.Next(entry), es) == LastSaved(s.Next(entry), es, j)
  {
    var h := s.Next(entry);
    forall i | 0 <= i < |es| ensures Effects(h, es)[i].Return? <==> es[i].Leave? {
      EffectKinds(h, es, i);
    }
    EffectKinds(h, es, j);
    EffectsAt(h, es, j);
    TargetIs(h, es);
    EffectsAre(h, es[..j]);
    TrapStack.LandsAt(StackOf(h), Effects(h, es), j);
  }

  /** With that the recovery is decided for every handler that is interrupted itself. */
  lemma RecoversExactly(s: System, entry: Input, es: seq<Event>, j: nat)
    requires TakesNmi(s, entry) && Handles(s.Next(entry), es) && LastTrap(es, j)
    ensures Recovers(s, entry, es) <==>
      || Exceptions(s.Next(entry), es) <= 1
      || (s.csrs.priv == PrivU && s.csrs.status.mie && LastSaved(s.Next(entry), es, j) == entry.pcIf)
  {
    HandlerReturns(s, entry, es);
    LastAddress(s, entry, es, j);
  }

  /** Without a further interrupt, the return before the last leads to the same address. */
  lemma LastRepeats(s: System, entry: Input, es: seq<Event>)
    requires TakesNmi(s, entry) && Handles(s.Next(entry), es)
    requires Exceptions(s.Next(entry), es) > 1 && TrapStack.Nmis(Effects(s.Next(entry), es)) == 0
    ensures |es| > 1 && Target(s.Next(entry), es) == Target(s.Next(entry), es[..|es| - 1])
  {
    var h := s.Next(entry);
    NmiEffect(s, entry);
    TargetIs(h, es);
    TrapStack.Repeats(StackOf(h), Effects(h, es));
    TargetIs(h, es[..|es| - 1]);
    EffectsAt(h, es, |es| - 1);
  }

  // ------------------------------------------------------------------ what instructions can do

  /** What the ID stage lets through: CSRs are written by instructions executed in M-mode, those of debug
      mode only there; mret outside M-mode and dret outside debug mode are exceptions. */
  ghost predicate Possible(s: System, i: Input) {
    && (i.write.NoWrite? || (s.ctrl.fsm.Decode? && i.instrValid && s.csrs.priv.PrivM?))
    && (i.write.WriteDcsr? || i.write.WriteDepc? ==> s.ctrl.debugMode)
    && (i.instrValid && ((i.mret && !s.csrs.priv.PrivM?) || (i.dret && !s.ctrl.debugMode)) ==>
          if s.ctrl.fsm.Flush? then s.ctrl.excReq else i.excInstr)
  }

  ghost predicate AllPossible(s: System, inputs: seq<Input>)
    decreases |inputs|
  {
    inputs == [] || (Possible(s, inputs[0]) && AllPossible(s.Next(inputs[0]), inputs[1..]))
  }

  ghost predicate EventPossible(s: System, e: Event) {
    AllPossible(s, e.body) && Possible(Run(s, e.body), e.at)
  }

  ghost predicate EventsPossible(s: System, es: seq<Event>) {
    es == [] || (EventsPossible(s, es[..|es| - 1]) && EventPossible(End(s, es[..|es| - 1]), es[|es| - 1]))
  }

  lemma ReturnsInMachineMode(s: System, e: Event)
    requires Happens(s, e) && EventPossible(s, e) && e.Leave?
    ensures s.csrs.priv.PrivM?
  {
    QuietKeeps(s, e.body);
  }

  lemma {:induction false} EventsExecutable(s: System, es: seq<Event>)
    requires AllHappen(s, es) && EventsPossible(s, es)
    ensures TrapStack.Executable(StackOf(s), Effects(s, es))
  {
    if es != [] {
      var before, e := es[..|es| - 1], es[|es| - 1];
      EventsExecutable(s, before);
      EffectsAre(s, before);
      EffectIs(End(s, before), e);
      if e.Leave? {
        ReturnsInMachineMode(End(s, before), e);
      }
      TrapStack.ExecutableAppend(StackOf(s), Effects(s, before), Effect(End(s, before), e));
    }
  }

  /** A handler that is left has at no time more than two traps open: with three, its returns would lead to U-mode,
      where mret is itself an exception, before it is left. */
  lemma AtMostTwoOpen(s: System, entry: Input, es: seq<Event>, k: nat)
    requires TakesNmi(s, entry) && Handles(s.Next(entry), es) && EventsPossible(s.Next(entry), es) && k <= |es|
    ensures TrapStack.Open(Effects(s.Next(entry), es)[..k]) <= 2
  {
    EventsExecutable(s.Next(entry), es);
    TrapStack.AtMostTwoOpen(StackOf(s.Next(entry)), Effects(s.Next(entry), es), k);
  }

  // ------------------------------------------------------------------ runs in which something is lost

  /** A cycle with nothing in it, and cycles with an instruction that traps, returns or writes a CSR. */
  function Idle(): Input {
    Input(false, false, Cause(false, false, 0), false, false, false, false,
          false, false, false, false, false, false, false, true, false, true, false,
          false, false, Cause(false, false, 2), 0, false, 0, 0, 0, 0, true, NoWrite)
  }

  function Illegal(pc: nat): Input {
    Idle().(instrValid := true, excInstr := true, pcId := pc)
  }

  function Mret(): Input {
    Idle().(instrValid := true, mret := true)
  }

  function Dret(): Input {
    Idle().(instrValid := true, dret := true)
  }

  function Writes(w: Write): Input {
    Idle().(instrValid := true, csrFlush := true, write := w)
  }

  function Nmi(pc: nat): Input {
    Idle().(irqNmExt := true, pcIf := pc)
  }

  /** The next instruction is decoded, without single-stepping. */
  ghost predicate Ready(s: System) {
    s.ctrl.fsm.Decode? && !s.ctrl.debugMode && !s.ctrl.doSingleStep
  }

  /** Cycles in which instructions or an interrupt do the given. */
  function EventFor(e: TrapStack.Event): Event {
    match e {
      case Trap(pc) => Event.Fault([Illegal(pc)], Illegal(pc))
      case Nmi(pc) => Event.Interrupt([Nmi(pc)], Nmi(pc))
      case Return => Event.Leave([Mret()], Mret())
    }
  }

  lemma RunOne(s: System, i: Input)
    ensures Run(s, [i]) == s.Next(i) && (AllPossible(s, [i]) <==> Possible(s, i))
  {
    assert [i][1..] == [];
  }

  lemma EventHappens(s: System, e: TrapStack.Event)
    requires Ready(s) && (e.Return? ==> s.csrs.priv.PrivM?) && (e.Nmi? ==> !s.ctrl.nmiMode)
    ensures var v := EventFor(e); Happens(s, v) && EventPossible(s, v) && Effect(s, v) == e && Ready(After(s, v))
  {
    RunOne(s, EventFor(e).body[0]);
  }

  /** The events are what happens, one after the other, and leave the machine ready for the next. */
  ghost predicate Happened(s: System, vs: seq<Event>, es: seq<TrapStack.Event>) {
    AllHappen(s, vs) && EventsPossible(s, vs) && Effects(s, vs) == es && Ready(End(s, vs))
  }

  lemma OneEventMore(s: System, vs: seq<Event>, v: Event)
    ensures End(s, vs + [v]) == After(End(s, vs), v)
    ensures Effects(s, vs + [v]) == Effects(s, vs) + [Effect(End(s, vs), v)]
    ensures AllHappen(s, vs + [v]) <==> AllHappen(s, vs) && Happens(End(s, vs), v)
    ensures EventsPossible(s, vs + [v]) <==> EventsPossible(s, vs) && EventPossible(End(s, vs), v)
  {
    assert (vs + [v])[..|vs|] == vs;
  }

  lemma HappensNext(s: System, vs: seq<Event>, e: TrapStack.Event, es: seq<TrapStack.Event>)
    requires AllHappen(s, vs) && EventsPossible(s, vs) && Ready(End(s, vs)) && es == Effects(s, vs) + [e]
    requires (e.Return? ==> StackOf(End(s, vs)).priv.PrivM?) && (e.Nmi? ==> !StackOf(End(s, vs)).nmi)
    ensures Happened(s, vs + [EventFor(e)], es)
  {
    EventHappens(End(s, vs), e);
    OneEventMore(s, vs, EventFor(e));
  }

  /** Every sequence of exceptions, interrupts and returns that can be executed is what some cycles do. */
  lemma {:induction false} EverythingHappens(s: System, es: seq<TrapStack.Event>) returns (vs: seq<Event>)
    requires Ready(s) && TrapStack.Executable(StackOf(s), es)
    ensures Happened(s, vs, es)
  {
    vs := [];
    if es != [] {
      var before := EverythingHappens(s, es[..|es| - 1]);
      EffectsAre(s, before);
      HappensNext(s, before, es[|es| - 1], es);
      vs := before + [EventFor(es[|es| - 1])];
    }
  }

  /** Cycles that can happen lead from one state to the other. */
  ghost predicate Leads(s: System, inputs: seq<Input>, t: System) {
    AllPossible(s, inputs) && Run(s, inputs) == t
  }

  lemma {:induction false} LeadsOn(s: System, inputs: seq<Input>, t: System, more: seq<Input>, u: System)
    requires Leads(s, inputs, t) && Leads(t, more, u)
    ensures Leads(s, inputs + more, u)
    decreases |inputs|
  {
    if inputs == [] {
      assert inputs + more == more;
    } else {
      assert (inputs + more)[1..] == inputs[1..] + more;
      LeadsOn(s.Next(inputs[0]), inputs[1..], t, more, u);
    }
  }

  lemma RunTwo(s: System, i: Input, i': Input)
    ensures Run(s, [i, i']) == s.Next(i).Next(i')
    ensures AllPossible(s, [i, i']) <==> Possible(s, i) && Possible(s.Next(i), i')
  {
    RunOne(s.Next(i), i');
    assert [i, i'][1..] == [i'];
  }

  /** Out of reset, before the first instruction is fetched. */
  ghost predicate Fetching(s: System) {
    && s.ctrl.fsm.FirstFetch? && !s.ctrl.nmiMode && !s.ctrl.debugMode && !s.ctrl.doSingleStep
    && s.csrs == ResetState()
  }

  lemma OutOfReset() returns (t: System)
    ensures Leads(Initial(), [Idle(), Idle()], t) && Fetching(t)
  {
    RunTwo(Initial(), Idle(), Idle());
    t := Run(Initial(), [Idle(), Idle()]);
  }

  lemma InterruptedFetch(s: System, pc: nat)
    requires Fetching(s)
    ensures var t := s.Next(Nmi(pc));
      && Leads(s, [Nmi(pc)], t) && t.csrs == s.csrs
      && TakesNmi(t, Nmi(pc)) && Possible(t, Nmi(pc)) && Ready(t.Next(Nmi(pc)))
  {
    RunOne(s, Nmi(pc));
  }

  /** Out of reset, an interrupt before the first instruction. */
  function Boot(pc: nat): seq<Input> {
    [Idle(), Idle()] + [Nmi(pc)]
  }

  lemma Booted(pc: nat)
    ensures var s := Run(Initial(), Boot(pc));
      && AllPossible(Initial(), Boot(pc)) && TakesNmi(s, Nmi(pc)) && Possible(s, Nmi(pc))
      && Ready(s.Next(Nmi(pc))) && s.csrs.priv.PrivM? && !s.csrs.status.mie
  {
    var t := OutOfReset();
    InterruptedFetch(t, pc);
    LeadsOn(Initial(), [Idle(), Idle()], t, [Nmi(pc)], t.Next(Nmi(pc)));
  }

  /** A handler that takes two exceptions or more, in a way in which its returns can be executed. */
  ghost predicate LosesIt(pc: nat, effects: seq<TrapStack.Event>) {
    && TrapStack.Handler(effects) && TrapStack.Traps(effects) > 1
    && TrapStack.Executable(StackOf(Run(Initial(), Boot(pc)).Next(Nmi(pc))), effects)
  }

  /** From reset, by cycles that can happen: the interrupted code is in M-mode, the handler takes two exceptions or
      more, in any way in which its returns can be executed, and the code is not recovered. */
  lemma LostFromReset(pc: nat, effects: seq<TrapStack.Event>) returns (es: seq<Event>)
    requires LosesIt(pc, effects)
    ensures var s := Run(Initial(), Boot(pc)); var h := s.Next(Nmi(pc));
      && AllPossible(Initial(), Boot(pc)) && TakesNmi(s, Nmi(pc)) && Possible(s, Nmi(pc))
      && Handles(h, es) && EventsPossible(h, es) && Effects(h, es) == effects && !Recovers(s, Nmi(pc), es)
  {
    var s := Run(Initial(), Boot(pc));
    var h := s.Next(Nmi(pc));
    Booted(pc);
    NmiEffect(s, Nmi(pc));
    es := EverythingHappens(h, effects);
    HandlerReturns(s, Nmi(pc), es);
  }

  /** There are such: two exceptions nested, one after the other, and one in the handler of a further interrupt. */
  lemma WaysToLose(pc: nat, a: nat, b: nat, n: nat)
    ensures LosesIt(pc, TrapStack.TwoTraps(true, a, b)) && LosesIt(pc, TrapStack.TwoTraps(false, a, b))
    ensures LosesIt(pc, TrapStack.InTwoHandlers(a, n, b))
  {
    var s := Run(Initial(), Boot(pc));
    Booted(pc);
    NmiEffect(s, Nmi(pc));
    var h := StackOf(s.Next(Nmi(pc)));
    TrapStack.TwoTrapsHandled(h, true, a, b);
    TrapStack.TwoTrapsHandled(h, false, a, b);
    TrapStack.InTwoHandlersHandled(h, a, n, b);
  }

  ghost predicate InDebugMode(s: System) {
    && s.ctrl.fsm.Decode? && s.ctrl.debugMode && !s.ctrl.nmiMode && !s.ctrl.doSingleStep
    && s.csrs.priv.PrivM?
  }

  function IntoDebugMode(): seq<Input> {
    [Idle(), Idle()] + [Idle().(debugReq := true), Idle()]
  }

  /** Debug mode sets mprv and returns to U-mode. */
  function SetMprv(): seq<Input> {
    [Writes(WriteStatus(Status(false, true, PrivU, true, false))), Idle()] + [Writes(WriteDcsr(PrivU)), Idle()]
    + [Dret(), Dret()]
  }

  /** Out of reset into debug mode, from there to U-mode with mprv, and then an interrupt. */
  function BootWithMprv(pc: nat): seq<Input> {
    IntoDebugMode() + SetMprv() + [Nmi(pc)]
  }

  lemma EntersDebug(s: System) returns (t: System)
    requires Fetching(s)
    ensures Leads(s, [Idle().(debugReq := true), Idle()], t) && InDebugMode(t)
  {
    var i := Idle().(debugReq := true);
    RunTwo(s, i, Idle());
    t := Run(s, [i, Idle()]);
  }

  lemma WritesInDebug(s: System, w: Write)
    requires InDebugMode(s)
    ensures var t := Run(s, [Writes(w), Idle()]);
      AllPossible(s, [Writes(w), Idle()]) && InDebugMode(t) && t.csrs == s.csrs.Written(w)
  {
    RunTwo(s, Writes(w), Idle());
  }

  lemma LeavesDebug(s: System)
    requires InDebugMode(s)
    ensures var t := Run(s, [Dret(), Dret()]);
      && AllPossible(s, [Dret(), Dret()]) && Ready(t) && !t.ctrl.nmiMode
      && t.csrs == s.csrs.(priv := s.csrs.dcsrPrv)
  {
    RunTwo(s, Dret(), Dret());
  }

  lemma WritesTwo(s: System, w: Write, w': Write) returns (t: System)
    requires InDebugMode(s)
    ensures Leads(s, [Writes(w), Idle()] + [Writes(w'), Idle()], t)
    ensures InDebugMode(t) && t.csrs == s.csrs.Written(w).Written(w')
  {
    WritesInDebug(s, w);
    var s' := Run(s, [Writes(w), Idle()]);
    WritesInDebug(s', w');
    t := Run(s', [Writes(w'), Idle()]);
    LeadsOn(s, [Writes(w), Idle()], s', [Writes(w'), Idle()], t);
  }

  lemma UserWithMprv(s: System) returns (t: System)
    requires InDebugMode(s)
    ensures Leads(s, SetMprv(), t) && Ready(t) && !t.ctrl.nmiMode && t.csrs.priv.PrivU? && t.csrs.status.mprv
  {
    var w, w' := WriteStatus(Status(false, true, PrivU, true, false)), WriteDcsr(PrivU);
    var s' := WritesTwo(s, w, w');
    LeavesDebug(s');
    t := Run(s', [Dret(), Dret()]);
    LeadsOn(s, [Writes(w), Idle()] + [Writes(w'), Idle()], s', [Dret(), Dret()], t);
  }

  lemma Interrupted(s: System, pc: nat)
    requires Ready(s) && !s.ctrl.nmiMode
    ensures var t := s.Next(Nmi(pc));
      && Leads(s, [Nmi(pc)], t) && t.csrs == s.csrs
      && TakesNmi(t, Nmi(pc)) && Possible(t, Nmi(pc)) && Ready(t.Next(Nmi(pc)))
  {
    RunOne(s, Nmi(pc));
  }

  lemma BootedWithMprv(pc: nat)
    ensures var s := Run(Initial(), BootWithMprv(pc));
      && AllPossible(Initial(), BootWithMprv(pc)) && TakesNmi(s, Nmi(pc)) && Possible(s, Nmi(pc))
      && Ready(s.Next(Nmi(pc))) && s.csrs.priv.PrivU? && s.csrs.status.mprv
  {
    var f := OutOfReset();
    var s := EntersDebug(f);
    LeadsOn(Initial(), [Idle(), Idle()], f, [Idle().(debugReq := true), Idle()], s);
    var t := UserWithMprv(s);
    Interrupted(t, pc);
    LeadsOn(Initial(), IntoDebugMode(), s, SetMprv(), t);
    LeadsOn(Initial(), IntoDebugMode() + SetMprv(), t, [Nmi(pc)], t.Next(Nmi(pc)));
  }

  /** From reset, by way of debug mode: code in U-mode with mprv set loses it to an interrupt and its return. */
  lemma MprvLostFromReset(pc: nat)
    ensures var s := Run(Initial(), BootWithMprv(pc)); var h := s.Next(Nmi(pc)); var t := Run(h, [Mret()]).Next(Mret());
      && AllPossible(Initial(), BootWithMprv(pc)) && TakesNmi(s, Nmi(pc)) && Possible(s, Nmi(pc))
      && Leaves(h, [Mret()], Mret(), t) && AllPossible(h, [Mret()]) && Possible(Run(h, [Mret()]), Mret())
      && t.csrs.priv == s.csrs.priv == PrivU && s.csrs.status.mprv && !t.csrs.status.mprv
  {
    var s := Run(Initial(), BootWithMprv(pc));
    var h := s.Next(Nmi(pc));
    BootedWithMprv(pc);
    NmiEffect(s, Nmi(pc));
    EventHappens(h, TrapStack.Return);
    NmiIsTransparent(s, Nmi(pc), [Mret()], Mret(), Run(h, [Mret()]).Next(Mret()));
  }

  // ------------------------------------------------------------------ debug mode

  /** A cycle in debug mode without a return; exceptions may happen. */
  ghost predicate InDebug(s: System, i: Input) {
    && s.ctrl.debugMode
    && (s.Action(i).NoAction? || (s.Action(i).Save? && !s.Action(i).debug))
    && (i.write.NoWrite? || i.write.WriteTval? || i.write.WriteOther?)
  }

  ghost predicate AllInDebug(s: System, inputs: seq<Input>)
    decreases |inputs|
  {
    inputs == [] || (InDebug(s, inputs[0]) && AllInDebug(s.Next(inputs[0]), inputs[1..]))
  }

  /** What debug mode does not change. */
  ghost predicate SameInDebug(s: System, t: System) {
    && t.csrs.dcsrPrv == s.csrs.dcsrPrv && t.csrs.depc == s.csrs.depc
    && t.csrs.status == s.csrs.status && t.csrs.epc == s.csrs.epc && t.csrs.cause == s.csrs.cause
    && t.csrs.stack == s.csrs.stack && t.csrs.stackEpc == s.csrs.stackEpc && t.csrs.stackCause == s.csrs.stackCause
    && t.ctrl.nmiMode == s.ctrl.nmiMode
  }

  lemma DebugKeepsOne(s: System, i: Input)
    requires InDebug(s, i)
    ensures SameInDebug(s, s.Next(i))
  {
  }

  lemma {:induction false} DebugKeeps(s: System, inputs: seq<Input>)
    requires AllInDebug(s, inputs)
    ensures SameInDebug(s, Run(s, inputs))
    decreases |inputs|
  {
    if inputs != [] {
      DebugKeepsOne(s, inputs[0]);
      DebugKeeps(s.Next(inputs[0]), inputs[1..]);
    }
  }

  /** Debug mode leaves no trace: after dret the privilege, the trap registers and the trap stack are as
      they were on entry, and the saved address was that of the entry, even if exceptions were taken in
      debug mode. An NMI handler that was interrupted is one again. */
  lemma DebugIsTransparent(s: System, entry: Input, body: seq<Input>, exit: Input, t: System)
    requires s.Action(entry).Save? && s.Action(entry).debug && entry.write.NoWrite?
    requires AllInDebug(s.Next(entry), body)
    requires Run(s.Next(entry), body).Action(exit).Dret? && exit.write.NoWrite?
    requires t == Run(s.Next(entry), body).Next(exit)
    ensures Run(s.Next(entry), body).csrs.depc == s.Action(entry).pc && s.Next(entry).csrs.priv == PrivM
    ensures !t.ctrl.debugMode && t.ctrl.nmiMode == s.ctrl.nmiMode
    ensures t.csrs.priv == s.csrs.priv && t.csrs.status == s.csrs.status
    ensures t.csrs.epc == s.csrs.epc && t.csrs.cause == s.csrs.cause
    ensures t.csrs.stack == s.csrs.stack && t.csrs.stackEpc == s.csrs.stackEpc && t.csrs.stackCause == s.csrs.stackCause
  {
    DebugKeeps(s.Next(entry), body);
  }

  // ------------------------------------------------------------------ memory integrity errors

  /** The addresses of errors latched, and those reported by an internal interrupt. */
  datatype Report = Report(latched: seq<nat>, reported: seq<nat>)

  /** An internal interrupt is taken for the latched error. */
  ghost predicate Reports(s: System, i: Input) {
    s.ctrl.TakesNmi(i, s.csrs) && !i.irqNmExt
  }

  ghost function NextReport(s: System, i: Input, h: Report): Report {
    Report(if s.ctrl.IntgSet(i) then h.latched + [i.lsuAddrLast] else h.latched,
           if Reports(s, i) then h.reported + [s.Next(i).csrs.tval] else h.reported)
  }

  /** What is latched and not yet reported is what is pending. */
  ghost predicate Accounted(s: System, h: Report) {
    h.latched == h.reported + (if s.ctrl.intgPending then [s.ctrl.intgAddr] else [])
  }

  ghost function ReportOf(s: System, inputs: seq<Input>, h: Report): Report
    decreases |inputs|
  {
    if inputs == [] then h else ReportOf(s.Next(inputs[0]), inputs[1..], NextReport(s, inputs[0], h))
  }

  /** The latch is cleared in exactly the cycle in which an internal interrupt is taken, which writes
      the latched address to mtval and the integrity cause to mcause. Otherwise it stays, through
      external non-maskable interrupts, their handlers and debug mode. */
  lemma ClearedWhenReported(s: System, i: Input)
    requires s.ctrl.intgPending
    ensures !s.Next(i).ctrl.intgPending <==> Reports(s, i)
    ensures Reports(s, i) ==> s.Next(i).csrs.tval == s.ctrl.intgAddr && s.Next(i).csrs.cause == CAUSE_INTEGRITY
    ensures s.Next(i).ctrl.intgPending ==> s.Next(i).ctrl.intgAddr == s.ctrl.intgAddr
    ensures i.irqNmExt || s.ctrl.nmiMode || s.ctrl.debugMode ==> s.Next(i).ctrl.intgPending
  {
  }

  /** Without a latched error no internal interrupt is taken. */
  lemma NothingToReport(s: System, i: Input)
    requires Reports(s, i)
    ensures s.ctrl.intgPending
  {
  }

  /** Over every run the reports are the latched errors, in order, each exactly once, with at most the
      last one still pending. */
  lemma {:induction false} EveryErrorReportedOnce(s: System, inputs: seq<Input>, h: Report)
    requires Accounted(s, h)
    ensures Accounted(Run(s, inputs), ReportOf(s, inputs, h))
    decreases |inputs|
  {
    if inputs != [] {
      var i := inputs[0];
      if s.ctrl.intgPending {
        ClearedWhenReported(s, i);
      } else if Reports(s, i) {
        NothingToReport(s, i);
      }
      EveryErrorReportedOnce(s.Next(i), inputs[1..], NextReport(s, i, h));
    }
  }

  lemma ReportsFromReset(inputs: seq<Input>)
    ensures Accounted(Run(Initial(), inputs), ReportOf(Initial(), inputs, Report([], [])))
  {
    EveryErrorReportedOnce(Initial(), inputs, Report([], []));
  }
}
