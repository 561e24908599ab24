/** The registers of rtl/ibex_cs_registers.sv that traps save and returns restore. */
module TrapCsrs {

  /** The privilege encodings; only M and U are implemented. */
  datatype Priv = PrivU | PrivS | PrivH | PrivM

  predicate Implemented(p: Priv) {
    p.PrivU? || p.PrivM?
  }

  datatype Cause = Cause(irqExt: bool, irqInt: bool, lower: nat)

  datatype Status = Status(mie: bool, mpie: bool, mpp: Priv, mprv: bool, tw: bool)

  datatype StackedStatus = StackedStatus(mpie: bool, mpp: Priv)

  /** CSR instructions that get as far as writing. */
  datatype Write =
    | NoWrite
    | WriteStatus(status: Status)
    | WriteEpc(epc: nat)
    | WriteCause(cause: Cause)
    | WriteTval(tval: nat)
    | WriteDcsr(prv: Priv)
    | WriteDepc(depc: nat)
    | WriteOther

  /** What the controller asks for in a cycle. */
  datatype Action =
    | NoAction
    | Save(pc: nat, cause: Cause, tval: nat, debug: bool)
    | Dret
    | Mret

  function Even(a: nat): nat {
    a - a % 2
  }

  function Legalised(p: Priv): Priv {
    if p.PrivM? then p else PrivU
  }

  datatype State = State(
    priv: Priv, status: Status, epc: nat, cause: Cause, tval: nat,
    stack: StackedStatus, stackEpc: nat, stackCause: Cause,
    dcsrPrv: Priv, depc: nat) {

    /** A write by an instruction. */
    function Written(w: Write): State {
      match w {
        case WriteStatus(st) => this.(status := st.(mpp := Legalised(st.mpp)))
        case WriteEpc(v) => this.(epc := Even(v))
        case WriteCause(c) => this.(cause := c)
        case WriteTval(v) => this.(tval := v)
        case WriteDcsr(p) => this.(dcsrPrv := Legalised(p))
        case WriteDepc(v) => this.(depc := Even(v))
        case _ => this
      }
    }

    /** A trap saves what was before the cycle; in debug mode nothing is saved. */
    function Trapped(before: State, pc: nat, c: Cause, v: nat, debug: bool, debugMode: bool): State {
      if debug then this.(priv := PrivM, dcsrPrv := before.priv, depc := pc)
      else if debugMode then this.(priv := PrivM)
      else
        this.(priv := PrivM, tval := v, epc := pc, cause := c,
              status := status.(mie := false, mpie := before.status.mie, mpp := before.priv),
              stack := StackedStatus(before.status.mpie, before.status.mpp),
              stackEpc := before.epc, stackCause := before.cause)
    }

    /** A return from a trap; from a non-maskable interrupt it takes back what was stacked. */
    function Returned(before: State, nmiMode: bool): State {
      var st := status.(mie := before.status.mpie, mprv := status.mprv && before.status.mpp.PrivM?);
      if nmiMode then
        this.(priv := before.status.mpp, status := st.(mpie := before.stack.mpie, mpp := before.stack.mpp),
              epc := before.stackEpc, cause := before.stackCause)
      else
        this.(priv := before.status.mpp, status := st.(mpie := true, mpp := PrivU))
    }

    /** Traps and returns take priority over the instruction's write, field by field. */
    function Next(w: Write, a: Action, nmiMode: bool, debugMode: bool): State {
      match a {
        case NoAction => Written(w)
        case Save(pc, c, v, debug) => Written(w).Trapped(this, pc, c, v, debug, debugMode)
        case Dret => Written(w).(priv := dcsrPrv)
        case Mret => Written(w).Returned(this, nmiMode)
      }
    }

    /** Every stored privilege is one that exists. */
    ghost predicate Legal() {
      Implemented(priv) && Implemented(status.mpp) && Implemented(stack.mpp) && Implemented(dcsrPrv)
    }
  }

  /** Addresses written are those of halfwords, and privileges that do not exist become U. */
  lemma WrittenExists(s: State, w: Write)
    ensures var t := s.Written(w);
      && (w.WriteEpc? ==> t == s.(epc := t.epc) && t.epc % 2 == 0 && (t.epc == w.epc || t.epc + 1 == w.epc))
      && (w.WriteDepc? ==> t == s.(depc := t.depc) && t.depc % 2 == 0 && (t.depc == w.depc || t.depc + 1 == w.depc))
      && (w.WriteDcsr? ==> t == s.(dcsrPrv := if w.prv == PrivM then PrivM else PrivU))
      && (w.WriteStatus? ==>
            t == s.(status := w.status.(mpp := if w.status.mpp == PrivM then PrivM else PrivU)))
      && (w.WriteCause? ==> t == s.(cause := w.cause)) && (w.WriteTval? ==> t == s.(tval := w.tval))
  {
  }

  function ResetState(): State {
    State(PrivM, Status(false, true, PrivU, false, false), 0, Cause(false, false, 0), 0,
          StackedStatus(true, PrivU), 0, Cause(false, false, 0), PrivM, 0)
  }

  /** The registers, each with its enable. */
  class Registers {
    var priv: Priv
    var status: Status
    var epc: nat
    var cause: Cause
    var tval: nat
    var stack: StackedStatus
    var stackEpc: nat
    var stackCause: Cause
    var dcsrPrv: Priv
    var depc: nat

    ghost function Values(): State
      reads this
    {
      State(priv, status, epc, cause, tval, stack, stackEpc, stackCause, dcsrPrv, depc)
    }

    constructor ()
      ensures Values() == ResetState()
      ensures priv == PrivM && !status.mie && status.mpie && status.mpp == PrivU && !status.mprv && !status.tw
      ensures epc == depc == tval == stackEpc == 0 && cause == stackCause == Cause(false, false, 0)
      ensures stack == StackedStatus(true, PrivU) && dcsrPrv == PrivM
    {
      priv, status := PrivM, Status(false, true, PrivU, false, false);
      epc, cause, tval := 0, Cause(false, false, 0), 0;
      stack, stackEpc, stackCause := StackedStatus(true, PrivU), 0, Cause(false, false, 0);
      dcsrPrv, depc := PrivM, 0;
    }

    method Instruction(w: Write)
      modifies this
      ensures Values() == old(Values()).Written(w)
    {
      match w {
        case WriteStatus(st) => status := if st.mpp.PrivM? then st else st.(mpp := PrivU);
        case WriteEpc(v) => epc := Even(v);
        case WriteCause(c) => cause := c;
        case WriteTval(v) => tval := v;
        case WriteDcsr(p) => dcsrPrv := if p.PrivM? then p else PrivU;
        case WriteDepc(v) => depc := Even(v);
        case _ =>
      }
    }

    /** A trap; what it saves are the values before the cycle. */
    method Trap(before: State, pc: nat, c: Cause, v: nat, debug: bool, debugMode: bool)
      modifies this
      ensures Values() == old(Values()).Trapped(before, pc, c, v, debug, debugMode)
    {
      priv := PrivM;
      if debug {
        dcsrPrv, depc := before.priv, pc;
      } else if !debugMode {
        tval, epc, cause := v, pc, c;
        status := status.(mie := false, mpie := before.status.mie, mpp := before.priv);
        stack := StackedStatus(before.status.mpie, before.status.mpp);
        stackEpc, stackCause := before.epc, before.cause;
      }
    }

    /** The return from a trap. */
    method Return(before: State, nmiMode: bool)
      modifies this
      ensures Values() == old(Values()).Returned(before, nmiMode)
    {
      priv := before.status.mpp;
      status := status.(mie := before.status.mpie);
      if !before.status.mpp.PrivM? {
        status := status.(mprv := false);
      }
      if nmiMode {
        status := status.(mpie := before.stack.mpie, mpp := before.stack.mpp);
        epc, cause := before.stackEpc, before.stackCause;
      } else {
        status := status.(mpie := true, mpp := PrivU);
      }
    }

    /** The instruction's write first, then the trap or return over it. */
    method Clock(w: Write, a: Action, nmiMode: bool, debugMode: bool)
      modifies this
      ensures Values() == old(Values()).Next(w, a, nmiMode, debugMode)
    {
      var before := State(priv, status, epc, cause, tval, stack, stackEpc, stackCause, dcsrPrv, depc);
      Instruction(w);
      match a {
        case NoAction =>
        case Save(pc, c, v, debug) => Trap(before, pc, c, v, debug, debugMode);
        case Dret => priv := before.dcsrPrv;
        case Mret => Return(before, nmiMode);
      }
    }
  }
}
