/** The Zcmp state machine under arbitrary stalls: it issues exactly the expansion of the instruction
    it is given. */
module ZcmpRun {
  import opened Zcmp
  import opened ZcmpMachine

  function Ops(f: Fields): seq<Micro>
    requires f.Bounded() && Legal(f.kind, f.rlist)
  {
    Expansion(f.kind, f.rlist, f.spimm, f.r1s, f.r2s)
  }

  /** The expansion's length. */
  function Total(f: Fields): nat
    requires f.Bounded() && Legal(f.kind, f.rlist)
  {
    match f.kind {
      case MvSA | MvAS => 2
      case Push | Pop => Count(f.rlist) + 1
      case PopRet => Count(f.rlist) + 2
      case PopRetZ => Count(f.rlist) + 3
    }
  }

  lemma TotalIsLength(f: Fields)
    requires f.Bounded() && Legal(f.kind, f.rlist)
    ensures Total(f) == |Ops(f)| >= 2
  {
  }

  // ------------------------------------------------------------------ decoding the micro-operations

  /** The fields are right, and so the encoding is. */
  predicate Issues(w: Word32, op: Micro) {
    WellFormed(w) && Meaning(w) == op
  }

  lemma StoreIssues(rlist: nat, k: nat)
    requires 1 <= k < 0x20 && TopReg(rlist) < 0x20
    ensures Issues(PushStoreReg(rlist, k), Store(TopReg(rlist), 2, -4 * k))
  {
    Negated(4 * k);
  }

  lemma LoadIssues(rlist: nat, k: nat)
    requires k < 0x20 && TopReg(rlist) < 0x20
    ensures Issues(PopLoadReg(rlist, k), Load(TopReg(rlist), 2, 4 * k))
  {
  }

  lemma BaseAgrees(rlist: nat)
    requires 4 <= rlist < 16
    ensures StackAdjBase(rlist) == Adjustment(rlist, 0)
    ensures 16 <= StackAdjBase(rlist) <= 64 && StackAdjBase(rlist) % 16 == 0
  {
    assert rlist == 4 || rlist == 5 || rlist == 6 || rlist == 7 || rlist == 8 || rlist == 9 || rlist == 10 ||
           rlist == 11 || rlist == 12 || rlist == 13 || rlist == 14 || rlist == 15;
  }

  lemma AdjustmentAgrees(rlist: nat, spimm: nat)
    requires 4 <= rlist < 16 && spimm < 4
    ensures StackAdj(rlist, spimm) == Adjustment(rlist, spimm) < 0x80
    ensures StackAdjWord(rlist, spimm) * 4 == Adjustment(rlist, spimm) >= 16
  {
    BaseAgrees(rlist);
    assert Adjustment(rlist, spimm) == StackAdjBase(rlist) + 16 * spimm;
  }

  lemma AddIssues(rlist: nat, spimm: nat, decr: bool)
    requires 4 <= rlist < 16 && spimm < 4
    ensures Issues(SpAddi(rlist, spimm, decr),
                   AddImm(2, 2, if decr then 0 - Adjustment(rlist, spimm) else Adjustment(rlist, spimm)))
  {
    AdjustmentAgrees(rlist, spimm);
    Negated(Adjustment(rlist, spimm));
  }

  lemma MoveIssues(src: nat, dst: nat)
    requires src < 0x20 && dst < 0x20
    ensures Issues(MvReg(src, dst), AddImm(dst, src, 0))
  {
  }

  /** The register on top of the internal list after `j` have been removed. */
  lemma TopIsListed(rlist: nat, j: nat)
    requires 4 <= rlist < 16 && j < Count(rlist)
    ensures RlistInit(rlist) >= 4 + j && TopReg(RlistInit(rlist) - j) == ListReg(rlist, j) < 0x20
    ensures RlistInit(rlist) - j == 4 <==> j == Count(rlist) - 1
  {
  }

  // ------------------------------------------------------------------ where the machine stands

  ghost predicate AtPush(rlist: nat, s: State, j: nat)
    requires 4 <= rlist < 16
  {
    if j < Count(rlist) then s.fsm.CmPushStoreReg? && s.rlist == RlistInit(rlist) - j && s.spOffset == j + 1
    else s.fsm.CmPushDecrSp?
  }

  ghost predicate AtPop(rlist: nat, adj: nat, total: nat, s: State, j: nat)
    requires 4 <= rlist < 16
  {
    if j < Count(rlist) then s.fsm.CmPopLoadReg? && s.rlist == RlistInit(rlist) - j && s.spOffset == adj / 4 - 1 - j
    else if j == Count(rlist) then s.fsm.CmPopIncrSp?
    else if j == total - 1 then s.fsm.CmPopRetRa?
    else s.fsm.CmPopZeroA0?
  }

  /** The state when `j` micro-operations of the instruction have been consumed. */
  ghost predicate At(f: Fields, s: State, j: nat)
    requires f.Bounded() && Legal(f.kind, f.rlist)
  {
    s.Bounded() && j < Total(f) &&
    if j == 0 then s.fsm.CmIdle?
    else if f.kind.MvSA? || f.kind.MvAS? then s.fsm.CmMvSecondReg?
    else if f.kind.Push? then AtPush(f.rlist, s, j)
    else AtPop(f.rlist, Adjustment(f.rlist, f.spimm), Total(f), s, j)
  }

  /** Where a cycle with the instruction presented leads. */
  ghost predicate Moves(f: Fields, s: State, j: nat, ready: bool, next: State)
    requires f.Bounded() && Legal(f.kind, f.rlist) && j < Total(f)
  {
    if !ready then At(f, next, j)
    else if j == Total(f) - 1 then next.Bounded() && next.fsm.CmIdle?
    else At(f, next, j + 1)
  }

  /** What such a cycle gives: the next micro-operation of the expansion, marked as the last one only
      when it is and is consumed. */
  ghost predicate Advances(f: Fields, s: State, j: nat, ready: bool, o: Output)
    requires f.Bounded() && Legal(f.kind, f.rlist) && j < Total(f)
  {
    TotalIsLength(f);
    && Issues(o.instr, Ops(f)[j]) && !o.illegal
    && o.expanded == (if ready && j == Total(f) - 1 then ExpandedLast else Expanding)
    && Moves(f, s, j, ready, o.next)
  }

  lemma PushOpAt(rlist: nat, n: nat, j: nat)
    requires 4 <= rlist < 16 && j < n <= Count(rlist)
    ensures PushOps(rlist, n)[j] == Store(ListReg(rlist, j), 2, -4 * (j + 1))
  {
  }

  lemma PopOpAt(rlist: nat, adj: nat, n: nat, j: nat)
    requires 4 <= rlist < 16 && j < n <= Count(rlist)
    ensures PopOps(rlist, adj, n)[j] == Load(ListReg(rlist, j), 2, adj - 4 * (j + 1))
  {
  }

  /** The operation number `j` of a push. */
  function PushOp(rlist: nat, adj: nat, j: nat): Micro
    requires 4 <= rlist < 16
  {
    if j < Count(rlist) then Store(ListReg(rlist, j), 2, -4 * (j + 1)) else AddImm(2, 2, 0 - adj)
  }

  lemma PushOpsAt(f: Fields, j: nat)
    requires f.Bounded() && f.kind.Push? && f.rlist >= 4 && j < Total(f)
    ensures j < |Ops(f)| && Ops(f)[j] == PushOp(f.rlist, Adjustment(f.rlist, f.spimm), j)
  {
    if j < Count(f.rlist) {
      PushOpAt(f.rlist, Count(f.rlist), j);
    }
  }

  /** The operation a push issues in the state. */
  lemma PushIssues(f: Fields, s: State, j: nat, i: Input)
    requires f.Bounded() && f.kind.Push? && f.rlist >= 4 && At(f, s, j) && i.fields == f
    ensures Issues(s.PushOutput(i).instr, PushOp(f.rlist, Adjustment(f.rlist, f.spimm), j))
  {
    if j < Count(f.rlist) {
      TopIsListed(f.rlist, j);
      StoreIssues(RlistInit(f.rlist) - j, j + 1);
    } else {
      AddIssues(f.rlist, f.spimm, true);
    }
  }

  lemma OneLess(x: nat)
    requires 1 <= x < 0x20
    ensures (x + 0x1f) % 0x20 == x - 1
  {
  }

  lemma PushStoreMoves(f: Fields, s: State, j: nat, i: Input)
    requires f.Bounded() && f.kind.Push? && f.rlist >= 4 && At(f, s, j) && i.fields == f && i.valid
    requires 0 < j < Count(f.rlist)
    ensures Moves(f, s, j, i.ready, s.PushOutput(i).next)
  {
    TopIsListed(f.rlist, j);
    OneLess(s.rlist);
  }

  lemma PushMoves(f: Fields, s: State, j: nat, i: Input)
    requires f.Bounded() && f.kind.Push? && f.rlist >= 4 && At(f, s, j) && i.fields == f && i.valid
    ensures Moves(f, s, j, i.ready, s.PushOutput(i).next)
  {
    if 0 < j < Count(f.rlist) {
      PushStoreMoves(f, s, j, i);
    }
  }

  lemma PushMarks(f: Fields, s: State, j: nat, i: Input)
    requires f.Bounded() && f.kind.Push? && f.rlist >= 4 && At(f, s, j) && i.fields == f && i.valid
    ensures var o := s.PushOutput(i);
      !o.illegal && o.expanded == (if i.ready && j == Total(f) - 1 then ExpandedLast else Expanding)
  {
  }

  /** The operation number `j` of a pop. */
  function PopOp(rlist: nat, adj: nat, total: nat, j: nat): Micro
    requires 4 <= rlist < 16
  {
    if j < Count(rlist) then Load(ListReg(rlist, j), 2, adj - 4 * (j + 1))
    else if j == Count(rlist) then AddImm(2, 2, adj)
    else if j == total - 1 then JumpReg(0, 1, 0)
    else AddImm(10, 0, 0)
  }

  lemma LoadAt(rlist: nat, spimm: nat, j: nat)
    requires 4 <= rlist < 16 && spimm < 4 && j < Count(rlist)
    ensures RlistInit(rlist) >= j && 0 <= Adjustment(rlist, spimm) / 4 - 1 - j < 0x20
    ensures Issues(PopLoadReg(RlistInit(rlist) - j, Adjustment(rlist, spimm) / 4 - 1 - j),
                   Load(ListReg(rlist, j), 2, Adjustment(rlist, spimm) - 4 * (j + 1)))
  {
    AdjustmentAgrees(rlist, spimm);
    FrameHolds(rlist, spimm);
    TopIsListed(rlist, j);
    LoadIssues(RlistInit(rlist) - j, Adjustment(rlist, spimm) / 4 - 1 - j);
  }

  predicate IsPop(kind: Kind) {
    kind.Pop? || kind.PopRet? || kind.PopRetZ?
  }

  lemma PopStarts(s: State, i: Input)
    requires s.Bounded() && s.fsm.CmIdle? && i.fields.Bounded() && i.fields.rlist >= 4
    ensures s.PopOutput(i).instr ==
      PopLoadReg(RlistInit(i.fields.rlist), Adjustment(i.fields.rlist, i.fields.spimm) / 4 - 1)
  {
    AdjustmentAgrees(i.fields.rlist, i.fields.spimm);
  }

  /** The operation a pop issues. */
  lemma PopIssues(f: Fields, s: State, j: nat, i: Input)
    requires f.Bounded() && IsPop(f.kind) && f.rlist >= 4 && At(f, s, j) && i.fields == f
    ensures Issues(s.PopOutput(i).instr, PopOp(f.rlist, Adjustment(f.rlist, f.spimm), Total(f), j))
  {
    var adj := Adjustment(f.rlist, f.spimm);
    if j < Count(f.rlist) {
      LoadAt(f.rlist, f.spimm, j);
      if j == 0 {
        PopStarts(s, i);
      }
    } else if j == Count(f.rlist) {
      AddIssues(f.rlist, f.spimm, false);
    } else {
      MoveIssues(0, 10);
    }
  }

  lemma PopOpsAt(f: Fields, j: nat)
    requires f.Bounded() && IsPop(f.kind) && f.rlist >= 4 && j < Total(f)
    ensures j < |Ops(f)| && Ops(f)[j] == PopOp(f.rlist, Adjustment(f.rlist, f.spimm), Total(f), j)
  {
    if j < Count(f.rlist) {
      PopOpAt(f.rlist, Adjustment(f.rlist, f.spimm), Count(f.rlist), j);
    }
  }

  lemma PopStartMoves(f: Fields, s: State, i: Input)
    requires f.Bounded() && IsPop(f.kind) && f.rlist >= 4 && At(f, s, 0) && i.fields == f && i.valid
    ensures Moves(f, s, 0, i.ready, s.PopOutput(i).next)
  {
    AdjustmentAgrees(f.rlist, f.spimm);
    OneLess(StackAdjWord(f.rlist, f.spimm));
    OneLess(StackAdjWord(f.rlist, f.spimm) - 1);
  }

  lemma PopLoadMoves(f: Fields, s: State, j: nat, i: Input)
    requires f.Bounded() && IsPop(f.kind) && f.rlist >= 4 && At(f, s, j) && i.fields == f && i.valid
    requires 0 < j < Count(f.rlist)
    ensures Moves(f, s, j, i.ready, s.PopOutput(i).next)
  {
    TopIsListed(f.rlist, j);
    OneLess(s.rlist);
    if j < Count(f.rlist) - 1 {
      FrameHolds(f.rlist, f.spimm);
      OneLess(s.spOffset);
    }
  }

  lemma PopMoves(f: Fields, s: State, j: nat, i: Input)
    requires f.Bounded() && IsPop(f.kind) && f.rlist >= 4 && At(f, s, j) && i.fields == f && i.valid
    ensures Moves(f, s, j, i.ready, s.PopOutput(i).next)
  {
    if j == 0 {
      PopStartMoves(f, s, i);
    } else if j < Count(f.rlist) {
      PopLoadMoves(f, s, j, i);
    }
  }

  lemma PopMarks(f: Fields, s: State, j: nat, i: Input)
    requires f.Bounded() && IsPop(f.kind) && f.rlist >= 4 && At(f, s, j) && i.fields == f && i.valid
    ensures var o := s.PopOutput(i);
      !o.illegal && o.expanded == (if i.ready && j == Total(f) - 1 then ExpandedLast else Expanding)
  {
  }

  lemma MoveAdvances(f: Fields, s: State, j: nat, i: Input)
    requires f.Bounded() && (f.kind.MvSA? || f.kind.MvAS?) && At(f, s, j) && i.fields == f && i.valid
    ensures Advances(f, s, j, i.ready, s.MoveOutput(i))
  {
    var saved := SavedReg(if j == 0 then f.r1s else f.r2s);
    SavedRegs(f.r1s);
    SavedRegs(f.r2s);
    MoveIssues(if j == 0 then 10 else 11, saved);
    MoveIssues(saved, if j == 0 then 10 else 11);
  }

  /** Every cycle in which the instruction is presented issues the next operation of its expansion. */
  lemma StepAdvances(f: Fields, s: State, j: nat, i: Input)
    requires f.Bounded() && Legal(f.kind, f.rlist) && At(f, s, j) && i.fields == f && i.valid
    ensures Advances(f, s, j, i.ready, s.Step(i))
  {
    if f.kind.Push? {
      PushIssues(f, s, j, i);
      PushOpsAt(f, j);
      PushMoves(f, s, j, i);
      PushMarks(f, s, j, i);
    } else if IsPop(f.kind) {
      PopIssues(f, s, j, i);
      PopOpsAt(f, j);
      PopMoves(f, s, j, i);
      PopMarks(f, s, j, i);
    } else {
      MoveAdvances(f, s, j, i);
    }
  }

  // ------------------------------------------------------------------ whole runs

  /** The cycles of an instruction held valid and unchanged, one flag for each: whether the ID stage
      takes the micro-operation. */
  datatype Trace = Trace(state: State, issued: seq<Micro>, lasts: nat)

  ghost function Traced(t: Trace, ready: bool, o: Output): Trace {
    Trace(o.next, if ready then t.issued + [Decode(Encode(o.instr))] else t.issued,
          if o.expanded.ExpandedLast? then t.lasts + 1 else t.lasts)
  }

  ghost function Cycle(instr: nat, t: Trace, ready: bool): Trace
    requires t.state.Bounded()
  {
    Traced(t, ready, t.state.Step(Input(true, ready, instr, FieldsOf(instr))))
  }

  ghost function Cycles(instr: nat, s: State, ready: seq<bool>): (t: Trace)
    requires s.Bounded()
    ensures t.state.Bounded()
    decreases |ready|
  {
    if ready == [] then Trace(s, [], 0)
    else Cycle(instr, Cycles(instr, s, ready[..|ready| - 1]), ready[|ready| - 1])
  }

  function Taken(ready: seq<bool>): nat {
    if ready == [] then 0 else Taken(ready[..|ready| - 1]) + if ready[|ready| - 1] then 1 else 0
  }

  /** An instruction whose expansion is defined. */
  predicate Expandable(instr: nat) {
    Legal(FieldsOf(instr).kind, FieldsOf(instr).rlist)
  }

  /** Where a trace stands when `j` operations have been taken. */
  ghost predicate Stands(f: Fields, t: Trace, j: nat)
    requires f.Bounded() && Legal(f.kind, f.rlist)
  {
    && j <= |Ops(f)| == Total(f) && t.issued == Ops(f)[..j]
    && t.lasts == (if j == Total(f) then 1 else 0)
    && (if j == Total(f) then t.state.Bounded() && t.state.fsm.CmIdle? else At(f, t.state, j))
  }

  lemma TraceAdvances(f: Fields, t: Trace, j: nat, ready: bool, o: Output)
    requires f.Bounded() && Legal(f.kind, f.rlist) && j < Total(f) && Stands(f, t, j)
    requires Advances(f, t.state, j, ready, o)
    ensures Stands(f, Traced(t, ready, o), if ready then j + 1 else j)
  {
    EncodingMeans(o.instr);
  }

  lemma CycleAdvances(f: Fields, instr: nat, t: Trace, j: nat, ready: bool)
    requires f == FieldsOf(instr) && Legal(f.kind, f.rlist) && j < Total(f) && Stands(f, t, j)
    ensures Stands(f, Cycle(instr, t, ready), if ready then j + 1 else j)
  {
    var i := Input(true, ready, instr, f);
    StepAdvances(f, t.state, j, i);
    TraceAdvances(f, t, j, ready, t.state.Step(i));
  }

  /** Under every pattern of stalls the operations taken so far are the beginning of the expansion,
      and the last one is marked, exactly once, in the cycle that takes the last operation; then the
      machine is idle again. */
  lemma {:induction false} IssuesExpansion(instr: nat, s: State, ready: seq<bool>)
    requires Expandable(instr) && s.Bounded() && s.fsm.CmIdle? && Taken(ready) <= Total(FieldsOf(instr))
    requires ready != [] && Taken(ready) == Total(FieldsOf(instr)) ==> ready[|ready| - 1]
    ensures |Ops(FieldsOf(instr))| == Total(FieldsOf(instr))
    ensures var f := FieldsOf(instr); var t := Cycles(instr, s, ready); var j := Taken(ready);
      && t.issued == Ops(f)[..j]
      && t.lasts == (if j == Total(f) then 1 else 0)
      && (if j == Total(f) then t.state.fsm.CmIdle? else At(f, t.state, j))
    decreases |ready|
  {
    var f := FieldsOf(instr);
    TotalIsLength(f);
    if ready != [] {
      var before := ready[..|ready| - 1];
      var go := ready[|ready| - 1];
      assert Taken(before) < Total(f);
      IssuesExpansion(instr, s, before);
      CycleAdvances(f, instr, Cycles(instr, s, before), Taken(before), go);
    }
  }

  /** A register list below four is reserved: it is rejected at once, and nothing is started. */
  lemma ReservedIsIllegal(s: State, i: Input)
    requires s.Bounded() && s.fsm.CmIdle? && i.fields.Bounded() && (i.fields.kind.Push? || IsPop(i.fields.kind))
    ensures s.Step(i).illegal <==> i.fields.rlist < 4
    ensures s.Step(i).illegal ==> s.Step(i).next.fsm.CmIdle?
  {
  }

  /** So is an encoding that is none of the instructions; the moves, and what has been started, never are. */
  lemma OthersAreIllegal(s: State, i: Input)
    requires s.Bounded() && i.fields.Bounded()
    ensures i.fields.kind.Other? ==> s.Step(i).illegal && s.Step(i).next == s && s.Step(i).expanded.NotExpanded?
    ensures i.fields.kind.MvSA? || i.fields.kind.MvAS? || !s.fsm.CmIdle? ==>
      (s.Step(i).illegal <==> i.fields.kind.Other?)
  {
  }

  /** Nothing starts while the instruction is not valid. */
  lemma InvalidWaits(s: State, i: Input)
    requires s.Bounded() && s.fsm.CmIdle? && i.fields.Bounded() && !i.valid
    ensures s.Step(i).next.fsm.CmIdle? && s.Step(i).expanded.NotExpanded?
  {
  }

  /** All operations are taken, the last one in the last cycle. */
  predicate Completes(instr: nat, stalls: seq<bool>)
    requires Expandable(instr)
  {
    stalls != [] && stalls[|stalls| - 1] && Taken(stalls) == Total(FieldsOf(instr))
  }

  lemma Completed(instr: nat, s: State, stalls: seq<bool>)
    requires Expandable(instr) && s.Bounded() && s.fsm.CmIdle? && Completes(instr, stalls)
    ensures Cycles(instr, s, stalls).issued == Ops(FieldsOf(instr))
    ensures Cycles(instr, s, stalls).lasts == 1 && Cycles(instr, s, stalls).state.fsm.CmIdle?
  {
    IssuesExpansion(instr, s, stalls);
    assert Ops(FieldsOf(instr))[..Total(FieldsOf(instr))] == Ops(FieldsOf(instr));
  }

  /** What each form of pop leaves: everything the push saved restored; with a return, the saved return address
      taken; with a zero, zero in a0. */
  ghost predicate PoppedAs(kind: Kind, before: Machine, m: Machine, t: Machine, rlist: nat)
    requires IsPop(kind) && 4 <= rlist < 16
  {
    && PopDone(before, if kind.PopRetZ? then SetReg(m, 10, 0) else m, t, rlist)
    && (kind.PopRetZ? ==> t.regs(10) == 0)
    && t.pc == if kind.Pop? then m.pc else before.regs(1) - before.regs(1) % 2
  }

  lemma PopsAs(f: Fields, before: Machine, m: Machine)
    requires f.Bounded() && IsPop(f.kind) && f.rlist >= 4 && ReadyToPop(before, m, f.rlist, f.spimm)
    ensures PoppedAs(f.kind, before, m, ExecuteAll(m, Ops(f)), f.rlist)
  {
    match f.kind {
      case Pop => PopUndoesPush(before, m, f.rlist, f.spimm);
      case PopRet => PopRetReturns(before, m, f.rlist, f.spimm);
      case PopRetZ => PopRetZReturnsZero(before, m, f.rlist, f.spimm);
    }
  }

  /** Together: under any stalls `cm.push` issues operations that save the listed registers in the
      frame, and, whatever runs in between as long as it keeps the frame and the stack pointer, a pop of any form
      with the same list and adjustment issues operations that restore them. */
  lemma RoundTrip(before: Machine, m: Machine, push: nat, pop: nat, s: State, u: State,
                  stalls: seq<bool>, stalls2: seq<bool>)
    requires Expandable(push) && FieldsOf(push).kind.Push? && Expandable(pop) && IsPop(FieldsOf(pop).kind)
    requires FieldsOf(pop).rlist == FieldsOf(push).rlist && FieldsOf(pop).spimm == FieldsOf(push).spimm
    requires s.Bounded() && s.fsm.CmIdle? && u.Bounded() && u.fsm.CmIdle?
    requires Completes(push, stalls) && Completes(pop, stalls2)
    requires ReadyToPop(before, m, FieldsOf(push).rlist, FieldsOf(push).spimm)
    ensures var f := FieldsOf(push); var t := ExecuteAll(before, Cycles(push, s, stalls).issued);
      PushDone(before, t, f.rlist, Adjustment(f.rlist, f.spimm)) && ReadyToPop(before, t, f.rlist, f.spimm)
    ensures PoppedAs(FieldsOf(pop).kind, before, m, ExecuteAll(m, Cycles(pop, u, stalls2).issued), FieldsOf(push).rlist)
  {
    var f := FieldsOf(push);
    Completed(push, s, stalls);
    Completed(pop, u, stalls2);
    PushSaves(before, f.rlist, f.spimm);
    PushThenReady(before, f.rlist, f.spimm);
    PopsAs(FieldsOf(pop), before, m);
  }
}
