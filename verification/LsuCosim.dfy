/** The load/store unit under the co-simulation checker: what the monitor of
    dv/uvm/core_ibex/common/ibex_mem_intf_agent/ibex_mem_intf_monitor.sv sees of the unit on its bus is notified to the
    checker, while the simulator runs behind on a memory of its own. */
module LsuCosim {
  import opened Lsu
  import opened LsuAccess
  import opened Cosim
  import opened CosimRuns
  import LsuRun

  // ------------------------------------------------------------------ the system

  /** What the monitor keeps of a granted transaction. */
  datatype Collected = Collected(txn: Txn, first: bool, second: bool)

  /** The transaction on the bus, with the signals that tell the halves of a misaligned access. */
  function Sampled(s: State, i: Input): Collected {
    Collected(Txn(i.access.we, s.DataAddr(i), s.DataBe(i), s.DataWdata(i)),
              s.NextHandleMisaligned(i) || (i.access.size.HalfAccess? && s.Adder(i) % 4 == 1),
              s.AddrIncrReq())
  }

  /** What is notified at its response. */
  function Reported(c: Collected, i: Input): Dut {
    Dut(c.txn.we, if c.txn.we then c.txn.wdata else i.rdata, c.txn.word, c.txn.be, i.busErr, c.first, c.second)
  }

  function StillWatched(watched: seq<Collected>, i: Input): seq<Collected> {
    if i.rvalid && watched != [] then watched[1..] else watched
  }

  function Notified(watched: seq<Collected>, i: Input): seq<Pending> {
    if i.rvalid && watched != [] then [Pending(Reported(watched[0], i), NO_BYTES)] else []
  }

  predicate Completes(s: LsuRun.System, i: Input) {
    s.cur.Some? && s.lsu.RespValid(i)
  }

  /** Memory after a request. */
  function Executed(r: Request, mem: Memory): Memory {
    (x: nat) => if r.addr < SPACE && x < SPACE then Effect(r, mem, true, true, x) else mem(x)
  }

  /** What the bus, the PMP and the ID stage promise, and that no access fails. */
  ghost predicate Faultless(s: LsuRun.System, e: LsuRun.Event) {
    && s.Legal(e) && !(e.i.rvalid && e.i.busErr)
    && (s.lsu.DataReq(e.i) || s.lsu.fsm.WaitRvalidMisGntsDone? ==> !e.i.pmpErr)
  }

  /** A cycle of the unit, or an access of the simulator, which the checker compares. */
  datatype Event = Cycle(e: LsuRun.Event) | Access

  /** The unit on its bus, the monitor, the checker's queue, and the simulator: the requests the unit has completed and
      the simulator has not, the bytes of the first of them it has checked, and its memory. */
  datatype Bench = Bench(sys: LsuRun.System, watched: seq<Collected>, pending: seq<Pending>,
                         behind: seq<Request>, checked: nat, sim: Memory) {

    function AfterCycle(e: LsuRun.Event): Bench {
      this.(sys := sys.Next(e),
            watched := StillWatched(watched, e.i) + if e.i.gnt then [Sampled(sys.lsu, e.i)] else [],
            pending := pending + Notified(watched, e.i),
            behind := behind + if Completes(sys, e.i) then [sys.cur.value.req] else [])
    }

    /** The next access the simulator makes: a byte of a misaligned request, or all of an aligned one. */
    function NextAccess(): Iss
      requires behind != []
    {
      if MisalignedRequest(behind[0]) then ByteAt(behind[0], sim, checked) else WholeAccess(behind[0], sim)
    }

    ghost function AfterAccess(): Bench
      requires behind != []
    {
      var r, after := behind[0], Remaining(pending, NextAccess());
      if !MisalignedRequest(r) || checked + 1 >= Bytes(r.size) then
        this.(pending := after, behind := behind[1..], checked := 0, sim := Executed(r, sim))
      else
        this.(pending := after, checked := checked + 1)
    }

    /** The simulator stays behind the unit. */
    ghost predicate Legal(e: Event) {
      match e {
        case Cycle(c) => Faultless(sys, c)
        case Access => behind != []
      }
    }

    ghost function Next(e: Event): Bench
      requires Legal(e)
    {
      match e {
        case Cycle(c) => AfterCycle(c)
        case Access => AfterAccess()
      }
    }
  }

  ghost predicate SameMemory(m: Memory, n: Memory) {
    forall x | 0 <= x < SPACE :: m(x) == n(x)
  }

  ghost predicate Initial(b: Bench) {
    && LsuRun.Initial(b.sys) && b.watched == [] && b.pending == [] && b.behind == [] && b.checked == 0
    && SameMemory(b.sim, b.sys.mem)
  }

  // ------------------------------------------------------------------ the invariant

  function ExecutedAll(rs: seq<Request>, mem: Memory): Memory {
    if rs == [] then mem else ExecutedAll(rs[1..], Executed(rs[0], mem))
  }

  /** What the checker is to be notified of for requests made one after the other. */
  function AllAccesses(rs: seq<Request>, mem: Memory): seq<Pending> {
    if rs == [] then [] else Accesses(rs[0], mem) + AllAccesses(rs[1..], Executed(rs[0], mem))
  }

  /** Of which some bytes of the first have been checked. */
  function Unchecked(rs: seq<Request>, mem: Memory, k: nat): seq<Pending> {
    if rs == [] then [] else Left(rs[0], mem, k) + AllAccesses(rs[1..], Executed(rs[0], mem))
  }

  /** A half as the monitor is to see it. */
  function HalfSeen(r: Request, second: bool): Collected {
    Collected(Half(r, second), !second && MisalignedRequest(r), second)
  }

  /** The halves granted and not answered. */
  function Granted(s: LsuRun.System): seq<Collected> {
    if s.cur.None? then []
    else
      var r := s.cur.value.req;
      match s.lsu.fsm {
        case Idle => [HalfSeen(r, IsSplit(r))]
        case WaitRvalidMis => [HalfSeen(r, false)]
        case WaitRvalidMisGntsDone => [HalfSeen(r, false), HalfSeen(r, true)]
        case _ => []
      }
  }

  /** Only the first half has been answered. */
  predicate FirstAnswered(s: LsuRun.System) {
    s.cur.Some? && ((s.lsu.fsm.WaitGnt? && s.lsu.handleMisaligned) || (s.lsu.fsm.Idle? && IsSplit(s.cur.value.req)))
  }

  /** The memory the access in progress, or the next, has found. */
  function Found(s: LsuRun.System): Memory {
    if s.cur.Some? then s.cur.value.before else s.mem
  }

  /** What has been notified of the access in progress. */
  function HalfNotified(s: LsuRun.System, mem: Memory): seq<Pending> {
    if FirstAnswered(s) then [Pending(BusAccess(s.cur.value.req, mem, false), NO_BYTES)] else []
  }

  ghost predicate Watching(s: LsuRun.System, watched: seq<Collected>) {
    LsuRun.Consistent(s) && !s.lsu.pmpErr && !s.lsu.lsuErr && watched == Granted(s)
  }

  ghost predicate Behind(rs: seq<Request>, k: nat) {
    && (forall r | r in rs :: r.addr < SPACE)
    && (if rs != [] && MisalignedRequest(rs[0]) then k < Bytes(rs[0].size) else k == 0)
  }

  ghost predicate Joined(b: Bench) {
    && Watching(b.sys, b.watched) && Behind(b.behind, b.checked)
    && SameMemory(ExecutedAll(b.behind, b.sim), Found(b.sys))
    && b.pending == Unchecked(b.behind, b.sim, b.checked) + HalfNotified(b.sys, ExecutedAll(b.behind, b.sim))
  }

  // ------------------------------------------------------------------ one more request

  lemma Regrouped(s: seq<Pending>, t: seq<Pending>, u: seq<Pending>)
    ensures s + t + u == s + (t + u)
  {
  }

  lemma OneAlone(r: Request, mem: Memory)
    ensures ExecutedAll([r], mem) == Executed(r, mem)
    ensures AllAccesses([r], mem) == Accesses(r, mem) && Unchecked([r], mem, 0) == Accesses(r, mem)
  {
    assert [r][1..] == [];
    assert Lanes(r, false, 0) == NO_BYTES;
  }

  lemma {:induction false} ExecutedOneMore(rs: seq<Request>, mem: Memory, r: Request)
    ensures ExecutedAll(rs + [r], mem) == Executed(r, ExecutedAll(rs, mem))
    ensures AllAccesses(rs + [r], mem) == AllAccesses(rs, mem) + Accesses(r, ExecutedAll(rs, mem))
    decreases |rs|
  {
    if rs == [] {
      assert rs + [r] == [r];
      OneAlone(r, mem);
    } else {
      assert (rs + [r])[1..] == rs[1..] + [r];
      ExecutedOneMore(rs[1..], Executed(rs[0], mem), r);
    }
  }

  lemma UncheckedFromStart(rs: seq<Request>, mem: Memory)
    ensures Unchecked(rs, mem, 0) == AllAccesses(rs, mem)
  {
    if rs != [] {
      assert Lanes(rs[0], false, 0) == NO_BYTES;
    }
  }

  lemma UncheckedOneMore(rs: seq<Request>, mem: Memory, k: nat, r: Request)
    requires rs == [] ==> k == 0
    ensures Unchecked(rs + [r], mem, k) == Unchecked(rs, mem, k) + Accesses(r, ExecutedAll(rs, mem))
  {
    if rs == [] {
      assert rs + [r] == [r];
      OneAlone(r, mem);
    } else {
      var mem' := Executed(rs[0], mem);
      assert (rs + [r])[1..] == rs[1..] + [r];
      ExecutedOneMore(rs[1..], mem', r);
      Regrouped(Left(rs[0], mem, k), AllAccesses(rs[1..], mem'), Accesses(r, ExecutedAll(rs[1..], mem')));
    }
  }

  // ------------------------------------------------------------------ what the monitor sees

  lemma SampledAddress(s: State, i: Input, r: Request, second: bool)
    requires i.access == r && r.addr < SPACE && second == s.AddrIncrReq() && (second ==> s.addrLast == r.addr)
    ensures s.Adder(i) % 4 == r.addr % 4 && s.DataAddr(i) == Half(r, second).word
  {
    LsuRun.AlignedLoadsNothing(r, (r.addr + 4) % SPACE);
  }

  lemma Parity(a: nat)
    ensures a % 2 == a % 4 % 2
  {
    var half := a / 2;
    assert half == 2 * (a / 4) + a % 4 / 2;
  }

  /** A misaligned access crosses a word boundary, or is a halfword in the middle of a word. */
  lemma MisalignedIs(r: Request)
    ensures MisalignedRequest(r) <==> IsSplit(r) || (r.size.HalfAccess? && r.addr % 4 == 1)
  {
    var offset := r.addr % 4;
    Parity(r.addr);
    assert offset == 0 || offset == 1 || offset == 2 || offset == 3;
  }

  /** The signals that tell the halves apart. */
  lemma SampledTags(s: State, i: Input, r: Request, second: bool)
    requires i.access == r && i.gnt && s.DataReq(i) && !s.pmpErr && s.Adder(i) % 4 == r.addr % 4
    requires second == s.AddrIncrReq() == s.handleMisaligned && (second ==> IsSplit(r))
    requires (s.fsm.WaitGntMis? ==> IsSplit(r)) && (s.fsm.WaitGnt? && !second ==> !IsSplit(r))
    ensures Sampled(s, i).first == (!second && MisalignedRequest(r)) && Sampled(s, i).second == second
  {
    MisalignedIs(r);
    assert s.Split(i) == IsSplit(r);
    assert s.NextHandleMisaligned(i) == (!second && IsSplit(r));
  }

  lemma SampledIs(s: State, i: Input, r: Request, second: bool)
    requires i.access == r && r.addr < SPACE && i.gnt && s.DataReq(i) && !s.pmpErr
    requires second == s.AddrIncrReq() == s.handleMisaligned && (second ==> IsSplit(r) && s.addrLast == r.addr)
    requires (s.fsm.WaitGntMis? ==> IsSplit(r)) && (s.fsm.WaitGnt? && !second ==> !IsSplit(r))
    ensures Sampled(s, i) == HalfSeen(r, second)
  {
    SampledAddress(s, i, r, second);
    SampledTags(s, i, r, second);
  }

  lemma WatchStep(s: LsuRun.System, watched: seq<Collected>, e: LsuRun.Event)
    requires Watching(s, watched) && Faultless(s, e)
    ensures (e.i.rvalid ==> watched != [])
    ensures Watching(s.Next(e), StillWatched(watched, e.i) + if e.i.gnt then [Sampled(s.lsu, e.i)] else [])
  {
    LsuRun.Step(s, e);
    if e.i.gnt {
      SampledIs(s.lsu, e.i, e.i.access, s.lsu.AddrIncrReq());
    }
  }

  // ------------------------------------------------------------------ what is notified

  lemma SameAccess(r: Request, m: Memory, n: Memory, second: bool)
    requires r.addr < SPACE && SameMemory(m, n)
    ensures BusAccess(r, m, second) == BusAccess(r, n, second)
  {
    WordsApart(r);
  }

  /** A response reports the half as the memory found determines it. */
  lemma ReportedIs(s: LsuRun.System, watched: seq<Collected>, e: LsuRun.Event)
    requires Watching(s, watched) && Faultless(s, e) && e.i.rvalid
    ensures s.cur.Some? && watched != []
    ensures var a := s.cur.value;
      Reported(watched[0], e.i) == BusAccess(a.req, a.before, s.lsu.fsm.Idle? && IsSplit(a.req))
  {
    var a := s.cur.value;
    if !a.req.we {
      LsuRun.WordKept(s.mem, a);
    }
  }

  lemma NotifiedIs(s: LsuRun.System, watched: seq<Collected>, e: LsuRun.Event, mem: Memory)
    requires Watching(s, watched) && Faultless(s, e) && e.i.rvalid && SameMemory(mem, Found(s))
    ensures s.cur.Some?
    ensures var r := s.cur.value.req;
      Notified(watched, e.i) == [Pending(BusAccess(r, mem, s.lsu.fsm.Idle? && IsSplit(r)), NO_BYTES)]
  {
    ReportedIs(s, watched, e);
    SameAccess(s.cur.value.req, mem, s.cur.value.before, s.lsu.fsm.Idle? && IsSplit(s.cur.value.req));
  }

  /** Before the final response at most a first half is notified. */
  lemma HalfStep(s: LsuRun.System, watched: seq<Collected>, e: LsuRun.Event, mem: Memory)
    requires Watching(s, watched) && Faultless(s, e) && !Completes(s, e.i) && SameMemory(mem, Found(s))
    ensures HalfNotified(s, mem) + Notified(watched, e.i) == HalfNotified(s.Next(e), mem)
    ensures Found(s.Next(e)) == Found(s)
  {
    if e.i.rvalid {
      NotifiedIs(s, watched, e, mem);
    }
  }

  /** With it everything is, and nothing yet of the access that follows. */
  lemma AllStep(s: LsuRun.System, watched: seq<Collected>, e: LsuRun.Event, mem: Memory)
    requires Watching(s, watched) && Faultless(s, e) && Completes(s, e.i) && SameMemory(mem, Found(s))
    ensures HalfNotified(s, mem) + Notified(watched, e.i) == Accesses(s.cur.value.req, mem)
    ensures HalfNotified(s.Next(e), Executed(s.cur.value.req, mem)) == []
  {
    NotifiedIs(s, watched, e, mem);
  }

  lemma SameExecuted(r: Request, m: Memory, n: Memory)
    requires r.addr < SPACE && SameMemory(m, n)
    ensures SameMemory(Executed(r, m), Executed(r, n))
  {
  }

  /** The completed request leaves memory as the simulator will. */
  lemma CompletedIs(s: LsuRun.System, watched: seq<Collected>, e: LsuRun.Event)
    requires Watching(s, watched) && Faultless(s, e) && Completes(s, e.i)
    ensures SameMemory(Executed(s.cur.value.req, s.cur.value.before), Found(s.Next(e)))
  {
    var first, second := LsuRun.StoreWrites(s, e);
    var a := s.cur.value;
    assert Found(s.Next(e)) == s.Next(e).mem;
    forall x | 0 <= x < SPACE ensures Executed(a.req, a.before)(x) == s.Next(e).mem(x) {
      assert s.Next(e).mem(x) == Effect(a.req, a.before, first, second, x);
    }
  }

  // ------------------------------------------------------------------ each step keeps it

  /** A cycle without a final response. */
  lemma StillBehind(b: Bench, e: LsuRun.Event)
    requires Joined(b) && Faultless(b.sys, e) && !Completes(b.sys, e.i)
    ensures Joined(b.AfterCycle(e))
  {
    var mem := ExecutedAll(b.behind, b.sim);
    WatchStep(b.sys, b.watched, e);
    HalfStep(b.sys, b.watched, e, mem);
    assert b.AfterCycle(e).behind == b.behind;
    Regrouped(Unchecked(b.behind, b.sim, b.checked), HalfNotified(b.sys, mem), Notified(b.watched, e.i));
  }

  lemma BehindOneMore(rs: seq<Request>, k: nat, r: Request)
    requires Behind(rs, k) && r.addr < SPACE
    ensures Behind(rs + [r], k)
  {
    assert rs != [] ==> (rs + [r])[0] == rs[0];
  }

  lemma OneMoreBehind(b: Bench, e: LsuRun.Event)
    requires Joined(b) && Faultless(b.sys, e) && Completes(b.sys, e.i)
    ensures Joined(b.AfterCycle(e))
  {
    var r, mem := b.sys.cur.value.req, ExecutedAll(b.behind, b.sim);
    WatchStep(b.sys, b.watched, e);
    AllStep(b.sys, b.watched, e, mem);
    Regrouped(Unchecked(b.behind, b.sim, b.checked), HalfNotified(b.sys, mem), Notified(b.watched, e.i));
    UncheckedOneMore(b.behind, b.sim, b.checked, r);
    ExecutedOneMore(b.behind, b.sim, r);
    CompletedIs(b.sys, b.watched, e);
    SameExecuted(r, mem, Found(b.sys));
    BehindOneMore(b.behind, b.checked, r);
  }

  /** What is in the queue behind the first request. */
  ghost function Rest(b: Bench): seq<Pending>
    requires b.behind != []
  {
    AllAccesses(b.behind[1..], Executed(b.behind[0], b.sim)) + HalfNotified(b.sys, ExecutedAll(b.behind, b.sim))
  }

  lemma QueueBehind(b: Bench, k: nat)
    requires b.behind != []
    ensures Unchecked(b.behind, b.sim, k) + HalfNotified(b.sys, ExecutedAll(b.behind, b.sim)) ==
      Left(b.behind[0], b.sim, k) + Rest(b)
  {
    Regrouped(Left(b.behind[0], b.sim, k), AllAccesses(b.behind[1..], Executed(b.behind[0], b.sim)),
              HalfNotified(b.sys, ExecutedAll(b.behind, b.sim)));
  }

  /** The next access is accepted, and takes what it is of the queue. */
  lemma Accepted(b: Bench)
    requires Joined(b) && b.behind != []
    ensures b.NextAccess().Valid() && Outcome(b.pending, b.NextAccess()) == MemOk
    ensures var r := b.behind[0];
      Remaining(b.pending, b.NextAccess()) ==
        if MisalignedRequest(r) then Left(r, b.sim, b.checked + 1) + Rest(b) else Rest(b)
  {
    var r := b.behind[0];
    QueueBehind(b, b.checked);
    if MisalignedRequest(r) {
      BytePasses(r, b.sim, b.checked, Rest(b));
    } else {
      AlignedAccepted(r, b.sim, Rest(b));
      assert Lanes(r, false, 0) == NO_BYTES;
      assert Left(r, b.sim, 0) == Accesses(r, b.sim);
    }
  }

  /** A check of a byte that is not the last. */
  lemma ByteChecked(b: Bench)
    requires Joined(b) && b.behind != [] && MisalignedRequest(b.behind[0]) && b.checked + 1 < Bytes(b.behind[0].size)
    ensures Joined(b.AfterAccess())
  {
    Accepted(b);
    QueueBehind(b, b.checked + 1);
  }

  lemma RequestChecked(b: Bench)
    requires Joined(b) && b.behind != []
    requires !MisalignedRequest(b.behind[0]) || b.checked + 1 >= Bytes(b.behind[0].size)
    ensures Joined(b.AfterAccess())
  {
    Accepted(b);
    UncheckedFromStart(b.behind[1..], Executed(b.behind[0], b.sim));
    assert [] + Rest(b) == Rest(b);
  }

  lemma CheckStep(b: Bench)
    requires Joined(b) && b.behind != []
    ensures Joined(b.AfterAccess())
  {
    if MisalignedRequest(b.behind[0]) && b.checked + 1 < Bytes(b.behind[0].size) {
      ByteChecked(b);
    } else {
      RequestChecked(b);
    }
  }

  lemma BenchStep(b: Bench, e: Event)
    requires Joined(b) && b.Legal(e)
    ensures Joined(b.Next(e))
  {
    match e {
      case Cycle(c) =>
        if Completes(b.sys, c.i) {
          OneMoreBehind(b, c);
        } else {
          StillBehind(b, c);
        }
      case Access => CheckStep(b);
    }
  }

  // ------------------------------------------------------------------ runs

  ghost predicate LegalRun(b: Bench, es: seq<Event>)
    decreases |es|, 0
  {
    es == [] || (LegalRun(b, es[..|es| - 1]) && Run(b, es[..|es| - 1]).Legal(es[|es| - 1]))
  }

  ghost function Run(b: Bench, es: seq<Event>): Bench
    requires LegalRun(b, es)
    decreases |es|, 1
  {
    if es == [] then b else Run(b, es[..|es| - 1]).Next(es[|es| - 1])
  }

  lemma {:induction false} RunJoined(b: Bench, es: seq<Event>)
    requires Initial(b) && LegalRun(b, es)
    ensures Joined(Run(b, es))
  {
    if es != [] {
      RunJoined(b, es[..|es| - 1]);
      BenchStep(Run(b, es[..|es| - 1]), es[|es| - 1]);
    }
  }

  lemma NothingBehind(b: Bench)
    requires Joined(b) && b.behind == []
    ensures SameMemory(b.sim, Found(b.sys)) && b.pending == HalfNotified(b.sys, b.sim)
  {
  }

  /** In a run without access errors, however the bus answers and however far the simulator stays behind: whatever the
      simulator does next is accepted by the checker. Whenever it has caught up, its memory is the one the access in
      progress has found, and nothing is left in the queue but the first half of that access. */
  lemma EveryAccessAccepted(b: Bench, es: seq<Event>)
    requires Initial(b) && LegalRun(b, es)
    ensures var t := Run(b, es);
      if t.behind != [] then t.NextAccess().Valid() && Outcome(t.pending, t.NextAccess()) == MemOk
      else SameMemory(t.sim, Found(t.sys)) && t.pending == HalfNotified(t.sys, t.sim)
  {
    RunJoined(b, es);
    var t := Run(b, es);
    if t.behind != [] {
      Accepted(t);
    } else {
      NothingBehind(t);
    }
  }

  lemma RunBehind(b: Bench, es: seq<Event>)
    requires Initial(b) && LegalRun(b, es)
    ensures Behind(Run(b, es).behind, Run(b, es).checked)
  {
    RunJoined(b, es);
  }

  lemma OneAccessMore(b: Bench, es: seq<Event>)
    requires LegalRun(b, es) && Run(b, es).behind != []
    ensures LegalRun(b, es + [Access]) && Run(b, es + [Access]) == Run(b, es).AfterAccess()
  {
    assert (es + [Access])[..|es|] == es;
  }

  lemma Less(b: Bench)
    requires Behind(b.behind, b.checked) && b.behind != []
    ensures var t := b.AfterAccess();
      t.sys == b.sys && (|t.behind| < |b.behind| || (|t.behind| == |b.behind| && b.checked < t.checked < 4))
  {
  }

  /** The simulator catches up: every run goes on with the simulator's accesses alone until nothing is behind. */
  lemma {:induction false} CatchesUp(b: Bench, es: seq<Event>) returns (all: seq<Event>)
    requires Initial(b) && LegalRun(b, es)
    ensures es <= all && forall i | |es| <= i < |all| :: all[i] == Access
    ensures LegalRun(b, all) && Run(b, all).behind == [] && Run(b, all).sys == Run(b, es).sys
    decreases |Run(b, es).behind|, 4 - Run(b, es).checked
  {
    if Run(b, es).behind == [] {
      all := es;
    } else {
      RunBehind(b, es);
      OneAccessMore(b, es);
      Less(Run(b, es));
      all := CatchesUp(b, es + [Access]);
    }
  }
}
