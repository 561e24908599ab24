/** The load/store unit on a bus, over whole runs: an access split in two has the effect of one
    access to a memory of bytes, under any timing of grants and responses. */
module LsuRun {
  import opened Lsu
  import opened LsuAccess

  // ------------------------------------------------------------------ the system

  datatype Option<T> = None | Some(value: T)

  /** The access in progress: what was asked, which words the PMP blocks, the memory it found, and
      for a split access how its first half ended. */
  datatype Access = Access(req: Request, blocked: nat -> bool, before: Memory, busErr1: bool, wrote1: bool)

  /** What one cycle brings besides the inputs: the PMP's view if an access starts, and whether a
      write that is answered with an error took effect all the same. */
  datatype Event = Event(i: Input, blocked: nat -> bool, applied: bool)

  datatype System = System(lsu: State, queue: seq<Txn>, mem: Memory, cur: Option<Access>) {

    predicate Starts(e: Event) {
      lsu.fsm.Idle? && e.i.req
    }

    /** The transaction granted in this cycle, if any. */
    function Granted(e: Event): seq<Txn> {
      if e.i.gnt then [Txn(e.i.access.we, lsu.DataAddr(e.i), lsu.DataBe(e.i), lsu.DataWdata(e.i))] else []
    }

    predicate Writes(e: Event) {
      e.i.rvalid && queue != [] && queue[0].we && (!e.i.busErr || e.applied)
    }

    function NextMem(e: Event): Memory {
      if Writes(e) then Apply(mem, queue[0]) else mem
    }

    function NextCur(e: Event): Option<Access> {
      if Starts(e) then Some(Access(e.i.access, e.blocked, NextMem(e), false, false))
      else if lsu.RespValid(e.i) then None
      else if cur.Some? && lsu.FirstDone(e.i) then
        Some(cur.value.(busErr1 := e.i.rvalid && e.i.busErr, wrote1 := Writes(e)))
      else cur
    }

    function Next(e: Event): System {
      System(lsu.Next(e.i),
             (if e.i.rvalid && queue != [] then queue[1..] else queue) + Granted(e),
             NextMem(e), NextCur(e))
    }

    /** What the rest of the core and the bus promise. */
    ghost predicate Legal(e: Event) {
      && e.i.access.addr < SPACE
      // the ID stage holds the request until it is done, and starts another only when no response is
      // outstanding other than one arriving now
      && (!lsu.fsm.Idle? ==> cur.Some? && e.i.access == cur.value.req)
      && (Starts(e) && cur.Some? ==> lsu.RespValid(e.i))
      // the PMP answers for the address on the bus; a blocked request is not granted
      && (lsu.DataReq(e.i) || lsu.fsm.WaitRvalidMisGntsDone? ==>
            (Starts(e) || cur.Some?) &&
            e.i.pmpErr == (if Starts(e) then e.blocked else cur.value.blocked)(lsu.DataAddr(e.i)))
      && (e.i.gnt ==> lsu.DataReq(e.i) && !e.i.pmpErr)
      // responses come in order, at least a cycle after the grant, with the word's contents
      && (e.i.rvalid ==> queue != [])
      && (e.i.rvalid && !e.i.busErr && !queue[0].we ==> e.i.rdata == WordAt(mem, queue[0].word))
    }
  }

  ghost predicate Initial(s: System) {
    s.lsu == ResetState() && s.queue == [] && s.cur == None
  }

  // ------------------------------------------------------------------ the invariant

  predicate FirstFailed(a: Access) {
    a.blocked(FirstWord(a.req)) || a.busErr1
  }

  predicate SecondBlocked(a: Access) {
    a.blocked(SecondWord(a.req))
  }

  /** The first half of a split access is over. */
  ghost predicate FirstOver(s: System, a: Access) {
    && a.req.addr < SPACE && IsSplit(a.req)
    && Describes(s.lsu, a.req)
    && s.lsu.lsuErr == FirstFailed(a)
    && Shows(s.mem, a.req, a.before, a.wrote1, false)
    && (!FirstFailed(a) ==>
          a.wrote1 == a.req.we && (!a.req.we ==> Keeps(s.lsu, WordAt(a.before, FirstWord(a.req)))))
  }

  /** Nothing has been answered yet. */
  ghost predicate Fresh(s: System, a: Access) {
    a.req.addr < SPACE && !a.busErr1 && !a.wrote1 && Shows(s.mem, a.req, a.before, false, false)
  }

  ghost predicate AwaitsFinal(s: System, a: Access) {
    if IsSplit(a.req) then
      && FirstOver(s, a)
      && s.lsu.pmpErr == SecondBlocked(a)
      && s.queue == (if s.lsu.pmpErr then [] else [Half(a.req, true)])
      && s.lsu.addrLast == (if FirstFailed(a) then a.req.addr else SecondWord(a.req))
    else
      && Fresh(s, a) && !s.lsu.lsuErr
      && Describes(s.lsu, a.req)
      && s.lsu.pmpErr == a.blocked(FirstWord(a.req))
      && s.queue == (if s.lsu.pmpErr then [] else [Half(a.req, false)])
      && s.lsu.addrLast == a.req.addr
  }

  ghost predicate Consistent(s: System) {
    match s.lsu.fsm {
      case Idle =>
        !s.lsu.handleMisaligned &&
        match s.cur {
          case None => s.queue == [] && !s.lsu.pmpErr
          case Some(a) => AwaitsFinal(s, a)
        }
      case WaitGntMis =>
        s.cur.Some? && var a := s.cur.value;
        && Fresh(s, a) && IsSplit(a.req) && s.queue == [] && !s.lsu.handleMisaligned && !s.lsu.lsuErr
        && s.lsu.pmpErr == a.blocked(FirstWord(a.req))
      case WaitRvalidMis =>
        s.cur.Some? && var a := s.cur.value;
        && Fresh(s, a) && IsSplit(a.req) && Describes(s.lsu, a.req) && s.lsu.handleMisaligned && !s.lsu.lsuErr
        && s.lsu.pmpErr == a.blocked(FirstWord(a.req))
        && s.queue == (if s.lsu.pmpErr then [] else [Half(a.req, false)])
        && s.lsu.addrLast == a.req.addr
      case WaitGnt =>
        s.cur.Some? && s.queue == [] && var a := s.cur.value;
        if s.lsu.handleMisaligned then
          FirstOver(s, a) && s.lsu.pmpErr == SecondBlocked(a) && s.lsu.addrLast == a.req.addr
        else
          Fresh(s, a) && !IsSplit(a.req) && !s.lsu.lsuErr && s.lsu.pmpErr == a.blocked(FirstWord(a.req))
      case WaitRvalidMisGntsDone =>
        s.cur.Some? && var a := s.cur.value;
        && Fresh(s, a) && IsSplit(a.req) && Describes(s.lsu, a.req) && !s.lsu.handleMisaligned && !s.lsu.pmpErr
        && !a.blocked(FirstWord(a.req)) && !SecondBlocked(a)
        && s.queue == [Half(a.req, false), Half(a.req, true)]
        && s.lsu.addrLast == a.req.addr
    }
  }

  // ------------------------------------------------------------------ each state keeps it

  /** A new memory shows no effect on itself. */
  lemma ShowsItself(r: Request, mem: Memory)
    requires r.addr < SPACE
    ensures Shows(mem, r, mem, false, false)
  {
  }

  lemma AlignedLoadsNothing(r: Request, a: nat)
    requires r.addr < SPACE && a == (r.addr + 4) % SPACE
    ensures a % 4 == r.addr % 4
  {
  }

  lemma StartStep(s: System, e: Event)
    requires s.lsu.fsm.Idle? && Consistent(s) && s.Legal(e) && s.Starts(e)
    ensures Consistent(s.Next(e))
  {
    ShowsItself(e.i.access, s.NextMem(e));
  }

  lemma IdleStep(s: System, e: Event)
    requires s.lsu.fsm.Idle? && Consistent(s) && s.Legal(e) && !s.Starts(e)
    ensures Consistent(s.Next(e))
  {
  }

  lemma WaitGntMisStep(s: System, e: Event)
    requires s.lsu.fsm.WaitGntMis? && Consistent(s) && s.Legal(e)
    ensures Consistent(s.Next(e))
  {
  }

  /** A load finds the memory the access found. */
  lemma WordKept(now: Memory, a: Access)
    requires a.req.addr < SPACE && !a.req.we && Shows(now, a.req, a.before, a.wrote1, false)
    ensures WordAt(now, FirstWord(a.req)) == WordAt(a.before, FirstWord(a.req))
    ensures WordAt(now, SecondWord(a.req)) == WordAt(a.before, SecondWord(a.req))
  {
    WordsApart(a.req);
  }

  /** The first half's response and its memory effect. */
  lemma FirstAnswered(s: System, e: Event, a: Access)
    requires s.Legal(e) && s.cur == Some(a) && Fresh(s, a) && IsSplit(a.req) && Describes(s.lsu, a.req)
    requires s.lsu.fsm.WaitRvalidMis? || (s.lsu.fsm.WaitRvalidMisGntsDone? && !s.lsu.pmpErr)
    requires s.lsu.FirstDone(e.i) && s.lsu.pmpErr == a.blocked(FirstWord(a.req))
    requires if s.lsu.pmpErr then s.queue == [] else s.queue != [] && s.queue[0] == Half(a.req, false)
    ensures s.Next(e).cur.Some? && FirstOver(s.Next(e), s.Next(e).cur.value)
  {
    if s.Writes(e) {
      FirstApplied(s.mem, a.req, a.before);
    } else if !a.req.we {
      WordKept(s.mem, a);
    }
  }

  lemma WaitRvalidMisStep(s: System, e: Event)
    requires s.lsu.fsm.WaitRvalidMis? && Consistent(s) && s.Legal(e)
    ensures Consistent(s.Next(e))
  {
    var a := s.cur.value;
    AlignedLoadsNothing(a.req, (a.req.addr + 4) % SPACE);
    if s.lsu.FirstDone(e.i) {
      FirstAnswered(s, e, a);
    }
  }

  lemma WaitGntStep(s: System, e: Event)
    requires s.lsu.fsm.WaitGnt? && Consistent(s) && s.Legal(e)
    ensures Consistent(s.Next(e))
  {
    var a := s.cur.value;
    AlignedLoadsNothing(a.req, (a.req.addr + 4) % SPACE);
  }

  lemma GntsDoneStep(s: System, e: Event)
    requires s.lsu.fsm.WaitRvalidMisGntsDone? && Consistent(s) && s.Legal(e)
    ensures Consistent(s.Next(e))
  {
    var a := s.cur.value;
    if e.i.rvalid {
      FirstAnswered(s, e, a);
    }
  }

  lemma Step(s: System, e: Event)
    requires Consistent(s) && s.Legal(e)
    ensures Consistent(s.Next(e))
  {
    match s.lsu.fsm {
      case Idle =>
        if s.Starts(e) {
          StartStep(s, e);
        } else {
          IdleStep(s, e);
        }
      case WaitGntMis => WaitGntMisStep(s, e);
      case WaitRvalidMis => WaitRvalidMisStep(s, e);
      case WaitGnt => WaitGntStep(s, e);
      case WaitRvalidMisGntsDone => GntsDoneStep(s, e);
    }
  }

  // ------------------------------------------------------------------ the final response

  /** Whether the first or the second half of a split access failed, by the bus or the PMP. */
  predicate HalfFailed(a: Access, i: Input, second: bool) {
    if !second then IsSplit(a.req) && FirstFailed(a)
    else a.blocked(if IsSplit(a.req) then SecondWord(a.req) else FirstWord(a.req)) || (i.rvalid && i.busErr)
  }

  predicate Failed(a: Access, i: Input) {
    HalfFailed(a, i, false) || HalfFailed(a, i, true)
  }

  /** The response reports an error exactly when either half failed, as a load or a store error, and
      then the last address is that of the access if its first half failed (or it has only one), and
      the word-aligned address of the second half otherwise. */
  lemma ErrorsReported(s: System, e: Event)
    requires Consistent(s) && s.Legal(e) && s.lsu.RespValid(e.i)
    ensures s.cur.Some?
    ensures var a := s.cur.value;
      && s.lsu.LoadErr(e.i) == (Failed(a, e.i) && !a.req.we)
      && s.lsu.StoreErr(e.i) == (Failed(a, e.i) && a.req.we)
      && s.lsu.addrLast == (if IsSplit(a.req) && !HalfFailed(a, e.i, false) then SecondWord(a.req) else a.req.addr)
  {
  }

  /** Neither data nor an error is reported in any other cycle, and a cycle has at most one of the three. */
  lemma ReportedOnce(s: System, e: Event)
    ensures !s.lsu.RespValid(e.i) ==> !s.lsu.LoadErr(e.i) && !s.lsu.StoreErr(e.i) && !s.lsu.RdataValid(e.i)
    ensures !(s.lsu.LoadErr(e.i) && s.lsu.StoreErr(e.i))
    ensures s.lsu.RdataValid(e.i) ==> !s.lsu.LoadErr(e.i) && !s.lsu.StoreErr(e.i)
  {
  }

  /** An error-free load delivers the little-endian value of its bytes, extended as asked. */
  lemma LoadDelivers(s: System, e: Event)
    requires Consistent(s) && s.Legal(e) && s.lsu.RespValid(e.i)
    ensures s.cur.Some?
    ensures var a := s.cur.value;
      && s.lsu.RdataValid(e.i) == (!Failed(a, e.i) && !a.req.we && !e.i.intgErr)
      && (!Failed(a, e.i) && !a.req.we ==> s.lsu.Rdata(e.i) == Loaded(a.req, a.before))
    ensures var a := s.cur.value;
      !Failed(a, e.i) && !a.req.we ==> Number(s.lsu.Rdata(e.i)) == NumberLoaded(a.req, a.before)
  {
    var a := s.cur.value;
    if !Failed(a, e.i) && !a.req.we {
      WordKept(s.mem, a);
      NumberIs(a.req, a.before);
      if IsSplit(a.req) {
        LoadsTwo(s.lsu, e.i, a.req, a.before);
      } else {
        LoadsOne(s.lsu, e.i, a.req, a.before);
      }
    }
  }

  /** An access that is not split has no bytes in the second word. */
  lemma OneHalf(now: Memory, a: Access)
    requires a.req.addr < SPACE && !IsSplit(a.req) && Shows(now, a.req, a.before, true, false)
    ensures Shows(now, a.req, a.before, true, true)
  {
    SplitMeansCrossing(a.req);
  }

  /** Each half of a store wrote exactly its bytes of the access, or, possible only if it failed,
      nothing. An error-free store wrote them all, and a load changed nothing. */
  lemma StoreWrites(s: System, e: Event) returns (first: bool, second: bool)
    requires Consistent(s) && s.Legal(e) && s.lsu.RespValid(e.i)
    ensures s.cur.Some?
    ensures var a := s.cur.value;
      && Shows(s.Next(e).mem, a.req, a.before, first, second)
      && (a.req.we && !HalfFailed(a, e.i, false) && (!IsSplit(a.req) ==> !HalfFailed(a, e.i, true)) ==> first)
      && (a.req.we && !HalfFailed(a, e.i, true) ==> second)
  {
    var a := s.cur.value;
    if IsSplit(a.req) {
      first, second := a.wrote1, s.Writes(e);
      if second {
        SecondApplied(s.mem, a.req, a.before, first);
      }
    } else {
      first := s.Writes(e);
      second := first;
      if first {
        FirstApplied(s.mem, a.req, a.before);
        OneHalf(s.NextMem(e), a);
      }
    }
  }

  /** What a completed store means, address by address: the bytes of the access hold the data and
      every other byte is as before. */
  lemma StoreIsBytewise(r: Request, before: Memory, now: Memory)
    requires r.addr < SPACE && r.we && Shows(now, r, before, true, true)
    ensures forall k | 0 <= k < Bytes(r.size) :: now(Place(r, k)) == r.wdata.Byte(k)
    ensures forall x | 0 <= x < SPACE && (forall k | 0 <= k < Bytes(r.size) :: Place(r, k) != x) :: now(x) == before(x)
  {
    forall k | 0 <= k < Bytes(r.size) ensures now(Place(r, k)) == r.wdata.Byte(k) {
      assert Index(r, Place(r, k)) == k;
      assert now(Place(r, k)) == Effect(r, before, true, true, Place(r, k));
    }
    forall x | 0 <= x < SPACE && (forall k | 0 <= k < Bytes(r.size) :: Place(r, k) != x)
      ensures now(x) == before(x)
    {
      assert Place(r, Index(r, x)) == x;
    }
  }

  // ------------------------------------------------------------------ progress

  /** Grants and responses an access still needs, or steps that replace them for a blocked half. */
  function Remaining(s: System): nat {
    match s.lsu.fsm {
      case Idle => if s.cur.Some? then 1 else 0
      case WaitGntMis => 4
      case WaitRvalidMis => 3
      case WaitGnt => 2
      case WaitRvalidMisGntsDone => 2
    }
  }

  function One(b: bool): nat {
    if b then 1 else 0
  }

  /** Every grant, response or step past a blocked half brings the access one nearer its end. */
  lemma Progress(s: System, e: Event)
    requires Consistent(s) && s.Legal(e)
    ensures s.Starts(e) ==> Remaining(s.Next(e)) + One(e.i.gnt) == if IsSplit(e.i.access) then 4 else 2
    ensures !s.Starts(e) ==>
      Remaining(s.Next(e)) + One(e.i.gnt) + One(e.i.rvalid) + One(s.lsu.pmpErr) == Remaining(s)
  {
  }

  /** The unit reports the request done exactly when only the final response is still due. */
  lemma DoneWhenResponseDue(s: System, e: Event)
    requires Consistent(s) && s.Legal(e)
    ensures s.lsu.ReqDone(e.i) <==> Remaining(s.Next(e)) == 1 && (s.Starts(e) || Remaining(s) > 1)
  {
  }

  /** And one of the three can always happen: the unit requests, a response is due, or a block is
      being stepped past. */
  lemma NeverStuck(s: System, i: Input)
    requires Consistent(s) && s.cur.Some?
    ensures s.lsu.DataReq(i) || s.queue != [] || s.lsu.pmpErr
  {
  }

  // ------------------------------------------------------------------ runs

  ghost function Run(s: System, events: seq<Event>): System
    decreases |events|
  {
    if events == [] then s
    else Run(s, events[..|events| - 1]).Next(events[|events| - 1])
  }

  ghost predicate LegalRun(s: System, events: seq<Event>)
    decreases |events|
  {
    events == [] ||
    (LegalRun(s, events[..|events| - 1]) && Run(s, events[..|events| - 1]).Legal(events[|events| - 1]))
  }

  ghost function Started(s: System, events: seq<Event>): nat
    decreases |events|
  {
    if events == [] then 0
    else Started(s, events[..|events| - 1]) + One(Run(s, events[..|events| - 1]).Starts(events[|events| - 1]))
  }

  ghost function Responses(s: System, events: seq<Event>): nat
    decreases |events|
  {
    if events == [] then 0
    else
      var before := events[..|events| - 1];
      Responses(s, before) + One(Run(s, before).lsu.RespValid(events[|events| - 1].i))
  }

  lemma CountStep(s: System, e: Event)
    requires Consistent(s) && s.Legal(e)
    ensures One(s.cur.Some?) + One(s.Starts(e)) == One(s.lsu.RespValid(e.i)) + One(s.Next(e).cur.Some?)
  {
  }

  /** In every run the state stays consistent, so the lemmas above hold at every response; and each
      access started gets exactly one final response: all have, except the one still in progress. */
  lemma {:induction false} EveryRun(s: System, events: seq<Event>)
    requires Initial(s) && LegalRun(s, events)
    ensures Consistent(Run(s, events))
    ensures Started(s, events) == Responses(s, events) + One(Run(s, events).cur.Some?)
    decreases |events|
  {
    if events != [] {
      var prefix, e := events[..|events| - 1], events[|events| - 1];
      EveryRun(s, prefix);
      Step(Run(s, prefix), e);
      CountStep(Run(s, prefix), e);
    }
  }
}
