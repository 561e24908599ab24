/** What runs of the co-simulation checker establish, and which runs it accepts. */
module CosimRuns {
  import opened Lsu
  import opened LsuAccess
  import opened Cosim

  // ------------------------------------------------------------------ soundness

  /** A dequeued access of the core and the simulator's accesses checked against it. */
  datatype Match = Match(dut: Dut, iss: seq<Iss>)

  datatype Event = Notify(dut: Dut) | Check(iss: Iss)

  /** The queue, with the history: everything notified, the accesses dequeued, and what was checked
      against the one at the front. */
  datatype History = History(pending: seq<Pending>, notified: seq<Dut>, done: seq<Match>, partial: seq<Iss>) {

    ghost function Next(e: Event): History {
      match e {
        case Notify(d) => History(pending + [Pending(d, NO_BYTES)], notified + [d], done, partial)
        case Check(a) =>
          var after := Remaining(pending, a);
          if pending == [] || |after| == |pending| then History(after, notified, done, partial + [a])
          else History(after, notified, done + [Match(pending[0].dut, partial + [a])], [])
      }
    }

    ghost predicate Passes(e: Event) {
      e.Check? ==> e.iss.Valid() && Outcome(pending, e.iss) == MemOk
    }
  }

  /** The simulator's access is of the same kind, to the same word, with the same data. */
  ghost predicate Agrees(a: Iss, d: Dut) {
    a.Valid() && a.store == d.store && Aligned(a.addr) == d.addr && SameData(a, d)
  }

  /** How many of the accesses touch the lane. */
  function Touched(iss: seq<Iss>, j: nat): nat {
    if iss == [] then 0 else Touched(iss[..|iss| - 1], j) + if iss[|iss| - 1].Covers(j) then 1 else 0
  }

  ghost predicate TouchedOnce(iss: seq<Iss>, e: Enables) {
    forall j | 0 <= j < 4 :: Touched(iss, j) == if e.At(j) then 1 else 0
  }

  /** Every enabled byte was touched exactly once, no other byte at all, by agreeing accesses. */
  ghost predicate Matched(m: Match) {
    (forall a | a in m.iss :: Agrees(a, m.dut)) && TouchedOnce(m.iss, m.dut.be)
  }

  /** The accesses dequeued and those still pending are those notified, in order. */
  ghost predicate InOrder(h: History) {
    && |h.notified| == |h.done| + |h.pending|
    && (forall k | 0 <= k < |h.done| :: h.done[k].dut == h.notified[k])
    && (forall k | 0 <= k < |h.pending| :: h.pending[k].dut == h.notified[|h.done| + k])
  }

  /** Only the front access has been checked against, and its bytes seen are those touched. */
  ghost predicate FrontKnown(pending: seq<Pending>, partial: seq<Iss>) {
    && (forall k | 1 <= k < |pending| :: pending[k].seen == NO_BYTES)
    && (if pending == [] then partial == []
        else
          (forall a | a in partial :: Agrees(a, pending[0].dut)) &&
          TouchedOnce(partial, pending[0].seen) &&
          (!pending[0].dut.Misaligned() ==> partial == []))
  }

  ghost predicate Sound(h: History) {
    InOrder(h) && FrontKnown(h.pending, h.partial) && forall m | m in h.done :: Matched(m)
  }

  lemma TouchedMore(iss: seq<Iss>, a: Iss, j: nat)
    ensures Touched(iss + [a], j) == Touched(iss, j) + if a.Covers(j) then 1 else 0
  {
    assert (iss + [a])[..|iss|] == iss;
  }

  lemma DisjointLane(a: Iss, seen: Enables, j: nat)
    requires j < 4 && AndEnables(a.Be(), seen) == NO_BYTES
    ensures a.Covers(j) == a.Be().At(j)
    ensures a.Covers(j) ==> !seen.At(j)
    ensures OrEnables(seen, a.Be()).At(j) == (seen.At(j) || a.Covers(j))
  {
  }

  /** A passing check adds its bytes to those of the front access, none of them for the second time. */
  lemma CheckAdds(pending: seq<Pending>, partial: seq<Iss>, a: Iss)
    requires pending != [] && a.Valid() && Outcome(pending, a) == MemOk
    requires TouchedOnce(partial, pending[0].seen) && (!pending[0].dut.Misaligned() ==> partial == [])
    ensures Agrees(a, pending[0].dut)
    ensures var p, after := pending[0], Remaining(pending, a);
      if |after| == |pending| then
        p.dut.Misaligned() && after == [Pending(p.dut, OrEnables(p.seen, a.Be()))] + pending[1..] &&
        TouchedOnce(partial + [a], OrEnables(p.seen, a.Be()))
      else
        after == pending[1..] && TouchedOnce(partial + [a], p.dut.be)
  {
    var p := pending[0];
    if p.dut.Misaligned() {
      forall j | 0 <= j < 4
        ensures Touched(partial + [a], j) == if OrEnables(p.seen, a.Be()).At(j) then 1 else 0
      {
        TouchedMore(partial, a, j);
        DisjointLane(a, p.seen, j);
      }
    } else {
      forall j | 0 <= j < 4 ensures Touched(partial + [a], j) == if p.dut.be.At(j) then 1 else 0 {
        TouchedMore(partial, a, j);
        assert Touched([], j) == 0;
        DisjointLane(a, NO_BYTES, j);
      }
    }
  }

  lemma NothingTouched()
    ensures TouchedOnce([], NO_BYTES)
  {
  }

  lemma NotifySound(h: History, d: Dut)
    requires Sound(h)
    ensures Sound(h.Next(Notify(d)))
  {
    NothingTouched();
  }

  lemma FrontStays(h: History, a: Iss, front: Pending)
    requires Sound(h) && h.pending != [] && front.dut == h.pending[0].dut && front.dut.Misaligned()
    requires Agrees(a, front.dut) && TouchedOnce(h.partial + [a], front.seen)
    ensures Sound(History([front] + h.pending[1..], h.notified, h.done, h.partial + [a]))
  {
  }

  lemma FrontLeaves(h: History, a: Iss, m: Match)
    requires Sound(h) && h.pending != [] && m == Match(h.pending[0].dut, h.partial + [a])
    requires Agrees(a, m.dut) && TouchedOnce(m.iss, m.dut.be)
    ensures Sound(History(h.pending[1..], h.notified, h.done + [m], []))
  {
    NothingTouched();
    assert Matched(m);
  }

  lemma CheckSound(h: History, a: Iss)
    requires Sound(h) && h.Passes(Check(a))
    ensures Sound(h.Next(Check(a)))
  {
    CheckAdds(h.pending, h.partial, a);
    NothingTouched();
    var front := h.pending[0];
    if |Remaining(h.pending, a)| == |h.pending| {
      FrontStays(h, a, Pending(front.dut, OrEnables(front.seen, a.Be())));
    } else {
      FrontLeaves(h, a, Match(front.dut, h.partial + [a]));
    }
  }

  lemma SoundStep(h: History, e: Event)
    requires Sound(h) && h.Passes(e)
    ensures Sound(h.Next(e))
  {
    match e {
      case Notify(d) => NotifySound(h, d);
      case Check(a) => CheckSound(h, a);
    }
  }

  ghost function Run(events: seq<Event>): History
    decreases |events|
  {
    if events == [] then History([], [], [], [])
    else Run(events[..|events| - 1]).Next(events[|events| - 1])
  }

  ghost predicate AllPass(events: seq<Event>)
    decreases |events|
  {
    events == [] || (AllPass(events[..|events| - 1]) && Run(events[..|events| - 1]).Passes(events[|events| - 1]))
  }

  /** As long as every check passes, the accesses of the core leave the queue in the order they were
      notified, none skipped, and each was matched byte for byte, exactly once. */
  lemma {:induction false} PassingRunsAreSound(events: seq<Event>)
    requires AllPass(events)
    ensures Sound(Run(events))
    decreases |events|
  {
    if events != [] {
      PassingRunsAreSound(events[..|events| - 1]);
      SoundStep(Run(events[..|events| - 1]), events[|events| - 1]);
    }
  }

  /** What each error logged says of the access at the front and the simulator's. */
  ghost predicate Holds(f: Failure, pending: seq<Pending>, a: Iss) {
    match f {
      case NothingPending => pending == []
      case WrongAddress => pending != [] && a.addr / 4 * 4 != pending[0].dut.addr
      case WrongKind => pending != [] && a.store != pending[0].dut.store
      case SeenTwice => pending != [] && exists j :: 0 <= j < 4 && a.Covers(j) && pending[0].seen.At(j)
      case OtherBytes => pending != [] && exists j :: 0 <= j < 4 && a.Covers(j) && !pending[0].dut.be.At(j)
      case WrongBytes => pending != [] && exists j :: 0 <= j < 4 && a.Covers(j) != pending[0].dut.be.At(j)
      case WrongData =>
        pending != [] && exists j :: 0 <= j < 4 && a.Covers(j) && pending[0].dut.data.Byte(j) != a.bytes[j - a.addr % 4]
      case SecondMissing => |pending| == 1 || (|pending| > 1 && !pending[1].dut.second)
      case SecondAddress => |pending| > 1 && pending[1].dut.addr != (pending[0].dut.addr + 4) % SPACE
    }
  }

  lemma LanesMeet(a: Enables, b: Enables)
    requires AndEnables(a, b) != NO_BYTES
    ensures exists j :: 0 <= j < 4 && a.At(j) && b.At(j)
  {
    assert (a.At(0) && b.At(0)) || (a.At(1) && b.At(1)) || (a.At(2) && b.At(2)) || (a.At(3) && b.At(3));
  }

  lemma LanesDiffer(a: Enables, b: Enables)
    requires a != b
    ensures exists j :: 0 <= j < 4 && a.At(j) != b.At(j)
  {
    assert a.At(0) != b.At(0) || a.At(1) != b.At(1) || a.At(2) != b.At(2) || a.At(3) != b.At(3);
  }

  lemma BeIsCovers(a: Iss, j: nat)
    requires j < 4
    ensures a.Be().At(j) == a.Covers(j)
  {
  }

  /** An error logged is true of the accesses compared. */
  lemma ErrorsAreTrue(pending: seq<Pending>, a: Iss)
    requires a.Valid() && Fault(pending, a) != []
    ensures Holds(Fault(pending, a)[0], pending, a) && Outcome(pending, a) == MemCheckFailed
  {
    var f := Fault(pending, a)[0];
    BeIsCovers(a, 0);
    BeIsCovers(a, 1);
    BeIsCovers(a, 2);
    BeIsCovers(a, 3);
    if f.SeenTwice? {
      LanesMeet(a.Be(), pending[0].seen);
    } else if f.OtherBytes? {
      LanesMeet(a.Be(), NotEnables(pending[0].dut.be));
    } else if f.WrongBytes? {
      LanesDiffer(a.Be(), pending[0].dut.be);
    }
  }

  // ------------------------------------------------------------------ completeness

  /** The address is not a multiple of the size. */
  predicate MisalignedRequest(r: Request) {
    match r.size {
      case WordAccess => r.addr % 4 != 0
      case HalfAccess => r.addr % 2 != 0
      case ByteAccess => false
    }
  }

  /** The word on the core's bus: the rotated store data, or the word loaded. */
  function BusData(r: Request, mem: Memory, second: bool): Word {
    if r.we then Half(r, second).wdata else WordAt(mem, Half(r, second).word)
  }

  /** What the load/store unit does for a request, as the core's monitor reports it. */
  function BusAccess(r: Request, mem: Memory, second: bool): Dut {
    Dut(r.we, BusData(r, mem, second), Half(r, second).word, Half(r, second).be, false,
        !second && MisalignedRequest(r), second)
  }

  function Accesses(r: Request, mem: Memory): seq<Pending> {
    [Pending(BusAccess(r, mem, false), NO_BYTES)] +
    if IsSplit(r) then [Pending(BusAccess(r, mem, true), NO_BYTES)] else []
  }

  /** Byte `k` of the request as the simulator sees it. */
  function IssByte(r: Request, mem: Memory, k: nat): bv8 {
    if r.we then r.wdata.Byte(k) else mem(Place(r, k))
  }

  /** The lanes of the first `k` bytes that lie in a half. */
  function Lanes(r: Request, second: bool, k: nat): Enables {
    var off := r.addr % 4;
    if second then Enables(4 < off + k, 5 < off + k, 6 < off + k, 7 < off + k)
    else Enables(off <= 0 < off + k, off <= 1 < off + k, off <= 2 < off + k, off <= 3 < off + k)
  }

  /** The queue when `k` bytes of a misaligned request have been checked. */
  function Left(r: Request, mem: Memory, k: nat): seq<Pending> {
    if k >= Bytes(r.size) then []
    else if InSecond(r, k) then [Pending(BusAccess(r, mem, true), Lanes(r, true, k))]
    else
      [Pending(BusAccess(r, mem, false), Lanes(r, false, k))] +
      if IsSplit(r) then [Pending(BusAccess(r, mem, true), NO_BYTES)] else []
  }

  /** The simulator's access to byte `k`. */
  function ByteAt(r: Request, mem: Memory, k: nat): Iss {
    Iss(r.we, Place(r, k), [IssByte(r, mem, k)])
  }

  /** Byte `k` lies in the word of its half, at the lane its offset says. */
  lemma ByteInWord(r: Request, k: nat)
    requires r.addr < SPACE && k < Bytes(r.size)
    ensures var a := Place(r, k);
      && a < SPACE && Aligned(a) == Half(r, InSecond(r, k)).word
      && a % 4 == (if InSecond(r, k) then r.addr % 4 + k - 4 else r.addr % 4 + k)
  {
    PlaceInWord(r, k);
    WordsApart(r);
  }

  lemma WordByte(mem: Memory, word: nat, j: nat)
    requires j < 4
    ensures WordAt(mem, word).Byte(j) == mem(word + j)
  {
  }

  /** The byte the core carried is the byte the simulator expects. */
  lemma SameByte(r: Request, mem: Memory, k: nat)
    requires r.addr < SPACE && k < Bytes(r.size)
    ensures BusAccess(r, mem, InSecond(r, k)).data.Byte(Place(r, k) % 4) == IssByte(r, mem, k)
  {
    var second, j := InSecond(r, k), Place(r, k) % 4;
    ByteInWord(r, k);
    SplitMeansCrossing(r);
    if r.we {
      HalfLane(r, second, j);
    } else {
      WordByte(mem, Half(r, second).word, j);
    }
  }

  lemma LanesGrow(r: Request, second: bool, k: nat)
    requires k < Bytes(r.size) && InSecond(r, k) == second
    ensures var a := Iss(r.we, (if second then r.addr % 4 + k - 4 else r.addr % 4 + k), [0]);
      var seen, be := Lanes(r, second, k), Half(r, second).be;
      && AndEnables(a.Be(), seen) == NO_BYTES && AndEnables(a.Be(), NotEnables(be)) == NO_BYTES
      && OrEnables(seen, a.Be()) == Lanes(r, second, k + 1)
      && (Lanes(r, second, k + 1) == be <==> k + 1 == Bytes(r.size) || (!second && InSecond(r, k + 1)))
  {
    assert r.addr % 4 == 0 || r.addr % 4 == 1 || r.addr % 4 == 2 || r.addr % 4 == 3;
    assert k == 0 || k == 1 || k == 2 || k == 3;
  }

  /** The front access passes the tests for byte `k`. */
  lemma ByteFits(r: Request, mem: Memory, k: nat, rest: seq<Pending>)
    requires r.addr < SPACE && MisalignedRequest(r) && k < Bytes(r.size)
    ensures var a, second := ByteAt(r, mem, k), InSecond(r, k);
      var queue := [Pending(BusAccess(r, mem, second), Lanes(r, second, k))] + rest;
      && a.Valid() && Fault(queue, a) == []
      && OrEnables(Lanes(r, second, k), a.Be()) == Lanes(r, second, k + 1)
  {
    var a, second := ByteAt(r, mem, k), InSecond(r, k);
    ByteInWord(r, k);
    SameByte(r, mem, k);
    LanesGrow(r, second, k);
    assert a.Be() == Iss(r.we, a.addr % 4, [0]).Be();
  }

  /** The check of byte `k` takes the queue from `k` bytes checked to one more. */
  ghost predicate Passes(r: Request, mem: Memory, k: nat, queue: seq<Pending>, next: seq<Pending>) {
    var a := ByteAt(r, mem, k);
    a.Valid() && Outcome(queue, a) == MemOk && Remaining(queue, a) == next
  }

  /** What a passing check does to an error-free front access of a misaligned one. */
  lemma FrontAfter(d: Dut, seen: Enables, behind: seq<Pending>, a: Iss)
    requires d.Misaligned() && !d.error && Fault([Pending(d, seen)] + behind, a) == []
    ensures var queue, all := [Pending(d, seen)] + behind, OrEnables(seen, a.Be());
      Outcome(queue, a) == MemOk && Remaining(queue, a) == if all == d.be then behind else [Pending(d, all)] + behind
  {
    var queue := [Pending(d, seen)] + behind;
    assert queue[0] == Pending(d, seen) && queue[1..] == behind;
  }

  function Behind(r: Request, mem: Memory, second: bool): seq<Pending> {
    if !second && IsSplit(r) then [Pending(BusAccess(r, mem, true), NO_BYTES)] else []
  }

  /** The queue by its front. */
  lemma LeftIs(r: Request, mem: Memory, k: nat, second: bool)
    requires k < Bytes(r.size) && InSecond(r, k) == second
    ensures Left(r, mem, k) == [Pending(BusAccess(r, mem, second), Lanes(r, second, k))] + Behind(r, mem, second)
  {
  }

  lemma LeftNext(r: Request, mem: Memory, k: nat, second: bool)
    requires k < Bytes(r.size) && InSecond(r, k) == second
    ensures Left(r, mem, k + 1) ==
      if Lanes(r, second, k + 1) == Half(r, second).be then Behind(r, mem, second)
      else [Pending(BusAccess(r, mem, second), Lanes(r, second, k + 1))] + Behind(r, mem, second)
  {
    SplitMeansCrossing(r);
    LanesGrow(r, second, k);
    if !second && InSecond(r, k + 1) {
      assert Lanes(r, true, k + 1) == NO_BYTES;
    }
  }

  lemma Regroup(p: Pending, tail: seq<Pending>, rest: seq<Pending>)
    ensures [p] + tail + rest == [p] + (tail + rest)
  {
  }

  /** A check of the front, whatever comes behind it. */
  lemma FrontChecked(d: Dut, seen: Enables, tail: seq<Pending>, rest: seq<Pending>, a: Iss)
    requires d.Misaligned() && !d.error && Fault([Pending(d, seen)] + (tail + rest), a) == []
    ensures var all := OrEnables(seen, a.Be()); var now := [Pending(d, seen)] + tail;
      && Outcome(now + rest, a) == MemOk
      && Remaining(now + rest, a) == (if all == d.be then tail else [Pending(d, all)] + tail) + rest
  {
    FrontAfter(d, seen, tail + rest, a);
    Regroup(Pending(d, seen), tail, rest);
    Regroup(Pending(d, OrEnables(seen, a.Be())), tail, rest);
  }

  lemma BytePasses(r: Request, mem: Memory, k: nat, rest: seq<Pending>)
    requires r.addr < SPACE && MisalignedRequest(r) && k < Bytes(r.size)
    ensures Passes(r, mem, k, Left(r, mem, k) + rest, Left(r, mem, k + 1) + rest)
  {
    var second := InSecond(r, k);
    ByteFits(r, mem, k, Behind(r, mem, second) + rest);
    LeftIs(r, mem, k, second);
    LeftNext(r, mem, k, second);
    FrontChecked(BusAccess(r, mem, second), Lanes(r, second, k), Behind(r, mem, second), rest, ByteAt(r, mem, k));
  }

  /** A misaligned request, notified as the load/store unit splits it, is accepted byte by byte in
      address order and leaves the queue entirely. */
  lemma {:induction false} MisalignedAccepted(r: Request, mem: Memory, k: nat, rest: seq<Pending>)
      returns (queues: seq<seq<Pending>>)
    requires r.addr < SPACE && MisalignedRequest(r) && k <= Bytes(r.size)
    ensures |queues| == k + 1 && queues[0] == Accesses(r, mem) + rest && queues[k] == Left(r, mem, k) + rest
    ensures forall j | 0 <= j < k :: Passes(r, mem, j, queues[j], queues[j + 1])
    ensures k == Bytes(r.size) ==> queues[k] == rest
  {
    if k == 0 {
      assert Lanes(r, false, 0) == NO_BYTES;
      queues := [Accesses(r, mem) + rest];
    } else {
      queues := MisalignedAccepted(r, mem, k - 1, rest);
      BytePasses(r, mem, k - 1, rest);
      queues := queues + [Left(r, mem, k) + rest];
    }
  }

  /** The simulator's access to the whole of an aligned request. */
  function WholeAccess(r: Request, mem: Memory): Iss {
    Iss(r.we, r.addr, seq(Bytes(r.size), k requires 0 <= k => IssByte(r, mem, k)))
  }

  lemma WholeFits(r: Request, mem: Memory)
    requires r.addr < SPACE && !MisalignedRequest(r)
    ensures !IsSplit(r) && WholeAccess(r, mem).Valid() && WholeAccess(r, mem).Be() == Half(r, false).be
    ensures Aligned(r.addr) == Half(r, false).word
  {
  }

  lemma WholeData(r: Request, mem: Memory)
    requires r.addr < SPACE && !MisalignedRequest(r)
    ensures SameData(WholeAccess(r, mem), BusAccess(r, mem, false))
  {
    var a, d := WholeAccess(r, mem), BusAccess(r, mem, false);
    SplitMeansCrossing(r);
    WholeFits(r, mem);
    forall j | 0 <= j < 4 && a.Covers(j) ensures d.data.Byte(j) == ExpectedByte(a, j) {
      SameByte(r, mem, j - r.addr % 4);
      ByteInWord(r, j - r.addr % 4);
    }
  }

  lemma AlignedChecked(d: Dut, rest: seq<Pending>, a: Iss)
    requires !d.Misaligned() && !d.error && d.store == a.store && d.addr == Aligned(a.addr) && d.be == a.Be()
    requires SameData(a, d)
    ensures Outcome([Pending(d, NO_BYTES)] + rest, a) == MemOk && Remaining([Pending(d, NO_BYTES)] + rest, a) == rest
  {
    var queue := [Pending(d, NO_BYTES)] + rest;
    assert queue[0] == Pending(d, NO_BYTES) && queue[1..] == rest;
  }

  /** An aligned request is checked, and accepted, in one go. */
  lemma AlignedAccepted(r: Request, mem: Memory, rest: seq<Pending>)
    requires r.addr < SPACE && !MisalignedRequest(r)
    ensures var a := WholeAccess(r, mem);
      && a.Valid() && Accesses(r, mem) == [Pending(BusAccess(r, mem, false), NO_BYTES)]
      && Outcome(Accesses(r, mem) + rest, a) == MemOk
      && Remaining(Accesses(r, mem) + rest, a) == rest
  {
    WholeFits(r, mem);
    WholeData(r, mem);
    AlignedChecked(BusAccess(r, mem, false), rest, WholeAccess(r, mem));
  }

  // ------------------------------------------------------------------ errors

  /** An access the core saw an error on. */
  function Errored(d: Dut): Pending {
    Pending(d.(error := true), NO_BYTES)
  }

  /** The tests a front access passes it also passes with an error, if its second half follows when it
      has to. */
  lemma ErroredPasses(d: Dut, behind: seq<Pending>, a: Iss)
    requires !d.error && d.Misaligned() && Fault([Pending(d, NO_BYTES)] + behind, a) == []
    requires d.first && d.be.e3 ==>
      behind != [] && behind[0].dut.second && behind[0].dut.addr == (d.addr + 4) % SPACE
    ensures var queue := [Errored(d)] + behind;
      Fault(queue, a) == [] && Outcome(queue, a) == MemBusError &&
      Remaining(queue, a) == if d.first && d.be.e3 then behind[1..] else behind
  {
    var plain, queue := [Pending(d, NO_BYTES)] + behind, [Errored(d)] + behind;
    assert plain[0] == Pending(d, NO_BYTES) && queue[0] == Errored(d) && queue[1..] == behind;
    assert behind != [] ==> queue[1] == behind[0] && queue[2..] == behind[1..];
    assert Fault(queue, a) == [];
  }

  /** An error in the first half of a split access is reported at its first byte, and takes the second
      half, whatever became of it, off the queue as well. */
  lemma FirstErrorDrains(r: Request, mem: Memory, second: Dut, rest: seq<Pending>)
    requires r.addr < SPACE && IsSplit(r) && second.second && second.addr == SecondWord(r)
    ensures var queue := [Errored(BusAccess(r, mem, false))] + ([Pending(second, NO_BYTES)] + rest);
      var a := ByteAt(r, mem, 0);
      a.Valid() && Outcome(queue, a) == MemBusError && Remaining(queue, a) == rest
  {
    var behind := [Pending(second, NO_BYTES)] + rest;
    SplitMeansCrossing(r);
    WordsApart(r);
    HalfLane(r, false, 3);
    ByteFits(r, mem, 0, behind);
    assert Lanes(r, false, 0) == NO_BYTES && behind[1..] == rest;
    ErroredPasses(BusAccess(r, mem, false), behind, ByteAt(r, mem, 0));
  }

  /** An error in the second half is reported at the first byte there, and takes it off the queue. */
  lemma SecondErrorDrains(r: Request, mem: Memory, k: nat, rest: seq<Pending>)
    requires r.addr < SPACE && IsSplit(r) && k == 4 - r.addr % 4
    ensures k < Bytes(r.size)
    ensures var queue := [Errored(BusAccess(r, mem, true))] + rest;
      var a := ByteAt(r, mem, k);
      a.Valid() && Outcome(queue, a) == MemBusError && Remaining(queue, a) == rest
  {
    SplitMeansCrossing(r);
    ByteFits(r, mem, k, rest);
    assert Lanes(r, true, k) == NO_BYTES;
    ErroredPasses(BusAccess(r, mem, true), rest, ByteAt(r, mem, k));
  }

  /** Only a halfword at offset one is misaligned and yet in one word; it does not reach the top byte. */
  lemma MisalignedInWord(r: Request)
    requires MisalignedRequest(r) && !IsSplit(r)
    ensures r.size.HalfAccess? && r.addr % 4 == 1 && !Half(r, false).be.e3
  {
  }

  /** And so is one in a misaligned access that lies in one word, at its first byte. */
  lemma OnlyErrorDrains(r: Request, mem: Memory, rest: seq<Pending>)
    requires r.addr < SPACE && MisalignedRequest(r) && !IsSplit(r)
    ensures var queue := [Errored(BusAccess(r, mem, false))] + rest;
      var a := ByteAt(r, mem, 0);
      a.Valid() && Outcome(queue, a) == MemBusError && Remaining(queue, a) == rest
  {
    MisalignedInWord(r);
    ByteFits(r, mem, 0, rest);
    assert Lanes(r, false, 0) == NO_BYTES;
    ErroredPasses(BusAccess(r, mem, false), rest, ByteAt(r, mem, 0));
  }
}
