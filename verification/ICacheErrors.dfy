/** When the instruction cache shows an error. A history lists the beats answered with an error since their buffers were
    allocated, and the words of memory answered with one since the last branch. */
module ICacheErrors {
  import opened ICacheModel
  import opened ICacheAge
  import opened ICacheBus
  import opened ICacheInval
  import opened ICacheData
  import opened ICacheStream
  import opened ICacheRun

  datatype Failures = Failures(beats: set<Beat>, words: set<(nat, nat)>)

  /** The request answered with an error in this cycle. */
  function Failing(i: Inputs, q: seq<Beat>): set<Beat> {
    if i.rvalid && i.rerr && q != [] then {q[0]} else {}
  }

  function FailingWords(i: Inputs, q: seq<Beat>): set<(nat, nat)> {
    set x | x in Failing(i, q) :: (x.line, x.beat)
  }

  function NextFailures(c: Cache, i: Inputs, q: seq<Beat>, e: Failures): Failures {
    Failures((set x | x in e.beats && !c.Alloc(i, x.fb)) + Failing(i, q),
             if i.branch then {} else e.words + FailingWords(i, q))
  }

  // ------------------------------------------------------------------ the error registers

  /** Every error register of a busy buffer says whether its beat has been answered with an error. */
  ghost predicate Recorded(c: Cache, b: nat, e: Failures) {
    |c.F(b).err| == c.cfg.beats &&
    forall k | 0 <= k < c.cfg.beats ::
      && (c.F(b).err[k] <==> Beat(b, c.F(b).line, k) in e.beats)
      && (c.F(b).err[k] ==> Slot(c.F(b).beat, k, c.cfg.beats) < c.F(b).rvdCnt)
  }

  /** And of a buffer that still delivers, since the last branch. */
  ghost predicate Recent(c: Cache, b: nat, e: Failures) {
    forall k | 0 <= k < |c.F(b).err| && c.F(b).err[k] :: (c.F(b).line, k) in e.words
  }

  ghost predicate ErrorsOk(c: Cache, g: Age, e: Failures) {
    && (forall b | b in g.Order() :: Recorded(c, b, e))
    && (forall b | b in g.pend :: Recent(c, b, e))
  }

  lemma FailingIs(c: Cache, i: Inputs, g: Age, q: seq<Beat>, b: nat, k: nat)
    requires AgeOk(c, g) && BusOk(c, g, q) && BusLegal(c, i, q) && b in g.Order()
    ensures Beat(b, c.F(b).line, k) in Failing(i, q) <==> c.RvdArb(i, b) && i.rerr && c.RvdOff(b) == k
  {
    if i.rvalid {
      ResponseToIssuer(c, i, g, q, b);
    }
  }

  lemma KeptBeat(c: Cache, i: Inputs, g: Age, q: seq<Beat>, e: Failures, b: nat, k: nat)
    requires AgeOk(c, g) && BusOk(c, g, q) && BusLegal(c, i, q)
    requires b in g.Order() && Recorded(c, b, e) && k < c.cfg.beats
    ensures c.ErrD(i, b)[k] <==> c.F(b).err[k] || Beat(b, c.F(b).line, k) in Failing(i, q)
    ensures c.ErrD(i, b)[k] ==> Slot(c.F(b).beat, k, c.cfg.beats) < c.F(b).rvdCnt + c.Count(c.RvdArb(i, b))
  {
    FailingIs(c, i, g, q, b, k);
    if c.RvdArb(i, b) {
      ResponseToIssuer(c, i, g, q, b);
      assert CountersOk(c, b);
      NextSlot(c.F(b).beat, c.F(b).rvdCnt, k, c.cfg.beats);
    }
  }

  lemma KeptRecord(c: Cache, i: Inputs, g: Age, q: seq<Beat>, e: Failures, b: nat)
    requires AgeOk(c, g) && BusOk(c, g, q) && BusLegal(c, i, q)
    requires b in g.Order() && Recorded(c, b, e)
    ensures Recorded(c.Next(i), b, NextFailures(c, i, q, e))
    ensures !i.branch && Recent(c, b, e) ==> Recent(c.Next(i), b, NextFailures(c, i, q, e))
  {
    NextF(c, i, b);
    forall k | 0 <= k < c.cfg.beats
      ensures c.ErrD(i, b)[k] <==> c.F(b).err[k] || Beat(b, c.F(b).line, k) in Failing(i, q)
      ensures c.ErrD(i, b)[k] ==> Slot(c.F(b).beat, k, c.cfg.beats) < c.F(b).rvdCnt + c.Count(c.RvdArb(i, b))
    {
      KeptBeat(c, i, g, q, e, b, k);
    }
  }

  lemma NoErrorYet(c: Cache, i: Inputs, b: nat, k: nat)
    requires c.Alloc(i, b) && k < c.cfg.beats
    ensures !c.ErrD(i, b)[k]
  {
    assert !c.F(b).busy && !c.RvdExp(b) && !c.RvdArb(i, b);
  }

  lemma NotAnswered(c: Cache, i: Inputs, g: Age, q: seq<Beat>, e: Failures, b: nat, line: nat, k: nat)
    requires AgeOk(c, g) && BusOk(c, g, q) && BusLegal(c, i, q) && c.Alloc(i, b)
    ensures Beat(b, line, k) !in NextFailures(c, i, q, e).beats
  {
    assert !c.RvdArb(i, b);
    if i.rvalid {
      ResponseToIssuer(c, i, g, q, b);
      assert q[0].fb != b;
    }
    assert Beat(b, line, k) !in Failing(i, q);
    assert Beat(b, line, k).fb == b;
  }

  lemma FreshRecord(c: Cache, i: Inputs, g: Age, q: seq<Beat>, e: Failures, b: nat)
    requires AgeOk(c, g) && BusOk(c, g, q) && BusLegal(c, i, q) && c.Alloc(i, b)
    ensures Recorded(c.Next(i), b, NextFailures(c, i, q, e)) && Recent(c.Next(i), b, NextFailures(c, i, q, e))
  {
    NextF(c, i, b);
    var n, f := c.Next(i), NextFailures(c, i, q, e);
    assert n.F(b).err == c.ErrD(i, b);
    forall k | 0 <= k < c.cfg.beats ensures !n.F(b).err[k] && Beat(b, n.F(b).line, k) !in f.beats {
      NoErrorYet(c, i, b, k);
      NotAnswered(c, i, g, q, e, b, n.F(b).line, k);
    }
  }

  /** A buffer pending after the edge that was busy before was pending, and there was no branch. */
  lemma StaysPending(c: Cache, i: Inputs, g: Age, b: nat)
    requires AgeOk(c, g) && c.F(b).busy && b in NextAge(c, i, g).pend
    ensures b in g.pend && !i.branch
  {
    if c.LookupReq(i) {
      AllocUnique(c, i, b);
    }
  }

  lemma ErrorsStep(c: Cache, i: Inputs, g: Age, q: seq<Beat>, e: Failures)
    requires AgeOk(c, g) && BusOk(c, g, q) && BusLegal(c, i, q) && ErrorsOk(c, g, e)
    ensures ErrorsOk(c.Next(i), NextAge(c, i, g), NextFailures(c, i, q, e))
  {
    var n, h, f := c.Next(i), NextAge(c, i, g), NextFailures(c, i, q, e);
    forall b | b in h.Order() ensures Recorded(n, b, f) && (b in h.pend ==> Recent(n, b, f)) {
      NextBusy(c, i, g, b);
      if c.F(b).busy {
        KeptRecord(c, i, g, q, e, b);
        if b in h.pend {
          StaysPending(c, i, g, b);
        }
      } else {
        FreshRecord(c, i, g, q, e, b);
      }
    }
  }

  // ------------------------------------------------------------------ the data offered

  /** The buffer's line comes from the RAMs. */
  predicate FromRam(c: Cache, i: Inputs, b: nat) {
    c.F(b).hit || c.HitIc1(i, b)
  }

  /** The word it delivers next was answered with an error, before or in this cycle. */
  predicate WordFailed(c: Cache, i: Inputs, q: seq<Beat>, e: Failures, b: nat) {
    var word := Beat(b, c.F(b).line, c.F(b).outCnt);
    word in e.beats || word in Failing(i, q)
  }

  lemma ErrorFromBus(c: Cache, i: Inputs, g: Age, q: seq<Beat>, e: Failures, b: nat)
    requires AgeOk(c, g) && BusOk(c, g, q) && BusLegal(c, i, q) && Recorded(c, b, e)
    requires c.OutArb(i, b) && b in g.Order() && c.AnyDataRvd(i)
    ensures !FromRam(c, i, b) && (c.OutputErr(i) <==> WordFailed(c, i, q, e, b))
  {
    var x :| 0 <= x < c.cfg.buffers && c.DataRvd(i, x);
    SelectedIsOldest(c, g, x);
    SelectedIsOldest(c, g, b);
    SmallMod(c.F(b).outCnt, c.cfg.beats);
    FailingIs(c, i, g, q, b, c.F(b).outCnt);
  }

  lemma ErrorFromHit(c: Cache, i: Inputs, g: Age, b: nat)
    requires AgeOk(c, g) && Ic1Ok(c) && c.OutArb(i, b) && c.AnyDataHit(i) && !c.AnyDataRvd(i)
    ensures FromRam(c, i, b) && !c.OutputErr(i)
  {
    var x :| 0 <= x < c.cfg.buffers && c.DataHit(i, x);
    SelectedIsOldest(c, g, x);
    SelectedIsOldest(c, g, b);
  }

  lemma NotArriving(c: Cache, i: Inputs, g: Age, q: seq<Beat>, b: nat)
    requires AgeOk(c, g) && BusOk(c, g, q) && BusLegal(c, i, q) && OutOk(c, b) && b in g.Order()
    requires c.Pending(b) && c.F(b).beat + c.F(b).rvdCnt > c.F(b).outCnt
    ensures Beat(b, c.F(b).line, c.F(b).outCnt) !in Failing(i, q)
  {
    FailingIs(c, i, g, q, b, c.F(b).outCnt);
    if c.RvdArb(i, b) {
      ResponseToIssuer(c, i, g, q, b);
      assert CountersOk(c, b);
      NextSlot(c.F(b).beat, c.F(b).rvdCnt, c.F(b).outCnt, c.cfg.beats);
    }
  }

  lemma ErrorFromBuffer(c: Cache, i: Inputs, g: Age, q: seq<Beat>, e: Failures, b: nat)
    requires AgeOk(c, g) && BusOk(c, g, q) && BusLegal(c, i, q) && Recorded(c, b, e) && OutOk(c, b) && b in g.Order()
    requires c.OutArb(i, b) && c.OutBeat() == c.F(b).outCnt && !c.AnyDataHit(i) && !c.AnyDataRvd(i)
    ensures c.OutputErr(i) <==> !FromRam(c, i, b) && WordFailed(c, i, q, e, b)
  {
    assert b < c.cfg.buffers;
    assert !c.DataHit(i, b) && !c.DataRvd(i, b);
    assert c.DataReg(i, b);
    ArbitersOneHot(c, i, g, b, c.RegSel(i, 0));
    if !c.F(b).hit {
      NotArriving(c, i, g, q, b);
    }
  }

  /** Data offered carries an error exactly if it does not come from the RAMs and its bus word was answered with an
      error, since the buffer was allocated. */
  lemma OfferedError(c: Cache, i: Inputs, g: Age, q: seq<Beat>, mem: Memory, e: Failures)
    requires AgeOk(c, g) && BusOk(c, g, q) && DataOk(c, g, mem) && BusLegal(c, i, q) && ErrorsOk(c, g, e)
    requires c.DataValid(i) && (g.pend != [] ==> c.OutBeat() == c.F(g.pend[0]).outCnt)
    ensures g.pend != []
    ensures c.OutputErr(i) <==> !FromRam(c, i, g.pend[0]) && WordFailed(c, i, q, e, g.pend[0])
  {
    var b :| 0 <= b < c.cfg.buffers && c.OutArb(i, b);
    SelectedIsOldest(c, g, b);
    assert b in g.Order() && Recorded(c, b, e) && OutOk(c, b);
    if c.AnyDataRvd(i) {
      ErrorFromBus(c, i, g, q, e, b);
    } else if c.AnyDataHit(i) {
      ErrorFromHit(c, i, g, b);
    } else {
      ErrorFromBuffer(c, i, g, q, e, b);
    }
  }

  /** An error offered is shown at once, without waiting for a second half, unless an instruction is held already. */
  lemma ShownAtOnce(c: Cache, i: Inputs)
    requires c.DataValid(i) && c.OutputErr(i) && !c.SkidComplete()
    ensures c.Valid(i) && c.Err(i)
  {
  }

  // ------------------------------------------------------------------ instructions

  /** The words answered with an error since the last branch, in this cycle included. */
  function FailedWords(i: Inputs, q: seq<Beat>, e: Failures): set<(nat, nat)> {
    e.words + FailingWords(i, q)
  }

  /** The bus word blamed for an error: the one the instruction begins in, or the next. */
  function Blamed(c: Cache): (nat, nat) {
    var next := c.cfg.NextWord(c.outAddr);
    if c.ErrPlus2() then (next.line, next.beat) else (c.outAddr.line, c.outAddr.beat)
  }

  /** The instruction in memory is four bytes long and lies in two bus words. */
  predicate Straddles(cfg: Config, mem: Memory, a: Addr) {
    a.hi && InstrAt(cfg, mem, a).Full?
  }

  /** The halfword in the skid buffer carries an error only if its word failed. */
  ghost predicate SkidErrorOk(c: Cache, s: Stream, e: Failures) {
    s.synced && !s.bad && c.skidValid && c.skidErr ==> (c.outAddr.line, c.outAddr.beat) in e.words
  }

  lemma NeededFailed(c: Cache, i: Inputs, g: Age, q: seq<Beat>, s: Stream, mem: Memory, e: Failures)
    requires CacheOk(c, g, q, mem) && InputsOk(c, i, q, mem) && StreamOk(c, g, s, mem) && ErrorsOk(c, g, e)
    requires s.synced && !s.bad && c.DataValid(i) && c.OutputErr(i)
    ensures (NextNeeded(c).line, NextNeeded(c).beat) in FailedWords(i, q, e)
  {
    if g.pend != [] {
      OutBeatIs(c, g);
    }
    OfferedError(c, i, g, q, mem, e);
    var b := g.pend[0];
    assert b in g.pend && Recent(c, b, e) && b in g.Order() && Recorded(c, b, e);
    assert NextNeeded(c) == WordOf(c, b);
    var word := Beat(b, c.F(b).line, c.F(b).outCnt);
    if word in e.beats {
      assert c.F(b).err[c.F(b).outCnt];
    } else {
      assert (word.line, word.beat) in FailingWords(i, q);
    }
  }

  /** An instruction shown with an error lies in a bus word that was answered with an error since the last branch: the
      second, if the error is said to be in the second half, and it has one, and otherwise the first. */
  lemma ShownError(c: Cache, i: Inputs, g: Age, q: seq<Beat>, s: Stream, mem: Memory, e: Failures)
    requires CacheOk(c, g, q, mem) && InputsOk(c, i, q, mem) && StreamOk(c, g, s, mem) && ErrorsOk(c, g, e)
    requires SkidErrorOk(c, s, e) && s.synced && !s.bad && c.Valid(i) && c.Err(i)
    ensures Blamed(c) in FailedWords(i, q, e)
    ensures c.ErrPlus2() ==> Straddles(c.cfg, mem, c.outAddr)
  {
    if !(c.skidValid && c.skidErr) {
      NeededFailed(c, i, g, q, s, mem, e);
    }
  }

  /** An error gets into the skid buffer with data offered, whose word is then the one the output stands in. */
  lemma SkidMoves(c: Cache, i: Inputs, s: Stream, mem: Memory)
    requires SkidOk(c, mem) && !i.branch && s.synced && !NextStream(c, i, s).bad
    requires c.Next(i).skidValid && c.Next(i).skidErr
    ensures var n := c.Next(i);
      || (c.skidValid && c.skidErr && n.outAddr == c.outAddr)
      || (c.DataValid(i) && c.OutputErr(i) && n.outAddr.(hi := false) == NextNeeded(c).(hi := false))
  {
  }

  lemma SkidErrorStep(c: Cache, i: Inputs, g: Age, q: seq<Beat>, s: Stream, mem: Memory, e: Failures)
    requires CacheOk(c, g, q, mem) && InputsOk(c, i, q, mem) && StreamOk(c, g, s, mem) && ErrorsOk(c, g, e)
    requires SkidErrorOk(c, s, e)
    ensures SkidErrorOk(c.Next(i), NextStream(c, i, s), NextFailures(c, i, q, e))
  {
    var n, t := c.Next(i), NextStream(c, i, s);
    if !i.branch && t.synced && !t.bad && n.skidValid && n.skidErr {
      SkidMoves(c, i, s, mem);
      if !(c.skidValid && c.skidErr && n.outAddr == c.outAddr) {
        NeededFailed(c, i, g, q, s, mem, e);
      }
    }
  }

  // ------------------------------------------------------------------ runs

  ghost function History(c: Cache, ins: seq<Inputs>): Failures {
    if ins == [] then Failures({}, {})
    else
      var y := Run(Reset(c), ins[..|ins| - 1]);
      NextFailures(y.c, ins[|ins| - 1], y.q, History(c, ins[..|ins| - 1]))
  }

  lemma {:induction false} HistoryOk(c: Cache, ins: seq<Inputs>, mem: Memory)
    requires c.Init() && LegalRun(Reset(c), ins, mem)
    ensures var y, e := Run(Reset(c), ins), History(c, ins);
      ErrorsOk(y.c, y.g, e) && SkidErrorOk(y.c, y.s, e)
    decreases |ins|
  {
    if ins != [] {
      var before, i := ins[..|ins| - 1], ins[|ins| - 1];
      var y := Run(Reset(c), before);
      HistoryOk(c, before, mem);
      RunOk(c, before, mem);
      ErrorsStep(y.c, i, y.g, y.q, History(c, before));
      SkidErrorStep(y.c, i, y.g, y.q, y.s, mem, History(c, before));
    }
  }

  /** In every run, from the last branch to the first error accepted: an instruction is shown with an error only if the
      bus word blamed, one it lies in, was answered with an error since that branch. */
  lemma ErrorsAreReal(c: Cache, ins: seq<Inputs>, i: Inputs, mem: Memory)
    requires c.Init() && LegalRun(Reset(c), ins + [i], mem)
    ensures var y, e := Run(Reset(c), ins), History(c, ins);
      y.s.synced && !y.s.bad && y.c.Valid(i) && y.c.Err(i) ==>
        && Blamed(y.c) in FailedWords(i, y.q, e)
        && (y.c.ErrPlus2() ==> Straddles(c.cfg, mem, y.c.outAddr))
  {
    assert (ins + [i])[..|ins|] == ins;
    RunOk(c, ins, mem);
    RunConfig(c, ins);
    HistoryOk(c, ins, mem);
    var y, e := Run(Reset(c), ins), History(c, ins);
    if y.s.synced && !y.s.bad && y.c.Valid(i) && y.c.Err(i) {
      ShownError(y.c, i, y.g, y.q, y.s, mem, e);
    }
  }

  /** No response carries an error. */
  ghost predicate Answered(ins: seq<Inputs>) {
    forall k | 0 <= k < |ins| :: ins[k].rvalid ==> !ins[k].rerr
  }

  lemma {:induction false} NothingFailed(c: Cache, ins: seq<Inputs>)
    requires Answered(ins)
    ensures History(c, ins) == Failures({}, {})
    decreases |ins|
  {
    if ins != [] {
      NothingFailed(c, ins[..|ins| - 1]);
    }
  }

  /** Since the last branch no instruction with an error has been accepted. */
  ghost predicate Good(y: System) {
    y.s.synced ==> !y.s.bad
  }

  lemma NoneShown(y: System, i: Inputs, mem: Memory, e: Failures)
    requires y.Ok(mem) && y.Legal(i, mem) && ErrorsOk(y.c, y.g, e) && SkidErrorOk(y.c, y.s, e)
    requires y.s.synced && !y.s.bad && FailedWords(i, y.q, e) == {}
    ensures y.c.Valid(i) ==> !y.c.Err(i)
  {
    if y.c.Valid(i) && y.c.Err(i) {
      ShownError(y.c, i, y.g, y.q, y.s, mem, e);
    }
  }

  lemma NextGood(y: System, i: Inputs, mem: Memory, e: Failures)
    requires y.Ok(mem) && y.Legal(i, mem) && ErrorsOk(y.c, y.g, e) && SkidErrorOk(y.c, y.s, e)
    requires Good(y) && FailedWords(i, y.q, e) == {}
    ensures Good(y.Next(i))
  {
    if y.s.synced {
      NoneShown(y, i, mem, e);
    }
  }

  /** The states that a run without bus errors leads to. */
  lemma {:induction false} NeverBad(c: Cache, ins: seq<Inputs>, mem: Memory)
    requires c.Init() && LegalRun(Reset(c), ins, mem) && Answered(ins)
    ensures Good(Run(Reset(c), ins))
    decreases |ins|
  {
    if ins == [] {
      assert !Reset(c).s.synced;
    } else {
      var before, i := ins[..|ins| - 1], ins[|ins| - 1];
      NeverBad(c, before, mem);
      RunOk(c, before, mem);
      HistoryOk(c, before, mem);
      NothingFailed(c, before);
      NextGood(Run(Reset(c), before), i, mem, History(c, before));
    }
  }

  /** Without bus errors no error is ever shown after the first branch: transparency never ends, whatever hits, misses,
      speculative requests and errors of the RAMs there are. */
  lemma TransparentForEver(c: Cache, ins: seq<Inputs>, i: Inputs, mem: Memory)
    requires c.Init() && LegalRun(Reset(c), ins + [i], mem) && Answered(ins + [i])
    ensures var y := Run(Reset(c), ins);
      y.s.synced ==>
        && y.s.log == Program(c.cfg, mem, y.s.target, |y.s.log|)
        && (y.c.Valid(i) ==> !y.c.Err(i) && Presented(y.c, i) == InstrAt(c.cfg, mem, y.c.outAddr))
  {
    assert (ins + [i])[..|ins|] == ins && (ins + [i])[|ins|] == i;
    assert forall k | 0 <= k < |ins| :: (ins + [i])[k] == ins[k];
    NeverBad(c, ins, mem);
    RunOk(c, ins, mem);
    HistoryOk(c, ins, mem);
    NothingFailed(c, ins);
    if Run(Reset(c), ins).s.synced {
      NoneShown(Run(Reset(c), ins), i, mem, History(c, ins));
    }
    Transparent(c, ins, i, mem);
  }
}
