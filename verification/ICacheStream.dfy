/** The output side: skid buffer, realignment and address counter deliver the program. */
module ICacheStream {
  import opened ICacheModel
  import opened ICacheAge
  import opened ICacheBus
  import opened ICacheInval
  import opened ICacheData

  /** The number of the halfword at `a`, counted from address zero. */
  function HalfNumber(cfg: Config, a: Addr): nat {
    (a.line * cfg.beats + a.beat) * 2 + if a.hi then 1 else 0
  }

  function Halves(cfg: Config): nat {
    cfg.lines * cfg.beats * 2
  }

  lemma LineBound(l: nat, lines: nat, beats: nat)
    requires l < lines
    ensures l * beats + beats <= lines * beats
    ensures l + 1 == lines ==> l * beats + beats == lines * beats
  {
    var d := lines - l - 1;
    assert (l + 1 + d) * beats == l * beats + beats + d * beats;
    assert d * beats >= 0;
  }

  lemma NextWordNumber(cfg: Config, a: Addr)
    requires cfg.Legal() && cfg.InRange(a)
    ensures cfg.InRange(cfg.NextWord(a))
    ensures var w := a.line * cfg.beats + a.beat;
      HalfNumber(cfg, cfg.NextWord(a)) == if w + 1 == cfg.lines * cfg.beats then 0 else 2 * (w + 1)
  {
    LineBound(a.line, cfg.lines, cfg.beats);
    if a.line + 1 < cfg.lines {
      LineBound(a.line + 1, cfg.lines, cfg.beats);
      assert (a.line + 1) * cfg.beats == a.line * cfg.beats + cfg.beats;
    }
  }

  lemma Wrap(w: nat, words: nat, hi: bool)
    requires w < words && 2 <= words
    ensures var n := 2 * w + if hi then 1 else 0;
      && (n + 1) % (2 * words) == (if n + 1 == 2 * words then 0 else n + 1)
      && (n + 2) % (2 * words) == (if n + 2 >= 2 * words then n + 2 - 2 * words else n + 2)
  {
    var n := 2 * w + if hi then 1 else 0;
    ModOnce(n + 1, 2 * words);
    ModOnce(n + 2, 2 * words);
  }

  /** The split addresses count halfwords: the increments are +1 and +2, wrapping. */
  lemma AddressArithmetic(cfg: Config, a: Addr)
    requires cfg.Legal() && cfg.InRange(a)
    ensures cfg.InRange(cfg.Plus2(a)) && cfg.InRange(cfg.Plus4(a))
    ensures HalfNumber(cfg, cfg.Plus2(a)) == (HalfNumber(cfg, a) + 1) % Halves(cfg)
    ensures HalfNumber(cfg, cfg.Plus4(a)) == (HalfNumber(cfg, a) + 2) % Halves(cfg)
  {
    var w, words := a.line * cfg.beats + a.beat, cfg.lines * cfg.beats;
    LineBound(a.line, cfg.lines, cfg.beats);
    NextWordNumber(cfg, a);
    assert w < words && 2 <= words;
    Wrap(w, words, a.hi);
  }

  /** An instruction as handed to the core: its address and one or two halfwords. */
  datatype Instr = Half(addr: Addr, h: bv16) | Full(addr: Addr, lo: bv16, hi: bv16)

  function HalfAt(mem: Memory, a: Addr): bv16 {
    if a.hi then mem(a.line, a.beat).hi else mem(a.line, a.beat).lo
  }

  /** The instruction that memory holds at `a`. */
  function InstrAt(cfg: Config, mem: Memory, a: Addr): Instr {
    var h := HalfAt(mem, a);
    if Cache.Compressed(h) then Half(a, h) else Full(a, h, HalfAt(mem, cfg.Plus2(a)))
  }

  function After(cfg: Config, mem: Memory, a: Addr): Addr {
    if Cache.Compressed(HalfAt(mem, a)) then cfg.Plus2(a) else cfg.Plus4(a)
  }

  /** Address of instruction number `n` when execution is sequential from `a`. */
  function Walk(cfg: Config, mem: Memory, a: Addr, n: nat): Addr {
    if n == 0 then a else After(cfg, mem, Walk(cfg, mem, a, n - 1))
  }

  function Program(cfg: Config, mem: Memory, a: Addr, n: nat): (r: seq<Instr>)
    ensures |r| == n
  {
    if n == 0 then []
    else Program(cfg, mem, a, n - 1) + [InstrAt(cfg, mem, Walk(cfg, mem, a, n - 1))]
  }

  /** What the output port shows. */
  function Presented(c: Cache, i: Inputs): Instr {
    if c.OutputCompressed(i) then Half(c.outAddr, c.RdataLo(i))
    else Full(c.outAddr, c.RdataLo(i), c.RdataHi(i))
  }

  /** The next bus word the output needs: the skid buffer already holds half of the word before. */
  function NextNeeded(c: Cache): Addr {
    if c.skidValid then c.cfg.NextWord(c.outAddr) else c.outAddr.(hi := false)
  }

  datatype Stream = Stream(
    synced: bool,       // a branch has been seen
    bad: bool,          // an instruction with an error was taken since
    target: Addr,       // of the last branch
    log: seq<Instr>)    // instructions taken since

  function NextStream(c: Cache, i: Inputs, s: Stream): Stream {
    if i.branch then Stream(true, false, i.addr, [])
    else if c.Accepted(i) && c.Err(i) then s.(bad := true)
    else if c.Accepted(i) && !s.bad then s.(log := s.log + [Presented(c, i)])
    else s
  }

  // ------------------------------------------------------------------ instruction lengths

  /** An instruction is two bytes long unless its first halfword ends in two ones. */
  ghost predicate Delimited(n: Instr) {
    match n {
      case Half(_, h) => h % 4 != 3
      case Full(_, lo, _) => lo % 4 == 3
    }
  }

  lemma MemoryDelimited(cfg: Config, mem: Memory, a: Addr)
    requires cfg.Legal() && cfg.InRange(a)
    ensures var n := InstrAt(cfg, mem, a); n.addr == a && Delimited(n)
    ensures var n, next := InstrAt(cfg, mem, a), After(cfg, mem, a);
      && cfg.InRange(next)
      && HalfNumber(cfg, next) == (HalfNumber(cfg, a) + if n.Half? then 1 else 2) % Halves(cfg)
  {
    AddressArithmetic(cfg, a);
  }

  /** An instruction accepted without an error moves the output address on by its length, and one with an error, of
      which the length is not known, by four bytes. */
  lemma LengthIs(c: Cache, i: Inputs)
    requires c.cfg.Legal() && c.cfg.InRange(c.outAddr)
    ensures Presented(c, i).addr == c.outAddr && Delimited(Presented(c, i))
    ensures i.ready && c.Valid(i) && !i.branch ==>
      HalfNumber(c.cfg, c.Next(i).outAddr) ==
      (HalfNumber(c.cfg, c.outAddr) + if Presented(c, i).Half? && !c.Err(i) then 1 else 2) % Halves(c.cfg)
  {
    AddressArithmetic(c.cfg, c.outAddr);
  }

  /** The skid buffer is empty again once the instruction it holds is taken, and after data taken with an error. */
  lemma SkidEmptied(c: Cache, i: Inputs)
    requires i.ready && (c.SkidComplete() || (!c.skidValid && !c.outAddr.hi && c.OutputErr(i)))
    ensures !c.Next(i).skidValid
  {
  }

  // ------------------------------------------------------------------ invariant

  /** The bus word buffer `b` delivers next. */
  function WordOf(c: Cache, b: nat): Addr {
    Addr(c.F(b).line, c.F(b).outCnt, false)
  }

  function LineAfter(c: Cache, b: nat): Addr {
    Addr(c.cfg.NextLine(c.F(b).line), 0, false)
  }

  /** The buffers of `p` hold consecutive lines, each but the first from its beginning. */
  ghost predicate Linked(c: Cache, p: seq<nat>) {
    forall k | 0 < k < |p| :: WordOf(c, p[k]) == LineAfter(c, p[k - 1])
  }

  /** Pending buffers hold consecutive lines, followed by the prefetch address. */
  ghost predicate ChainOk(c: Cache, g: Age) {
    Linked(c, g.pend) && (g.pend != [] ==> c.prefetch == LineAfter(c, g.pend[|g.pend| - 1]))
  }

  /** Where the stream of words waiting in the buffers, or still to be looked up, begins. */
  function Front(c: Cache, g: Age): Addr {
    if g.pend != [] then WordOf(c, g.pend[0]) else c.prefetch.(hi := false)
  }

  ghost predicate SkidOk(c: Cache, mem: Memory) {
    c.skidValid ==>
      c.outAddr.hi && (c.skidErr || c.skidData == mem(c.outAddr.line, c.outAddr.beat).hi)
  }

  ghost predicate StreamOk(c: Cache, g: Age, s: Stream, mem: Memory) {
    && ChainOk(c, g)
    && (s.synced && !s.bad ==>
          && Front(c, g) == NextNeeded(c)
          && SkidOk(c, mem)
          && c.outAddr == Walk(c.cfg, mem, s.target, |s.log|)
          && s.log == Program(c.cfg, mem, s.target, |s.log|))
  }

  // ------------------------------------------------------------------ words consumed

  predicate Consumed(c: Cache, i: Inputs) {
    c.DataValid(i) && c.OutputReady(i)
  }

  /** Consuming data and moving the output address and skid buffer keep step. */
  lemma NeededAfter(c: Cache, i: Inputs, mem: Memory)
    requires !i.branch && SkidOk(c, mem) && !(c.Accepted(i) && c.Err(i))
    ensures NextNeeded(c.Next(i)) ==
            if Consumed(c, i) then c.cfg.NextWord(NextNeeded(c)) else NextNeeded(c)
  {
  }

  lemma ConsumedBy(c: Cache, i: Inputs, g: Age, b: nat)
    requires AgeOk(c, g) && g.pend != []
    ensures c.OutArb(i, b) ==> b == g.pend[0]
    ensures c.DataValid(i) <==> c.OutArb(i, g.pend[0])
  {
    if c.OutArb(i, b) {
      SelectedIsOldest(c, g, b);
    }
    if x :| 0 <= x < c.cfg.buffers && c.OutArb(i, x) {
      SelectedIsOldest(c, g, x);
    }
    assert g.pend[0] in g.pend && c.Pending(g.pend[0]);
  }

  /** A pending buffer that stays pending. */
  lemma KeptWord(c: Cache, i: Inputs, g: Age, b: nat)
    requires AgeOk(c, g) && !i.branch && b in g.pend
    ensures c.Next(i).F(b).line == c.F(b).line
    ensures c.Next(i).F(b).outCnt ==
            c.F(b).outCnt + if b == g.pend[0] && Consumed(c, i) then 1 else 0
  {
    assert c.Pending(b);
    ConsumedBy(c, i, g, b);
    NextF(c, i, b);
  }

  lemma AllocatedWord(c: Cache, i: Inputs)
    requires c.LookupReq(i)
    ensures WordOf(c.Next(i), c.AllocIndex(0)) == c.LookupAddr(i).(hi := false)
  {
    AllocUnique(c, i, c.AllocIndex(0));
    NextF(c, i, c.AllocIndex(0));
  }

  lemma ChainAfterBranch(c: Cache, i: Inputs, g: Age)
    requires i.branch
    ensures ChainOk(c.Next(i), NextAge(c, i, g))
  {
    if c.LookupReq(i) {
      AllocatedWord(c, i);
    }
  }

  /** The pending list of the next cycle before any allocation. */
  function Remaining(c: Cache, i: Inputs, g: Age): seq<nat> {
    if Finishing(c, i, g) then g.pend[1..] else g.pend
  }

  lemma RemainingWord(c: Cache, i: Inputs, g: Age, k: nat)
    requires AgeOk(c, g) && !i.branch && k < |Remaining(c, i, g)|
    ensures c.Next(i).F(Remaining(c, i, g)[k]).line == c.F(Remaining(c, i, g)[k]).line
    ensures k > 0 ==> WordOf(c.Next(i), Remaining(c, i, g)[k]) == WordOf(c, Remaining(c, i, g)[k])
  {
    var b := Remaining(c, i, g)[k];
    var j := if Finishing(c, i, g) then k + 1 else k;
    assert g.pend[j] == b;
    KeptWord(c, i, g, b);
    PendDistinct(g, j);
    PendDistinct(g, 0);
  }

  lemma PendAfter(c: Cache, i: Inputs, g: Age, k: nat)
    requires !i.branch
    ensures NextAge(c, i, g).pend == Remaining(c, i, g) + Allocated(c, i)
    ensures k < |Remaining(c, i, g)| ==>
      Remaining(c, i, g)[k] == g.pend[k + if Finishing(c, i, g) then 1 else 0]
    ensures |g.pend| == |Remaining(c, i, g)| + if Finishing(c, i, g) then 1 else 0
  {
  }

  lemma RemainingLink(c: Cache, i: Inputs, g: Age, k: nat)
    requires AgeOk(c, g) && !i.branch && ChainOk(c, g) && 0 < k < |Remaining(c, i, g)|
    ensures WordOf(c.Next(i), Remaining(c, i, g)[k]) == LineAfter(c.Next(i), Remaining(c, i, g)[k - 1])
  {
    PendAfter(c, i, g, k);
    PendAfter(c, i, g, k - 1);
    RemainingWord(c, i, g, k - 1);
    RemainingWord(c, i, g, k);
  }

  lemma RemainingLast(c: Cache, i: Inputs, g: Age)
    requires AgeOk(c, g) && !i.branch && ChainOk(c, g) && Remaining(c, i, g) != []
    ensures c.prefetch == LineAfter(c.Next(i), Remaining(c, i, g)[|Remaining(c, i, g)| - 1])
  {
    PendAfter(c, i, g, |Remaining(c, i, g)| - 1);
    RemainingWord(c, i, g, |Remaining(c, i, g)| - 1);
  }

  lemma RemainingLinked(c: Cache, i: Inputs, g: Age)
    requires AgeOk(c, g) && !i.branch && ChainOk(c, g)
    ensures Linked(c.Next(i), Remaining(c, i, g))
    ensures Remaining(c, i, g) != [] ==>
            c.prefetch == LineAfter(c.Next(i), Remaining(c, i, g)[|Remaining(c, i, g)| - 1])
  {
    var n, r := c.Next(i), Remaining(c, i, g);
    forall k | 0 < k < |r| ensures WordOf(n, r[k]) == LineAfter(n, r[k - 1]) {
      RemainingLink(c, i, g, k);
    }
    if r != [] {
      RemainingLast(c, i, g);
    }
  }

  lemma PrefetchAfter(c: Cache, i: Inputs)
    requires !i.branch
    ensures c.Next(i).prefetch ==
            if c.LookupReq(i) then Addr(c.cfg.NextLine(c.prefetch.line), 0, false) else c.prefetch
  {
  }

  lemma LinkedAppend(n: Cache, r: seq<nat>, b: nat)
    requires Linked(n, r) && (r != [] ==> WordOf(n, b) == LineAfter(n, r[|r| - 1]))
    ensures Linked(n, r + [b])
  {
  }

  lemma ChainStep(c: Cache, i: Inputs, g: Age)
    requires AgeOk(c, g) && !i.branch && ChainOk(c, g)
    ensures ChainOk(c.Next(i), NextAge(c, i, g))
  {
    var n, r := c.Next(i), Remaining(c, i, g);
    PendAfter(c, i, g, 0);
    PrefetchAfter(c, i);
    RemainingLinked(c, i, g);
    if c.LookupReq(i) {
      AllocatedWord(c, i);
      LinkedAppend(n, r, c.AllocIndex(0));
    } else {
      assert r + [] == r;
    }
  }

  lemma NoneConsumed(c: Cache, i: Inputs, g: Age)
    requires AgeOk(c, g) && g.pend == []
    ensures !c.DataValid(i)
  {
    if b :| 0 <= b < c.cfg.buffers && c.OutArb(i, b) {
      SelectedIsOldest(c, g, b);
    }
  }

  /** No pending buffer is left over: the words to come start at the lookup address. */
  lemma FrontFresh(c: Cache, i: Inputs, g: Age)
    requires AgeOk(c, g) && !i.branch && Remaining(c, i, g) == []
    ensures Front(c.Next(i), NextAge(c, i, g)) == c.prefetch.(hi := false)
  {
    PendAfter(c, i, g, 0);
    if c.LookupReq(i) {
      AllocatedWord(c, i);
    }
  }

  lemma FrontKept(c: Cache, i: Inputs, g: Age)
    requires AgeOk(c, g) && !i.branch && Remaining(c, i, g) != []
    ensures Front(c.Next(i), NextAge(c, i, g)) == WordOf(c.Next(i), Remaining(c, i, g)[0])
  {
    PendAfter(c, i, g, 0);
  }

  lemma FrontMoves(c: Cache, i: Inputs, g: Age)
    requires AgeOk(c, g) && !i.branch && ChainOk(c, g) && Remaining(c, i, g) != []
    ensures WordOf(c.Next(i), Remaining(c, i, g)[0]) ==
            if Consumed(c, i) then c.cfg.NextWord(Front(c, g)) else Front(c, g)
  {
    PendAfter(c, i, g, 0);
    ConsumedBy(c, i, g, g.pend[0]);
    var b := Remaining(c, i, g)[0];
    KeptWord(c, i, g, b);
    if Finishing(c, i, g) {
      PendDistinct(g, 0);
      PendDistinct(g, 1);
    }
  }

  /** The front of the words to come moves on exactly when data is consumed. */
  lemma FrontStep(c: Cache, i: Inputs, g: Age)
    requires AgeOk(c, g) && !i.branch && ChainOk(c, g)
    ensures Front(c.Next(i), NextAge(c, i, g)) ==
            if Consumed(c, i) then c.cfg.NextWord(Front(c, g)) else Front(c, g)
  {
    if Remaining(c, i, g) != [] {
      FrontKept(c, i, g);
      FrontMoves(c, i, g);
    } else {
      FrontFresh(c, i, g);
      if g.pend == [] {
        NoneConsumed(c, i, g);
      } else {
        ConsumedBy(c, i, g, g.pend[0]);
      }
    }
  }

  // ------------------------------------------------------------------ instructions

  lemma OutBeatIs(c: Cache, g: Age)
    requires c.cfg.Legal() && c.cfg.InRange(c.outAddr) && Front(c, g) == NextNeeded(c) && g.pend != []
    ensures c.OutBeat() == c.F(g.pend[0]).outCnt
  {
    ModOnce(c.outAddr.beat + if c.skidValid then 1 else 0, c.cfg.beats);
  }

  /** All that is known of a cache in a legal state of a run. */
  ghost predicate CacheOk(c: Cache, g: Age, q: seq<Beat>, mem: Memory) {
    AgeOk(c, g) && BusOk(c, g, q) && InvalOk(c) && DataOk(c, g, mem)
  }

  ghost predicate InputsOk(c: Cache, i: Inputs, q: seq<Beat>, mem: Memory) {
    BusLegal(c, i, q) && MemLegal(i, q, mem) && c.RamLegal(i)
  }

  /** Data offered without an error is the next needed word of memory. */
  lemma OfferedIsNeeded(c: Cache, i: Inputs, g: Age, q: seq<Beat>, s: Stream, mem: Memory)
    requires CacheOk(c, g, q, mem) && InputsOk(c, i, q, mem) && StreamOk(c, g, s, mem)
    requires s.synced && !s.bad && c.DataValid(i) && !c.OutputErr(i)
    ensures c.OutputData(i) == mem(NextNeeded(c).line, NextNeeded(c).beat)
  {
    if g.pend != [] {
      OutBeatIs(c, g);
    }
    OutputIsMemory(c, i, g, q, mem);
  }

  /** Transparency of one cycle: an instruction shown without an error is the one in memory at
      the address shown. */
  lemma PresentedIsMemory(c: Cache, i: Inputs, g: Age, q: seq<Beat>, s: Stream, mem: Memory)
    requires CacheOk(c, g, q, mem) && InputsOk(c, i, q, mem) && StreamOk(c, g, s, mem)
    requires s.synced && !s.bad && c.Valid(i) && !c.Err(i)
    ensures Presented(c, i) == InstrAt(c.cfg, mem, c.outAddr)
  {
    if !c.SkidComplete() {
      OfferedIsNeeded(c, i, g, q, s, mem);
    }
  }

  lemma SkidStep(c: Cache, i: Inputs, g: Age, q: seq<Beat>, s: Stream, mem: Memory)
    requires CacheOk(c, g, q, mem) && InputsOk(c, i, q, mem) && StreamOk(c, g, s, mem)
    requires s.synced && !s.bad && !i.branch && !(c.Accepted(i) && c.Err(i))
    ensures SkidOk(c.Next(i), mem)
  {
    if c.DataValid(i) && !c.OutputErr(i) {
      OfferedIsNeeded(c, i, g, q, s, mem);
    }
  }

  lemma StreamAfterBranch(c: Cache, i: Inputs, g: Age, s: Stream, mem: Memory)
    requires i.branch
    ensures StreamOk(c.Next(i), NextAge(c, i, g), NextStream(c, i, s), mem)
  {
    ChainAfterBranch(c, i, g);
    if c.LookupReq(i) {
      AllocatedWord(c, i);
    }
  }

  lemma AddressAfter(c: Cache, i: Inputs, mem: Memory)
    requires !i.branch && c.Accepted(i) && !c.Err(i)
    requires Presented(c, i) == InstrAt(c.cfg, mem, c.outAddr)
    ensures c.Next(i).outAddr == After(c.cfg, mem, c.outAddr)
  {
  }

  lemma LogStep(c: Cache, i: Inputs, g: Age, q: seq<Beat>, s: Stream, mem: Memory)
    requires CacheOk(c, g, q, mem) && InputsOk(c, i, q, mem) && StreamOk(c, g, s, mem)
    requires s.synced && !s.bad && !i.branch && !(c.Accepted(i) && c.Err(i))
    ensures var s' := NextStream(c, i, s);
      && c.Next(i).outAddr == Walk(c.cfg, mem, s'.target, |s'.log|)
      && s'.log == Program(c.cfg, mem, s'.target, |s'.log|)
  {
    if c.Accepted(i) {
      PresentedIsMemory(c, i, g, q, s, mem);
      AddressAfter(c, i, mem);
    }
  }

  lemma StreamStep(c: Cache, i: Inputs, g: Age, q: seq<Beat>, s: Stream, mem: Memory)
    requires CacheOk(c, g, q, mem) && InputsOk(c, i, q, mem) && StreamOk(c, g, s, mem)
    ensures StreamOk(c.Next(i), NextAge(c, i, g), NextStream(c, i, s), mem)
  {
    if i.branch {
      StreamAfterBranch(c, i, g, s, mem);
    } else {
      ChainStep(c, i, g);
      if s.synced && !s.bad && !(c.Accepted(i) && c.Err(i)) {
        FrontStep(c, i, g);
        NeededAfter(c, i, mem);
        SkidStep(c, i, g, q, s, mem);
        LogStep(c, i, g, q, s, mem);
      }
    }
  }
}
