/** What the fill buffers, the RAMs and the output mux hold, compared with a constant memory. */
module ICacheData {
  import opened ICacheModel
  import opened ICacheAge
  import opened ICacheBus
  import opened ICacheInval

  /** Memory as a function of line and beat. */
  type Memory = (nat, nat) -> Word

  ghost predicate LineIs(cfg: Config, data: seq<Word>, line: nat, mem: Memory) {
    |data| == cfg.beats && forall k | 0 <= k < cfg.beats :: data[k] == mem(line, k)
  }

  /** A response without an error carries the word its request asked for. */
  ghost predicate MemLegal(i: Inputs, q: seq<Beat>, mem: Memory) {
    i.rvalid && !i.rerr && q != [] ==> i.rdata == mem(q[0].line, q[0].beat)
  }

  /** How many responses come before the one for beat `k`, when the first is for beat `first`. */
  function Slot(first: nat, k: nat, beats: nat): int {
    if k >= first then k - first else k + beats - first
  }

  lemma ModOnce(x: nat, n: nat)
    requires 0 < n && x < 2 * n
    ensures x % n == if x < n then x else x - n
  {
    if x >= n {
      var q, r := x / n, x % n;
      assert (q - 1) * n == x - n - r;
      assert q - 1 < 1 by { assert q >= 2 ==> (q - 1) * n >= n; }
      assert q - 1 > -1 by { assert q <= 0 ==> q * n <= 0; }
    }
  }

  // ------------------------------------------------------------------ invariants

  ghost predicate Ic1Ok(c: Cache) {
    c.lookupValid1 ==>
      c.in1 < c.cfg.buffers && c.F(c.in1).busy && c.F(c.in1).line == c.line1 && c.Pending(c.in1)
  }

  ghost predicate ReadOk(c: Cache, mem: Memory) {
    c.lookupValid1 ==>
      |c.rd| == c.cfg.ways &&
      forall w | 0 <= w < c.cfg.ways && c.rd[w].valid && c.rd[w].tag == c.Tag(c.line1) ::
        LineIs(c.cfg, c.rd[w].data, c.line1, mem)
  }

  /** The line a RAM entry belongs to. */
  function EntryLine(c: Cache, p: (nat, nat)): nat
    requires p in c.ram
  {
    c.ram[p].tag * c.cfg.indices + p.1
  }

  ghost predicate RamOk(c: Cache, mem: Memory) {
    c.invalState.InvalIdle? ==>
      forall p | p in c.ram && c.ram[p].valid :: LineIs(c.cfg, c.ram[p].data, EntryLine(c, p), mem)
  }

  ghost predicate Widths(c: Cache, b: nat) {
    |c.F(b).data| == c.cfg.beats && |c.F(b).err| == c.cfg.beats
  }

  /** Every beat received, or the whole line after a hit, is what memory holds or is flagged. */
  ghost predicate FillOk(c: Cache, b: nat, mem: Memory) {
    var f := c.F(b);
    && Widths(c, b)
    && (f.hit ==> LineIs(c.cfg, f.data, f.line, mem))
    && (!f.hit ==> forall k | 0 <= k < c.cfg.beats && Slot(f.beat, k, c.cfg.beats) < f.rvdCnt ::
          f.err[k] || f.data[k] == mem(f.line, k))
  }

  ghost predicate OutOk(c: Cache, b: nat) {
    var f := c.F(b);
    f.beat <= f.outCnt <= c.cfg.beats && (!f.hit ==> f.outCnt <= f.beat + f.rvdCnt)
  }

  ghost predicate DataOk(c: Cache, g: Age, mem: Memory) {
    && Ic1Ok(c) && ReadOk(c, mem) && RamOk(c, mem)
    && (forall b | 0 <= b < c.cfg.buffers :: Widths(c, b))
    && (forall b | b in g.Order() :: FillOk(c, b, mem) && OutOk(c, b))
  }

  // ------------------------------------------------------------------ hits

  lemma {:induction false} HitDataIs(c: Cache, i: Inputs, n: nat, mem: Memory)
    requires n <= c.cfg.ways && c.RamLegal(i) && ReadOk(c, mem) && c.lookupValid1
    requires !i.tagErr && !i.dataErr
    ensures if exists w :: 0 <= w < n && c.TagMatch(i, w)
            then LineIs(c.cfg, c.HitDataUpTo(i, n), c.line1, mem)
            else c.HitDataUpTo(i, n) == c.Zeros()
  {
    if n > 0 {
      HitDataIs(c, i, n - 1, mem);
      if c.TagMatch(i, n - 1) {
        assert LineIs(c.cfg, i.tagRdata[n - 1].data, c.line1, mem);
      } else {
        assert (exists w :: 0 <= w < n && c.TagMatch(i, w)) <==>
               (exists w :: 0 <= w < n - 1 && c.TagMatch(i, w));
      }
    }
  }

  lemma HitIsLine(c: Cache, i: Inputs, b: nat, mem: Memory)
    requires c.RamLegal(i) && ReadOk(c, mem) && Ic1Ok(c) && c.HitIc1(i, b)
    ensures LineIs(c.cfg, c.HitData(i), c.F(b).line, mem)
  {
    HitDataIs(c, i, c.cfg.ways, mem);
  }

  // ------------------------------------------------------------------ one clock edge

  lemma NextIc1(c: Cache, i: Inputs)
    requires c.cfg.Legal() && c.LookupAddr(i).beat < c.cfg.beats
    ensures Ic1Ok(c.Next(i))
  {
    if c.Next(i).lookupValid1 {
      AllocUnique(c, i, c.AllocIndex(0));
      AllocatedPending(c, i, c.AllocIndex(0));
    }
  }

  lemma EntryLineOf(c: Cache, line: nat)
    requires c.cfg.indices > 0
    ensures c.Tag(line) * c.cfg.indices + c.Index(line) == line
  {
  }

  lemma EntryRead(c: Cache, i: Inputs, mem: Memory, w: nat)
    requires c.cfg.indices > 0 && RamOk(c, mem) && c.invalState.InvalIdle?
    requires c.LookupReq(i) && !c.RamWrite(i) && w < c.cfg.ways
    ensures var l := c.LookupAddr(i).line; var r := c.RdD(i)[w];
      r.valid && r.tag == c.Tag(l) ==> LineIs(c.cfg, r.data, l, mem)
  {
    EntryLineOf(c, c.LookupAddr(i).line);
  }

  lemma NextRead(c: Cache, i: Inputs, mem: Memory)
    requires InvalOk(c) && RamOk(c, mem)
    ensures ReadOk(c.Next(i), mem)
  {
    if c.LookupActual(i) {
      assert c.invalState.InvalIdle? && !c.RamWrite(i);
      forall w: nat | w < c.cfg.ways && c.RdD(i)[w].valid && c.RdD(i)[w].tag == c.Tag(c.LookupAddr(i).line)
        ensures LineIs(c.cfg, c.RdD(i)[w].data, c.LookupAddr(i).line, mem)
      {
        EntryRead(c, i, mem, w);
      }
    }
  }

  /** A buffer that writes the RAM holds the whole line. */
  lemma FilledIsLine(c: Cache, i: Inputs, b: nat, mem: Memory)
    requires FillOk(c, b, mem) && c.RamReq(b) && c.F(b).beat < c.cfg.beats
    ensures LineIs(c.cfg, c.F(b).data, c.F(b).line, mem)
  {
    var f := c.F(b);
    forall k | 0 <= k < c.cfg.beats ensures f.data[k] == mem(f.line, k) {
      assert Slot(f.beat, k, c.cfg.beats) < f.rvdCnt;
      assert f.err[k] ==> true in f.err;
    }
  }

  lemma WrittenEntry(c: Cache, i: Inputs, p: (nat, nat))
    requires p in c.ram && c.FillGrant(i) && p.1 == c.WriteIndex(i) && c.WriteBank(i, p.0)
    ensures c.Next(i).ram[p] == RamLine(true, c.Tag(c.F(c.RamSel(i, 0)).line), c.F(c.RamSel(i, 0)).data)
    ensures p.1 == c.Index(c.F(c.RamSel(i, 0)).line)
  {
  }

  lemma KeptEntry(c: Cache, i: Inputs, p: (nat, nat))
    requires p in c.ram && !(c.FillGrant(i) && p.1 == c.WriteIndex(i) && c.WriteBank(i, p.0))
    ensures c.Next(i).ram[p].valid ==> c.Next(i).ram[p] == c.ram[p]
  {
  }

  lemma NextRam(c: Cache, i: Inputs, g: Age, mem: Memory)
    requires AgeOk(c, g) && Ranges(c) && InvalOk(c) && DataOk(c, g, mem)
    ensures RamOk(c.Next(i), mem)
  {
    if c.Next(i).invalState.InvalIdle? {
      if c.invalState.InvalCache? {
        SweepDone(c, i);
      }
      forall p | p in c.Next(i).ram && c.Next(i).ram[p].valid
        ensures LineIs(c.cfg, c.Next(i).ram[p].data, EntryLine(c.Next(i), p), mem)
      {
        if c.FillGrant(i) && p.1 == c.WriteIndex(i) && c.WriteBank(i, p.0) {
          WrittenEntry(c, i, p);
          var r := c.RamSel(i, 0);
          assert r < c.cfg.buffers && c.RamReq(r) && r in g.Order();
          FilledIsLine(c, i, r, mem);
          EntryLineOf(c, c.F(r).line);
        } else {
          KeptEntry(c, i, p);
        }
      }
    }
  }

  lemma NextWidths(c: Cache, i: Inputs, b: nat, mem: Memory)
    requires b < c.cfg.buffers && Widths(c, b) && Ic1Ok(c) && ReadOk(c, mem) && c.RamLegal(i)
    ensures Widths(c.Next(i), b)
  {
    NextF(c, i, b);
    if c.HitIc1(i, b) {
      HitIsLine(c, i, b, mem);
    }
  }

  /** A beat received is stored under its own number; no earlier beat is overwritten. */
  lemma NextSlot(first: nat, rvd: nat, k: nat, beats: nat)
    requires first < beats && rvd < beats && k < beats
    ensures Slot(first, k, beats) < rvd + 1 <==>
            Slot(first, k, beats) < rvd || k == (first + rvd) % beats
    ensures Slot(first, k, beats) < rvd ==> k != (first + rvd) % beats
  {
    ModOnce(first + rvd, beats);
  }

  lemma BeatAfter(c: Cache, i: Inputs, b: nat, k: nat)
    requires c.F(b).busy && Widths(c, b) && !c.F(b).hit && !c.HitIc1(i, b) && k < c.cfg.beats
    ensures |c.ErrD(i, b)| == |c.DataD(i, b)| == c.cfg.beats
    ensures c.ErrD(i, b)[k] <==> (c.RvdArb(i, b) && i.rerr && c.RvdOff(b) == k) || c.F(b).err[k]
    ensures c.DataD(i, b)[k] ==
            if c.RvdArb(i, b) && c.RvdOff(b) == k then i.rdata else c.F(b).data[k]
  {
  }

  lemma FillAfterMiss(c: Cache, i: Inputs, g: Age, q: seq<Beat>, b: nat, mem: Memory, k: nat)
    requires AgeOk(c, g) && BusOk(c, g, q) && BusLegal(c, i, q) && MemLegal(i, q, mem)
    requires b in g.Order() && FillOk(c, b, mem) && !c.F(b).hit && !c.HitIc1(i, b)
    requires k < c.cfg.beats
    requires Slot(c.F(b).beat, k, c.cfg.beats) < c.F(b).rvdCnt + c.Count(c.RvdArb(i, b))
    ensures |c.ErrD(i, b)| == |c.DataD(i, b)| == c.cfg.beats
    ensures c.ErrD(i, b)[k] || c.DataD(i, b)[k] == mem(c.F(b).line, k)
  {
    BeatAfter(c, i, b, k);
    if c.RvdArb(i, b) {
      ResponseToIssuer(c, i, g, q, b);
      assert CountersOk(c, b);
      NextSlot(c.F(b).beat, c.F(b).rvdCnt, k, c.cfg.beats);
    }
  }

  lemma NextFillKept(c: Cache, i: Inputs, g: Age, q: seq<Beat>, b: nat, mem: Memory)
    requires AgeOk(c, g) && BusOk(c, g, q) && BusLegal(c, i, q) && MemLegal(i, q, mem)
    requires DataOk(c, g, mem) && c.RamLegal(i) && b in g.Order()
    ensures FillOk(c.Next(i), b, mem)
  {
    NextWidths(c, i, b, mem);
    NextF(c, i, b);
    if c.HitIc1(i, b) {
      HitIsLine(c, i, b, mem);
    } else if !c.F(b).hit {
      forall k | 0 <= k < c.cfg.beats &&
        Slot(c.F(b).beat, k, c.cfg.beats) < c.F(b).rvdCnt + c.Count(c.RvdArb(i, b))
        ensures c.ErrD(i, b)[k] || c.DataD(i, b)[k] == mem(c.F(b).line, k)
      {
        FillAfterMiss(c, i, g, q, b, mem, k);
      }
    }
  }

  lemma AllocatedEmpty(c: Cache, i: Inputs, b: nat)
    requires Ic1Ok(c) && c.Alloc(i, b)
    ensures var n := c.Next(i).F(b);
      !n.hit && n.rvdCnt == 0 && n.beat == c.LookupAddr(i).beat
  {
    assert !c.HitIc1(i, b);
  }

  lemma NextFillAllocated(c: Cache, i: Inputs, b: nat, mem: Memory)
    requires Ic1Ok(c) && c.Alloc(i, b) && c.LookupAddr(i).beat < c.cfg.beats
    requires Widths(c.Next(i), b)
    ensures FillOk(c.Next(i), b, mem)
  {
    AllocatedEmpty(c, i, b);
    assert forall k | 0 <= k < c.cfg.beats :: Slot(c.LookupAddr(i).beat, k, c.cfg.beats) >= 0;
  }

  lemma NextOut(c: Cache, i: Inputs, g: Age, q: seq<Beat>, b: nat)
    requires AgeOk(c, g) && BusOk(c, g, q) && BusLegal(c, i, q)
    requires b in NextAge(c, i, g).Order() && (b in g.Order() ==> OutOk(c, b))
    requires c.LookupAddr(i).beat < c.cfg.beats
    ensures OutOk(c.Next(i), b)
  {
    NextBusy(c, i, g, b);
    NextF(c, i, b);
  }

  lemma DataStep(c: Cache, i: Inputs, g: Age, q: seq<Beat>, mem: Memory)
    requires AgeOk(c, g) && BusOk(c, g, q) && InvalOk(c) && DataOk(c, g, mem)
    requires BusLegal(c, i, q) && MemLegal(i, q, mem) && c.RamLegal(i)
    ensures DataOk(c.Next(i), NextAge(c, i, g), mem)
  {
    NextIc1(c, i);
    NextRead(c, i, mem);
    NextRam(c, i, g, mem);
    forall b | 0 <= b < c.cfg.buffers ensures Widths(c.Next(i), b) {
      NextWidths(c, i, b, mem);
    }
    forall b | b in NextAge(c, i, g).Order() ensures FillOk(c.Next(i), b, mem) && OutOk(c.Next(i), b) {
      NextOut(c, i, g, q, b);
      NextBusy(c, i, g, b);
      if c.F(b).busy {
        NextFillKept(c, i, g, q, b, mem);
      } else {
        NextFillAllocated(c, i, b, mem);
      }
    }
  }

  // ------------------------------------------------------------------ output

  lemma OutputFromBus(c: Cache, i: Inputs, g: Age, q: seq<Beat>, mem: Memory, b: nat)
    requires AgeOk(c, g) && BusOk(c, g, q) && BusLegal(c, i, q) && MemLegal(i, q, mem)
    requires c.OutArb(i, b) && b in g.Order() && c.AnyDataRvd(i) && !c.OutputErr(i)
    ensures c.OutputData(i) == mem(c.F(b).line, c.F(b).outCnt)
  {
    var x :| 0 <= x < c.cfg.buffers && c.DataRvd(i, x);
    SelectedIsOldest(c, g, x);
    SelectedIsOldest(c, g, b);
    ResponseToIssuer(c, i, g, q, b);
    SmallMod(c.F(b).outCnt, c.cfg.beats);
  }

  lemma OutputFromBuffer(c: Cache, i: Inputs, g: Age, mem: Memory, b: nat)
    requires AgeOk(c, g) && FillOk(c, b, mem) && OutOk(c, b)
    requires c.OutArb(i, b) && c.OutBeat() == c.F(b).outCnt && !c.OutputErr(i)
    requires !c.AnyDataHit(i) && !c.AnyDataRvd(i)
    ensures c.OutputData(i) == mem(c.F(b).line, c.F(b).outCnt)
  {
    assert b < c.cfg.buffers;
    assert !c.DataHit(i, b) && !c.DataRvd(i, b);
    assert c.DataReg(i, b);
    var r := c.RegSel(i, 0);
    ArbitersOneHot(c, i, g, b, r);
    assert Slot(c.F(b).beat, c.F(b).outCnt, c.cfg.beats) == c.F(b).outCnt - c.F(b).beat;
  }

  lemma OutputFromHit(c: Cache, i: Inputs, g: Age, mem: Memory, b: nat)
    requires AgeOk(c, g) && DataOk(c, g, mem) && c.RamLegal(i)
    requires c.OutArb(i, b) && c.OutBeat() == c.F(b).outCnt && c.AnyDataHit(i) && !c.AnyDataRvd(i)
    ensures c.OutputData(i) == mem(c.F(b).line, c.F(b).outCnt)
  {
    var x :| 0 <= x < c.cfg.buffers && c.DataHit(i, x);
    SelectedIsOldest(c, g, x);
    SelectedIsOldest(c, g, b);
    HitIsLine(c, i, b, mem);
  }

  /** When the output address selects the beat the oldest pending buffer is at, data offered
      without an error is what memory holds there. */
  lemma OutputIsMemory(c: Cache, i: Inputs, g: Age, q: seq<Beat>, mem: Memory)
    requires AgeOk(c, g) && BusOk(c, g, q) && DataOk(c, g, mem)
    requires BusLegal(c, i, q) && MemLegal(i, q, mem) && c.RamLegal(i)
    requires c.DataValid(i) && !c.OutputErr(i)
    requires g.pend != [] ==> c.OutBeat() == c.F(g.pend[0]).outCnt
    ensures g.pend != [] && c.OutArb(i, g.pend[0])
    ensures c.OutputData(i) == mem(c.F(g.pend[0]).line, c.F(g.pend[0]).outCnt)
  {
    var b :| 0 <= b < c.cfg.buffers && c.OutArb(i, b);
    SelectedIsOldest(c, g, b);
    assert b in g.Order() && FillOk(c, b, mem) && OutOk(c, b);
    if c.AnyDataRvd(i) {
      OutputFromBus(c, i, g, q, mem, b);
    } else if c.AnyDataHit(i) {
      OutputFromHit(c, i, g, mem, b);
    } else {
      OutputFromBuffer(c, i, g, mem, b);
    }
  }
}
