/** The instruction cache as clocked hardware: the blocks that the source writes as loops or case statements, and
    registers that change in place, each under its enable. Continuous assignments are the functions of the model,
    of the values before the clock edge. */
module ICache {
  import opened ICacheModel

  /** What a write of the RAMs leaves in an entry. */
  lemma EntryAfter(c: Cache, i: Inputs, p: (nat, nat))
    requires p in c.ram
    ensures c.RamD(i)[p] ==
      if c.RamWrite(i) && p.1 == c.WriteIndex(i) && c.WriteBank(i, p.0) then c.Written(i, c.ram[p]) else c.ram[p]
  {
  }

  lemma EntryRead(c: Cache, i: Inputs, w: nat)
    requires c.LookupReq(i) && !c.RamWrite(i) && w < c.cfg.ways
    ensures var x := c.Index(c.LookupAddr(i).line);
      |c.RdD(i)| == c.cfg.ways && c.RdD(i)[w] == if (w, x) in c.ram then c.ram[(w, x)] else RamLine(false, 0, [])
  {
  }

  // The next values of a buffer's flags and counters.

  predicate BusyD(c: Cache, i: Inputs, b: nat) {
    c.Alloc(i, b) || (c.F(b).busy && !c.Done(i, b))
  }

  predicate CacheD(c: Cache, i: Inputs, b: nat) {
    (c.Alloc(i, b) && c.CacheNew(i)) || (c.F(b).cache && c.F(b).busy && i.enable && !i.inval)
  }

  predicate HitD(c: Cache, i: Inputs, b: nat) {
    c.HitIc1(i, b) || (c.F(b).hit && c.F(b).busy)
  }

  predicate RamDoneD(c: Cache, i: Inputs, b: nat) {
    c.RamArb(i, b) || (c.F(b).ramDone && c.F(b).busy)
  }

  function ExtCntD(c: Cache, i: Inputs, b: nat): nat {
    if c.Alloc(i, b) then c.Count(c.SpecReq(i) && i.gnt) else c.F(b).extCnt + c.Count(c.ExtArb(i, b) && i.gnt)
  }

  predicate ExtHoldD(c: Cache, i: Inputs, b: nat) {
    (c.Alloc(i, b) && c.SpecReq(i) && !i.gnt) || (c.ExtArb(i, b) && !i.gnt)
  }

  function RvdCntD(c: Cache, i: Inputs, b: nat): nat {
    if c.Alloc(i, b) then 0 else c.F(b).rvdCnt + c.Count(c.RvdArb(i, b))
  }

  function OutCntD(c: Cache, i: Inputs, b: nat): nat {
    if c.Alloc(i, b) then c.LookupAddr(i).beat else c.F(b).outCnt + c.Count(c.OutArb(i, b) && c.OutputReady(i))
  }

  /** What is stored of a buffer under its enable. */
  ghost function Tracked(c: Cache, i: Inputs, b: nat): FillBuffer {
    var f := c.F(b);
    if !(c.Alloc(i, b) || f.busy) then f
    else
      FillBuffer(BusyD(c, i, b), c.OlderD(i, b), f.busy && (i.branch || f.stale), CacheD(c, i, b), HitD(c, i, b),
                 ExtCntD(c, i, b), ExtHoldD(c, i, b), c.ExtDoneD(i, b), RvdCntD(c, i, b), RamDoneD(c, i, b),
                 OutCntD(c, i, b), c.ErrD(i, b), f.line, f.beat, f.way, f.data)
  }

  /** What is stored besides. */
  lemma NextBufferIs(c: Cache, i: Inputs, b: nat, n: FillBuffer)
    requires n == Tracked(c, i, b).(line := n.line, beat := n.beat, way := n.way, data := c.DataD(i, b))
    requires n.line == if c.Alloc(i, b) then c.LookupAddr(i).line else c.F(b).line
    requires n.beat == if c.Alloc(i, b) then c.LookupAddr(i).beat else c.F(b).beat
    requires n.way == if c.lookupValid1 && c.in1 == b then c.SelWay(i) else c.F(b).way
    ensures n == c.NextBuffer(i, b)
  {
    var d := c.NextBuffer(i, b);
    if c.Alloc(i, b) || c.F(b).busy {
      assert n.busy == d.busy && n.older == d.older && n.stale == d.stale && n.cache == d.cache && n.hit == d.hit;
      assert n.extCnt == d.extCnt && n.extHold == d.extHold && n.extDone == d.extDone && n.rvdCnt == d.rvdCnt;
      assert n.ramDone == d.ramDone && n.outCnt == d.outCnt && n.err == d.err;
    }
  }

  ghost predicate ControlIs(c: Cache, i: Inputs, d: Cache) {
    && d.prefetch == c.PrefetchD(i) && d.lookupValid1 == c.LookupActual(i) && d.cacheCnt == c.CacheCntD(i)
    && d.line1 == (if c.LookupReq(i) then c.LookupAddr(i).line else c.line1)
    && d.in1 == (if c.LookupReq(i) then c.AllocIndex(0) else c.in1)
    && d.roundRobin == (if c.lookupValid1 then c.NextWay() else c.roundRobin)
    && d.eccWrite == c.EccErr(i) && d.eccWays == (if c.EccErr(i) then c.EccWaysD(i) else c.eccWays)
    && d.eccIndex == (if c.EccErr(i) then c.Index(c.line1) else c.eccIndex)
    && d.invalState == c.InvalStateD(i) && d.invalIndex == c.InvalIndexD(i)
  }

  ghost predicate OutputIs(c: Cache, i: Inputs, d: Cache) {
    && d.outAddr == c.OutAddrD(i) && d.skidValid == c.SkidValidD(i)
    && d.skidData == (if c.SkidEn(i) then c.OutputData(i).hi else c.skidData)
    && d.skidErr == (if c.SkidEn(i) then c.OutputErr(i) else c.skidErr)
  }

  ghost predicate StorageIs(c: Cache, i: Inputs, d: Cache) {
    d.cfg == c.cfg && d.fb == c.NextBuffers(i) && d.ram == c.RamD(i) && d.rd == c.RdD(i)
  }

  lemma NextIs(c: Cache, i: Inputs, d: Cache)
    requires ControlIs(c, i, d) && OutputIs(c, i, d) && StorageIs(c, i, d)
    ensures d == c.Next(i)
  {
  }

  lemma DataStored(c: Cache, i: Inputs, b: nat, data: seq<Word>)
    requires !c.HitIc1(i, b) && c.RvdArb(i, b) && !c.F(b).hit
    requires data == if c.RvdOff(b) < |c.F(b).data| then c.F(b).data[c.RvdOff(b) := i.rdata] else c.F(b).data
    ensures data == c.DataD(i, b)
  {
    var want := c.DataD(i, b);
    forall k | 0 <= k < |want| ensures data[k] == want[k] {
    }
  }

  class ICacheRegisters {
    const cfg: Config
    const fb: array<FillBuffer>
    var prefetch: Addr
    var outAddr: Addr
    var skidValid: bool
    var skidData: bv16
    var skidErr: bool
    var lookupValid1: bool
    var line1: nat
    var in1: nat
    var roundRobin: nat
    var eccWrite: bool
    var eccWays: set<nat>
    var eccIndex: nat
    var cacheCnt: nat
    var invalState: InvalState
    var invalIndex: nat
    var ram: map<(nat, nat), RamLine>
    var rd: seq<RamLine>

    /** The values of all registers. */
    function Values(): Cache
      reads this, fb
    {
      Cache(cfg, fb[..], prefetch, outAddr, skidValid, skidData, skidErr, lookupValid1, line1, in1,
            roundRobin, eccWrite, eccWays, eccIndex, cacheCnt, invalState, invalIndex, ram, rd)
    }

    /** The RAMs have no entries in ways there are not. */
    ghost predicate Valid()
      reads this, fb
    {
      fb.Length == cfg.buffers && forall p | p in ram :: p.0 < cfg.ways
    }

    /** Registers that hold the given values, as the reset and the unreset flops leave them. */
    constructor (c: Cache)
      requires |c.fb| == c.cfg.buffers && forall p | p in c.ram :: p.0 < c.cfg.ways
      ensures Values() == c && Valid() && fresh(fb)
    {
      cfg := c.cfg;
      fb := new FillBuffer[|c.fb|](b requires 0 <= b < |c.fb| => c.fb[b]);
      prefetch, outAddr := c.prefetch, c.outAddr;
      skidValid, skidData, skidErr := c.skidValid, c.skidData, c.skidErr;
      lookupValid1, line1, in1 := c.lookupValid1, c.line1, c.in1;
      roundRobin := c.roundRobin;
      eccWrite, eccWays, eccIndex := c.eccWrite, c.eccWays, c.eccIndex;
      cacheCnt, invalState, invalIndex := c.cacheCnt, c.invalState, c.invalIndex;
      ram, rd := c.ram, c.rd;
      new;
      assert fb[..] == c.fb;
    }

    // ---------------------------------------------------------------- combinational blocks

    /** The number of fill buffers that are busy and not stale. */
    method FillLevel() returns (n: nat)
      requires Valid()
      ensures n == Values().FillLevelUpTo(cfg.buffers)
    {
      n := 0;
      for b := 0 to fb.Length
        invariant n == Values().FillLevelUpTo(b)
      {
        if fb[b].busy && !fb[b].stale {
          n := n + 1;
        }
      }
    }

    /** The data of all matching ways, or-ed together. */
    method HitData(i: Inputs) returns (d: seq<Word>)
      ensures d == Values().HitData(i)
    {
      d := seq(cfg.beats, _ => Word(0, 0));
      for w := 0 to cfg.ways
        invariant d == Values().HitDataUpTo(i, w)
      {
        if w < |i.tagRdata| && i.tagRdata[w].valid && i.tagRdata[w].tag == Values().Tag(line1) {
          d := Cache.OrWords(d, i.tagRdata[w].data);
        }
      }
    }

    /** The line and errors of the buffer that gives out data. */
    method LineOut(i: Inputs) returns (line: seq<Word>, err: seq<bool>)
      requires Valid()
      ensures line == Values().FillOutData(i)
      ensures forall k: nat :: Values().FillOutErr(i, k) <==> k < |err| && err[k]
    {
      var c := Values();
      line, err := c.Zeros(), [];
      var b := 0;
      while b < fb.Length && !c.DataReg(i, b)
        invariant b <= fb.Length && c.RegSel(i, 0) == c.RegSel(i, b)
      {
        b := b + 1;
      }
      if b < fb.Length {
        line := fb[b].data;
        err := if fb[b].hit then [] else fb[b].err;
      }
    }

    /** The data and error of the word that is next, from the RAMs, a buffer or the bus. */
    method Output(i: Inputs, hitLine: seq<Word>) returns (data: Word, err: bool)
      requires Valid() && hitLine == Values().HitData(i)
      ensures data == Values().OutputData(i) && err == Values().OutputErr(i)
    {
      var c := Values();
      var line, lineErr := LineOut(i);
      if c.AnyDataHit(i) {
        line, lineErr := hitLine, [];
      }
      data, err := Word(0, 0), false;
      var k := c.OutBeat();
      if k < |line| {
        data := line[k];
      }
      if k < |lineErr| {
        err := lineErr[k];
      }
      if c.AnyDataRvd(i) {
        data, err := i.rdata, i.rerr;
      }
    }

    // ---------------------------------------------------------------- clock edge
    //
    // The registers change one after the other; `c` holds their values before the edge.

    /** A lookup reads every way, and a write goes to the ways of the bank, at one index. */
    method ReadRams(i: Inputs, c: Cache)
      requires cfg == c.cfg && ram == c.ram && rd == c.rd
      modifies `rd
      ensures rd == c.RdD(i)
    {
      if c.LookupReq(i) && !c.RamWrite(i) {
        var x := c.Index(c.LookupAddr(i).line);
        ghost var next := c.RdD(i);
        rd := [];
        for w := 0 to cfg.ways
          invariant rd == next[..w]
        {
          EntryRead(c, i, w);
          rd := rd + [if (w, x) in ram then ram[(w, x)] else RamLine(false, 0, [])];
        }
      }
    }

    method WriteRams(i: Inputs, c: Cache)
      requires cfg == c.cfg && ram == c.ram && forall p | p in ram :: p.0 < cfg.ways
      modifies `ram
      ensures ram == c.RamD(i)
    {
      ghost var next := c.RamD(i);
      if c.RamWrite(i) {
        var x := c.WriteIndex(i);
        for w := 0 to cfg.ways
          invariant ram.Keys == c.ram.Keys
          invariant forall p | p in c.ram :: ram[p] == if p.0 < w then next[p] else c.ram[p]
        {
          forall p | p in c.ram && p.0 == w
            ensures next[p] == if p.1 == x && c.WriteBank(i, w) then c.Written(i, c.ram[p]) else c.ram[p]
          {
            EntryAfter(c, i, p);
          }
          if c.WriteBank(i, w) && (w, x) in ram {
            ram := ram[(w, x) := c.Written(i, ram[(w, x)])];
          }
        }
      }
      forall p | p in c.ram ensures ram[p] == next[p] {
        EntryAfter(c, i, p);
      }
    }

    /** The counters of a buffer. */
    static method Counters(i: Inputs, c: Cache, alloc: bool, b: nat) returns (extCnt: nat, rvdCnt: nat, outCnt: nat)
      requires alloc == c.Alloc(i, b)
      ensures extCnt == ExtCntD(c, i, b) && rvdCnt == RvdCntD(c, i, b) && outCnt == OutCntD(c, i, b)
    {
      var f := c.F(b);
      extCnt, rvdCnt, outCnt := f.extCnt, f.rvdCnt, f.outCnt;
      if alloc {
        extCnt, rvdCnt, outCnt := if c.SpecReq(i) && i.gnt then 1 else 0, 0, c.LookupAddr(i).beat;
      } else {
        if c.ExtArb(i, b) && i.gnt {
          extCnt := extCnt + 1;
        }
        if c.RvdArb(i, b) {
          rvdCnt := rvdCnt + 1;
        }
        if c.OutArb(i, b) && c.OutputReady(i) {
          outCnt := outCnt + 1;
        }
      }
    }

    /** The errors of a buffer, beat by beat. */
    static method Errors(i: Inputs, c: Cache, b: nat) returns (err: seq<bool>)
      ensures err == c.ErrD(i, b)
    {
      var f := c.F(b);
      ghost var all := c.ErrD(i, b);
      err := [];
      for k := 0 to c.cfg.beats
        invariant err == all[..k]
      {
        var e := (c.RvdArb(i, b) && i.rerr && c.RvdOff(b) == k) || (f.busy && k < |f.err| && f.err[k]);
        assert e == all[k];
        err := err + [e];
      }
    }

    /** The data: a whole line on a hit, otherwise the beat that a response is for. */
    static method Data(i: Inputs, c: Cache, hitLine: seq<Word>, b: nat) returns (data: seq<Word>)
      requires hitLine == c.HitData(i)
      ensures data == c.DataD(i, b)
    {
      data := c.F(b).data;
      if c.HitIc1(i, b) {
        data := hitLine;
      } else if c.RvdArb(i, b) && !c.F(b).hit {
        if c.RvdOff(b) < |data| {
          data := data[c.RvdOff(b) := i.rdata];
        }
        DataStored(c, i, b, data);
      }
    }

    /** Flags, counters and errors, which change when a buffer is allocated or busy. */
    static method Tracking(i: Inputs, c: Cache, alloc: bool, b: nat) returns (f: FillBuffer)
      requires alloc == c.Alloc(i, b)
      ensures f == Tracked(c, i, b)
    {
      f := c.F(b);
      if alloc || f.busy {
        var err := Errors(i, c, b);
        var extCnt, rvdCnt, outCnt := Counters(i, c, alloc, b);
        f := FillBuffer(BusyD(c, i, b), c.OlderD(i, b), f.busy && (i.branch || f.stale), CacheD(c, i, b), HitD(c, i, b),
                        extCnt, ExtHoldD(c, i, b), c.ExtDoneD(i, b), rvdCnt, RamDoneD(c, i, b), outCnt, err,
                        f.line, f.beat, f.way, f.data);
      }
    }

    /** All registers of a buffer: the address changes when it is allocated, the way when its lookup is in IC1. */
    static method Buffer(i: Inputs, c: Cache, lookup: bool, hitLine: seq<Word>, b: nat) returns (f: FillBuffer)
      requires lookup == c.LookupReq(i) && hitLine == c.HitData(i)
      ensures f == c.NextBuffer(i, b)
    {
      var alloc := c.AllocSel(b) && lookup;
      f := Tracking(i, c, alloc, b);
      var data := Data(i, c, hitLine, b);
      var line, beat, way := c.F(b).line, c.F(b).beat, c.F(b).way;
      if alloc {
        line, beat := c.LookupAddr(i).line, c.LookupAddr(i).beat;
      }
      if c.lookupValid1 && c.in1 == b {
        way := c.SelWay(i);
      }
      f := f.(line := line, beat := beat, way := way, data := data);
      NextBufferIs(c, i, b, f);
    }

    method UpdateBuffers(i: Inputs, c: Cache, lookup: bool, hitLine: seq<Word>)
      requires fb.Length == cfg.buffers && cfg == c.cfg && fb[..] == c.fb
      requires lookup == c.LookupReq(i) && hitLine == c.HitData(i)
      modifies fb
      ensures fb[..] == c.NextBuffers(i)
    {
      ghost var next := c.NextBuffers(i);
      for b := 0 to fb.Length
        invariant forall a: nat | a < b :: fb[a] == next[a]
      {
        var f := Buffer(i, c, lookup, hitLine, b);
        assert f == next[b];
        fb[b] := f;
      }
    }

    method UpdateOutput(i: Inputs, c: Cache, data: Word, err: bool)
      requires cfg == c.cfg && data == c.OutputData(i) && err == c.OutputErr(i)
      requires outAddr == c.outAddr && skidValid == c.skidValid && skidData == c.skidData && skidErr == c.skidErr
      modifies `outAddr, `skidValid, `skidData, `skidErr
      ensures outAddr == c.OutAddrD(i) && skidValid == c.SkidValidD(i)
      ensures skidData == if c.SkidEn(i) then c.OutputData(i).hi else c.skidData
      ensures skidErr == if c.SkidEn(i) then c.OutputErr(i) else c.skidErr
    {
      var compressed := c.OutputCompressed(i);
      var offered := c.DataValid(i);
      if i.branch {
        skidValid := false;
      } else if skidValid {
        skidValid := !(i.ready && (Cache.Compressed(skidData) || skidErr));
      } else if offered {
        skidValid := if outAddr.hi then !compressed || err else compressed && !err && i.ready;
      }
      if offered && (i.ready || c.SkidReady(i)) {
        skidData, skidErr := data.hi, err;
      }
      if i.branch {
        outAddr := i.addr;
      } else if i.ready && c.Valid(i) {
        outAddr := if compressed && !c.Err(i) then cfg.Plus2(outAddr) else cfg.Plus4(outAddr);
      }
    }

    method UpdateLookup(i: Inputs, c: Cache, lookup: bool)
      requires cfg == c.cfg && invalState == c.invalState && lookup == c.LookupReq(i)
      requires prefetch == c.prefetch && lookupValid1 == c.lookupValid1 && line1 == c.line1 && in1 == c.in1
      requires roundRobin == c.roundRobin && cacheCnt == c.cacheCnt
      modifies `prefetch, `lookupValid1, `line1, `in1, `roundRobin, `cacheCnt
      ensures prefetch == c.PrefetchD(i) && lookupValid1 == c.LookupActual(i) && cacheCnt == c.CacheCntD(i)
      ensures line1 == if c.LookupReq(i) then c.LookupAddr(i).line else c.line1
      ensures in1 == if c.LookupReq(i) then c.AllocIndex(0) else c.in1
      ensures roundRobin == if c.lookupValid1 then c.NextWay() else c.roundRobin
    {
      var addr := if i.branch then i.addr else prefetch;
      if lookupValid1 {
        roundRobin := if roundRobin + 1 >= cfg.ways then 0 else roundRobin + 1;
      }
      if i.branch {
        cacheCnt := 2;
      } else if lookup && cacheCnt != 0 {
        cacheCnt := cacheCnt - 1;
      }
      lookupValid1 := lookup && i.enable && invalState.InvalIdle? && !i.inval;
      if lookup {
        prefetch, line1, in1 := Addr(cfg.NextLine(addr.line), 0, false), addr.line, c.AllocIndex(0);
      } else if i.branch {
        prefetch := i.addr;
      }
    }

    method UpdateCorrection(i: Inputs, c: Cache)
      requires eccWays == c.eccWays && eccIndex == c.eccIndex
      modifies `eccWrite, `eccWays, `eccIndex
      ensures eccWrite == c.EccErr(i)
      ensures eccWays == if c.EccErr(i) then c.EccWaysD(i) else c.eccWays
      ensures eccIndex == if c.EccErr(i) then c.Index(c.line1) else c.eccIndex
    {
      eccWrite := c.EccErr(i);
      if eccWrite {
        eccWays, eccIndex := c.EccWaysD(i), c.Index(c.line1);
      }
    }

    /** The invalidation state machine. */
    method UpdateInvalidation(i: Inputs, c: Cache)
      requires cfg == c.cfg && invalState == c.invalState && invalIndex == c.invalIndex
      modifies `invalState, `invalIndex
      ensures invalState == c.InvalStateD(i) && invalIndex == c.InvalIndexD(i)
    {
      match invalState {
        case OutOfReset => invalState := AwaitScrambleKey;
        case AwaitScrambleKey =>
          if i.keyValid {
            invalState, invalIndex := InvalCache, 0;
          }
        case InvalCache =>
          var last := invalIndex + 1 >= cfg.indices;
          invalIndex := if last then 0 else invalIndex + 1;
          if i.inval {
            invalState := AwaitScrambleKey;
          } else if last {
            invalState := InvalIdle;
          }
        case InvalIdle =>
          if i.inval {
            invalState := AwaitScrambleKey;
          }
      }
    }

    method UpdateRams(i: Inputs, c: Cache)
      requires cfg == c.cfg && ram == c.ram && rd == c.rd && forall p | p in ram :: p.0 < cfg.ways
      modifies `ram, `rd
      ensures ram == c.RamD(i) && rd == c.RdD(i) && forall p | p in ram :: p.0 < cfg.ways
    {
      ReadRams(i, c);
      WriteRams(i, c);
    }

    /** The registers other than the buffers and the RAMs. */
    method UpdateControl(i: Inputs, c: Cache, lookup: bool)
      requires cfg == c.cfg && invalState == c.invalState && invalIndex == c.invalIndex && lookup == c.LookupReq(i)
      requires prefetch == c.prefetch && lookupValid1 == c.lookupValid1 && line1 == c.line1 && in1 == c.in1
      requires roundRobin == c.roundRobin && cacheCnt == c.cacheCnt && eccWays == c.eccWays && eccIndex == c.eccIndex
      modifies `prefetch, `lookupValid1, `line1, `in1, `roundRobin, `cacheCnt
      modifies `eccWrite, `eccWays, `eccIndex, `invalState, `invalIndex
      ensures ControlIs(c, i, Values())
    {
      UpdateLookup(i, c, lookup);
      UpdateCorrection(i, c);
      UpdateInvalidation(i, c);
    }

    method UpdateStorage(i: Inputs, c: Cache, lookup: bool, hitLine: seq<Word>)
      requires Valid() && cfg == c.cfg && fb[..] == c.fb && ram == c.ram && rd == c.rd
      requires lookup == c.LookupReq(i) && hitLine == c.HitData(i)
      modifies fb, `ram, `rd
      ensures StorageIs(c, i, Values()) && Valid()
    {
      UpdateRams(i, c);
      UpdateBuffers(i, c, lookup, hitLine);
    }

    method LookupRequest(i: Inputs) returns (lookup: bool)
      requires Valid()
      ensures lookup == Values().LookupReq(i)
    {
      var c := Values();
      var level := FillLevel();
      lookup := i.req && !c.AllBusy() && (i.branch || !c.Throttled(level)) && !eccWrite;
    }

    method UpdateRegisters(i: Inputs, c: Cache, lookup: bool, data: Word, err: bool)
      requires cfg == c.cfg && invalState == c.invalState && invalIndex == c.invalIndex && lookup == c.LookupReq(i)
      requires prefetch == c.prefetch && lookupValid1 == c.lookupValid1 && line1 == c.line1 && in1 == c.in1
      requires roundRobin == c.roundRobin && cacheCnt == c.cacheCnt && eccWays == c.eccWays && eccIndex == c.eccIndex
      requires outAddr == c.outAddr && skidValid == c.skidValid && skidData == c.skidData && skidErr == c.skidErr
      requires data == c.OutputData(i) && err == c.OutputErr(i)
      modifies `prefetch, `lookupValid1, `line1, `in1, `roundRobin, `cacheCnt, `outAddr, `skidValid, `skidData, `skidErr
      modifies `eccWrite, `eccWays, `eccIndex, `invalState, `invalIndex
      ensures ControlIs(c, i, Values()) && OutputIs(c, i, Values())
    {
      UpdateControl(i, c, lookup);
      UpdateOutput(i, c, data, err);
    }

    method Update(i: Inputs, c: Cache, lookup: bool, hitLine: seq<Word>, data: Word, err: bool)
      requires Valid() && Values() == c && lookup == c.LookupReq(i) && hitLine == c.HitData(i)
      requires data == c.OutputData(i) && err == c.OutputErr(i)
      modifies this, fb
      ensures ControlIs(c, i, Values()) && OutputIs(c, i, Values()) && StorageIs(c, i, Values()) && Valid()
    {
      UpdateStorage(i, c, lookup, hitLine);
      UpdateRegisters(i, c, lookup, data, err);
    }

    /** A rising clock edge. */
    method Clock(i: Inputs)
      requires Valid()
      modifies this, fb
      ensures Values() == old(Values()).Next(i) && Valid()
    {
      var c := Values();
      var lookup := LookupRequest(i);
      var hitLine := HitData(i);
      var data, err := Output(i, hitLine);
      Update(i, c, lookup, hitLine, data, err);
      NextIs(c, i, Values());
    }
  }
}
