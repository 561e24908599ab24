/** The instruction cache of rtl/ibex_icache.sv as a clocked machine: every register of the
    module is a field, every combinational signal is a function of the registers and of the
    inputs of the cycle, and `Next` is the register update at the clock edge.

    The number of fill buffers, the beats of a line, the lines of the address space, the RAM
    indices and the ways are parameters.  An address is kept split into the line it lies in, the
    bus word (beat) of that line and the halfword of that word. */
module ICacheModel {

  /** A 32-bit bus word as its two halfwords. */
  datatype Word = Word(lo: bv16, hi: bv16)

  datatype Addr = Addr(line: nat, beat: nat, hi: bool)

  datatype Config = Config(buffers: nat, beats: nat, lines: nat, indices: nat, ways: nat,
                           branchCache: bool)
  {
    predicate Legal() {
      2 <= buffers && 2 <= beats && 1 <= lines && 1 <= indices && 1 <= ways
    }

    predicate InRange(a: Addr) {
      a.line < lines && a.beat < beats
    }

    /** The line after `l`; the address counter wraps. */
    function NextLine(l: nat): (r: nat)
      ensures l < lines ==> r < lines
    {
      if l + 1 >= lines then 0 else l + 1
    }

    /** The bus word after the one holding `a`, as the address of its lower halfword. */
    function NextWord(a: Addr): Addr {
      if a.beat + 1 >= beats then Addr(NextLine(a.line), 0, false) else Addr(a.line, a.beat + 1, false)
    }

    function Plus2(a: Addr): Addr {
      if a.hi then NextWord(a) else a.(hi := true)
    }

    function Plus4(a: Addr): Addr {
      NextWord(a).(hi := a.hi)
    }
  }

  /** `p` doubled until it is at least `n`. */
  function Doubled(p: nat, n: nat): (r: nat)
    requires p > 0
    ensures r > 0
    decreases n - p
  {
    if p >= n then p else Doubled(2 * p, n)
  }

  datatype FillBuffer = FillBuffer(
    busy: bool,        // fill_busy_q
    older: set<nat>,   // fill_older_q
    stale: bool,       // fill_stale_q
    cache: bool,       // fill_cache_q
    hit: bool,         // fill_hit_q
    extCnt: nat,       // fill_ext_cnt_q
    extHold: bool,     // fill_ext_hold_q
    extDone: bool,     // fill_ext_done_q
    rvdCnt: nat,       // fill_rvd_cnt_q
    ramDone: bool,     // fill_ram_done_q
    outCnt: nat,       // fill_out_cnt_q
    err: seq<bool>,    // fill_err_q
    line: nat,         // fill_addr_q, line
    beat: nat,         // fill_addr_q, beat of the line
    way: set<nat>,     // fill_way_q
    data: seq<Word>)   // fill_data_q
  {
    predicate AnyErr() {
      true in err
    }
  }

  /** A RAM entry of one way: tag RAM and data RAM side by side. */
  datatype RamLine = RamLine(valid: bool, tag: nat, data: seq<Word>)

  datatype InvalState = OutOfReset | AwaitScrambleKey | InvalCache | InvalIdle

  datatype Inputs = Inputs(
    req: bool, branch: bool, addr: Addr, ready: bool,
    gnt: bool, rvalid: bool, rdata: Word, rerr: bool,
    tagRdata: seq<RamLine>,  // what the RAMs deliver for the lookup of the cycle before, per way
    tagErr: bool,            // the ECC check of some way's tag fails
    dataErr: bool,           // the ECC check of the selected data fails
    keyValid: bool, enable: bool, inval: bool)

  datatype Cache = Cache(
    cfg: Config,
    fb: seq<FillBuffer>,
    prefetch: Addr,            // prefetch_addr_q
    outAddr: Addr,             // output_addr_q
    skidValid: bool, skidData: bv16, skidErr: bool,
    lookupValid1: bool,        // lookup_valid_ic1
    line1: nat,                // lookup_addr_ic1 and lookup_index_ic1
    in1: nat,                  // fill_in_ic1, as the number of the selected buffer
    roundRobin: nat,           // round_robin_way_q
    eccWrite: bool, eccWays: set<nat>, eccIndex: nat,  // ecc_correction_*_q
    cacheCnt: nat,             // cache_cnt_q
    invalState: InvalState, invalIndex: nat,
    ram: map<(nat, nat), RamLine>,  // (way, index) to entry
    rd: seq<RamLine>)          // read port of the RAMs, per way
  {
    // ---------------------------------------------------------------- lookup request (IC0)

    function F(b: nat): FillBuffer {
      if b < |fb| then fb[b] else IdleBuffer()
    }

    static function IdleBuffer(): FillBuffer {
      FillBuffer(false, {}, false, false, false, 0, false, false, 0, false, 0, [], 0, 0, {}, [])
    }

    predicate AllBusy() {
      forall b | 0 <= b < cfg.buffers :: F(b).busy
    }

    function FillLevelUpTo(n: nat): nat {
      if n == 0 then 0
      else FillLevelUpTo(n - 1) + if F(n - 1).busy && !F(n - 1).stale then 1 else 0
    }

    /** fb_fill_level has just enough bits for `buffers - 1`, and wraps. */
    predicate Throttled(level: nat) {
      level % Doubled(1, cfg.buffers) > cfg.buffers - 2
    }

    predicate LookupThrottle() {
      Throttled(FillLevelUpTo(cfg.buffers))
    }

    predicate LookupReq(i: Inputs) {
      i.req && !AllBusy() && (i.branch || !LookupThrottle()) && !eccWrite
    }

    function LookupAddr(i: Inputs): Addr {
      if i.branch then i.addr else prefetch
    }

    predicate InvalBlock(i: Inputs) {
      !(invalState.InvalIdle? && !i.inval)
    }

    predicate InvalWrite() {
      invalState.InvalCache?
    }

    predicate LookupActual(i: Inputs) {
      LookupReq(i) && i.enable && !InvalBlock(i)
    }

    // ---------------------------------------------------------------- tag match (IC1)

    function Tag(line: nat): nat {
      if cfg.indices == 0 then 0 else line / cfg.indices
    }

    function Index(line: nat): nat {
      if cfg.indices == 0 then 0 else line % cfg.indices
    }

    predicate TagMatch(i: Inputs, w: nat) {
      w < |i.tagRdata| && i.tagRdata[w].valid && i.tagRdata[w].tag == Tag(line1)
    }

    predicate TagHit(i: Inputs) {
      exists w :: 0 <= w < cfg.ways && TagMatch(i, w)
    }

    predicate EccErr(i: Inputs) {
      lookupValid1 && ((i.dataErr && TagHit(i)) || i.tagErr)
    }

    static function OrWords(a: seq<Word>, b: seq<Word>): seq<Word> {
      seq(|a|, k requires 0 <= k < |a| =>
        if k < |b| then Word(a[k].lo | b[k].lo, a[k].hi | b[k].hi) else a[k])
    }

    /** The RAMs and their ECC: without a tag error the tags are those that were read, and without
        a data error so is the data of a matching way. */
    ghost predicate RamLegal(i: Inputs) {
      && |i.tagRdata| == cfg.ways
      && (lookupValid1 && !i.tagErr ==>
            |rd| == cfg.ways &&
            forall w | 0 <= w < cfg.ways ::
              i.tagRdata[w].valid == rd[w].valid && i.tagRdata[w].tag == rd[w].tag &&
              (TagMatch(i, w) && !i.dataErr ==> i.tagRdata[w].data == rd[w].data))
    }

    function Zeros(): seq<Word> {
      seq(cfg.beats, _ => Word(0, 0))
    }

    /** hit_data_ic1: the OR of the data of every matching way below `n`. */
    function HitDataUpTo(i: Inputs, n: nat): seq<Word> {
      if n == 0 then Zeros()
      else if TagMatch(i, n - 1) then OrWords(HitDataUpTo(i, n - 1), i.tagRdata[n - 1].data)
      else HitDataUpTo(i, n - 1)
    }

    function HitData(i: Inputs): seq<Word> {
      HitDataUpTo(i, cfg.ways)
    }

    predicate WayInvalid(i: Inputs, w: nat) {
      w < |i.tagRdata| && !i.tagRdata[w].valid
    }

    function SelWay(i: Inputs): set<nat> {
      if exists w :: 0 <= w < cfg.ways && WayInvalid(i, w) then
        set w | 0 <= w < cfg.ways && WayInvalid(i, w) && forall v | 0 <= v < w :: !WayInvalid(i, v)
      else {roundRobin}
    }

    // ---------------------------------------------------------------- fill buffer signals

    predicate AllocSel(b: nat) {
      b < cfg.buffers && !F(b).busy && forall a | 0 <= a < b :: F(a).busy
    }

    predicate Alloc(i: Inputs, b: nat) {
      AllocSel(b) && LookupReq(i)
    }

    predicate CacheNew(i: Inputs) {
      (!cfg.branchCache || i.branch || cacheCnt != 0) && i.enable && !InvalBlock(i)
    }

    predicate HitIc1(i: Inputs, b: nat) {
      lookupValid1 && in1 == b && TagHit(i) && !EccErr(i)
    }

    predicate ExtDoneD(i: Inputs, b: nat) {
      && (|| F(b).extCnt >= cfg.beats
          || HitIc1(i, b) || F(b).hit
          || (!F(b).cache && (i.branch || F(b).stale || F(b).beat + F(b).extCnt >= cfg.beats)))
      && !F(b).extHold && F(b).busy
    }

    predicate ExtReq(i: Inputs, b: nat) {
      F(b).busy && !ExtDoneD(i, b)
    }

    predicate AnyExtReq(i: Inputs) {
      exists b :: 0 <= b < cfg.buffers && ExtReq(i, b)
    }

    predicate ExtArb(i: Inputs, b: nat) {
      ExtReq(i, b) && forall a | a in F(b).older :: !ExtReq(i, a)
    }

    predicate SpecReq(i: Inputs) {
      (!i.enable || i.branch) && !AnyExtReq(i)
    }

    predicate RvdDone(b: nat) {
      F(b).extDone && !F(b).extHold && F(b).rvdCnt == F(b).extCnt
    }

    predicate RvdExp(b: nat) {
      F(b).busy && !RvdDone(b)
    }

    predicate RvdArb(i: Inputs, b: nat) {
      i.rvalid && RvdExp(b) && forall a | a in F(b).older :: !RvdExp(a)
    }

    function RvdOff(b: nat): nat {
      if cfg.beats == 0 then 0 else (F(b).beat + F(b).rvdCnt) % cfg.beats
    }

    function ExtOff(b: nat): nat {
      if cfg.beats == 0 then 0 else (F(b).beat + F(b).extCnt) % cfg.beats
    }

    predicate OutDone(b: nat) {
      F(b).outCnt >= cfg.beats
    }

    /** This buffer still has to deliver data. */
    predicate Pending(b: nat) {
      F(b).busy && !F(b).stale && !OutDone(b)
    }

    predicate DataSel(b: nat) {
      forall a | a in F(b).older :: !Pending(a)
    }

    predicate OutReq(i: Inputs, b: nat) {
      Pending(b) &&
      (HitIc1(i, b) || F(b).hit || F(b).beat + F(b).rvdCnt > F(b).outCnt || RvdArb(i, b))
    }

    predicate OutArb(i: Inputs, b: nat) {
      OutReq(i, b) && DataSel(b)
    }

    predicate RamReq(b: nat) {
      F(b).busy && F(b).rvdCnt >= cfg.beats && !F(b).hit && F(b).cache && !F(b).AnyErr() &&
      !F(b).ramDone
    }

    predicate FillReq() {
      exists b :: 0 <= b < cfg.buffers && RamReq(b)
    }

    predicate FillGrant(i: Inputs) {
      FillReq() && !LookupReq(i) && !InvalWrite() && !eccWrite
    }

    predicate RamArb(i: Inputs, b: nat) {
      RamReq(b) && FillGrant(i) && forall a | a in F(b).older :: !RamReq(a)
    }

    /** The buffer releases at the end of the cycle. */
    predicate Done(i: Inputs, b: nat) {
      && (F(b).ramDone || F(b).hit || !F(b).cache || F(b).AnyErr())
      && (OutDone(b) || F(b).stale || i.branch)
      && RvdDone(b)
    }

    // ---------------------------------------------------------------- data muxing

    predicate DataReg(i: Inputs, b: nat) {
      Pending(b) && DataSel(b) &&
      (F(b).beat + F(b).rvdCnt > F(b).outCnt || F(b).hit || F(b).AnyErr())
    }

    predicate DataHit(i: Inputs, b: nat) {
      F(b).busy && HitIc1(i, b) && DataSel(b)
    }

    predicate DataRvd(i: Inputs, b: nat) {
      F(b).busy && RvdArb(i, b) && !F(b).hit && !HitIc1(i, b) && !F(b).stale && !OutDone(b) &&
      F(b).beat + F(b).rvdCnt == F(b).outCnt && DataSel(b)
    }

    predicate AnyDataHit(i: Inputs) {
      exists b :: 0 <= b < cfg.buffers && DataHit(i, b)
    }

    predicate AnyDataRvd(i: Inputs) {
      exists b :: 0 <= b < cfg.buffers && DataRvd(i, b)
    }

    predicate DataValid(i: Inputs) {
      exists b :: 0 <= b < cfg.buffers && OutArb(i, b)
    }

    /** The first buffer at or after `b` selected by fill_data_reg; the vector is one-hot. */
    function RegSel(i: Inputs, b: nat): (r: nat)
      ensures b <= r
      ensures r < cfg.buffers ==> DataReg(i, r)
      ensures forall a | b <= a < cfg.buffers && a < r :: !DataReg(i, a)
      decreases cfg.buffers - b
    {
      if b >= cfg.buffers || DataReg(i, b) then b else RegSel(i, b + 1)
    }

    function FillOutData(i: Inputs): seq<Word> {
      var r := RegSel(i, 0);
      if r < cfg.buffers then F(r).data else Zeros()
    }

    predicate FillOutErr(i: Inputs, k: nat) {
      var r := RegSel(i, 0);
      r < cfg.buffers && k < |F(r).err| && F(r).err[k] && !F(r).hit
    }

    /** The beat of the line data that the output address selects. */
    function OutBeat(): nat {
      if cfg.beats == 0 then 0 else (outAddr.beat + if skidValid then 1 else 0) % cfg.beats
    }

    function OutputData(i: Inputs): Word {
      var line := if AnyDataHit(i) then HitData(i) else FillOutData(i);
      if AnyDataRvd(i) then i.rdata
      else if OutBeat() < |line| then line[OutBeat()] else Word(0, 0)
    }

    predicate OutputErr(i: Inputs) {
      if AnyDataRvd(i) then i.rerr
      else if AnyDataHit(i) then false
      else FillOutErr(i, OutBeat())
    }

    // ---------------------------------------------------------------- output port and skid

    static predicate Compressed(h: bv16) {
      h & 3 != 3
    }

    function RdataLo(i: Inputs): bv16 {
      if skidValid then skidData
      else if outAddr.hi then OutputData(i).hi else OutputData(i).lo
    }

    function RdataHi(i: Inputs): bv16 {
      if outAddr.hi then OutputData(i).lo else OutputData(i).hi
    }

    predicate SkidComplete() {
      skidValid && (Compressed(skidData) || skidErr)
    }

    predicate OutputCompressed(i: Inputs) {
      Compressed(RdataLo(i))
    }

    predicate SkidReady(i: Inputs) {
      outAddr.hi && !skidValid && (!OutputCompressed(i) || OutputErr(i))
    }

    predicate OutputReady(i: Inputs) {
      (i.ready || SkidReady(i)) && !SkidComplete()
    }

    predicate Valid(i: Inputs) {
      SkidComplete() ||
      (DataValid(i) && (!outAddr.hi || skidValid || OutputErr(i) || Compressed(OutputData(i).hi)))
    }

    predicate Err(i: Inputs) {
      (skidValid && skidErr) || (!SkidComplete() && OutputErr(i))
    }

    /** An error shown is that of the second bus word of the instruction. */
    predicate ErrPlus2() {
      skidValid && !skidErr
    }

    /** The core takes an instruction at the end of the cycle. */
    predicate Accepted(i: Inputs) {
      i.ready && Valid(i)
    }

    predicate IncrTwo(i: Inputs) {
      OutputCompressed(i) && !Err(i)
    }

    // ---------------------------------------------------------------- bus request port

    function ExtSel(i: Inputs, b: nat): (r: nat)
      ensures b <= r
      ensures r < cfg.buffers ==> ExtArb(i, r)
      ensures forall a | b <= a < cfg.buffers && a < r :: !ExtArb(i, a)
      decreases cfg.buffers - b
    {
      if b >= cfg.buffers || ExtArb(i, b) then b else ExtSel(i, b + 1)
    }

    predicate InstrReq(i: Inputs) {
      ((!i.enable || i.branch) && LookupReq(i)) || AnyExtReq(i)
    }

    /** Line and beat of the requested bus word. */
    function InstrAddr(i: Inputs): (nat, nat) {
      if AnyExtReq(i) then (var r := ExtSel(i, 0); (F(r).line, ExtOff(r)))
      else (LookupAddr(i).line, LookupAddr(i).beat)
    }

    // ---------------------------------------------------------------- RAM write port

    function RamSel(i: Inputs, b: nat): (r: nat)
      ensures b <= r
      ensures r < cfg.buffers ==> RamArb(i, r)
      ensures forall a | b <= a < cfg.buffers && a < r :: !RamArb(i, a)
      decreases cfg.buffers - b
    {
      if b >= cfg.buffers || RamArb(i, b) then b else RamSel(i, b + 1)
    }

    predicate RamWrite(i: Inputs) {
      FillGrant(i) || InvalWrite() || eccWrite
    }

    function WriteIndex(i: Inputs): nat {
      if InvalWrite() then invalIndex
      else if eccWrite then eccIndex
      else Index(F(RamSel(i, 0)).line)
    }

    predicate WriteBank(i: Inputs, w: nat) {
      if eccWrite then w in eccWays
      else if FillGrant(i) then w in F(RamSel(i, 0)).way
      else true
    }

    /** The entry written: valid only when a fill buffer writes, and the data RAM is written only
        when it is requested. */
    function Written(i: Inputs, l: RamLine): RamLine {
      var f := F(RamSel(i, 0));
      RamLine(!InvalWrite() && !eccWrite, Tag(f.line),
              if LookupReq(i) || FillReq() then f.data else l.data)
    }

    function RamD(i: Inputs): map<(nat, nat), RamLine> {
      map p | p in ram ::
        if RamWrite(i) && p.1 == WriteIndex(i) && WriteBank(i, p.0) then Written(i, ram[p]) else ram[p]
    }

    function RdD(i: Inputs): seq<RamLine> {
      if LookupReq(i) && !RamWrite(i) then
        seq(cfg.ways, w requires 0 <= w < cfg.ways =>
          var p := (w, Index(LookupAddr(i).line));
          if p in ram then ram[p] else RamLine(false, 0, []))
      else rd
    }

    // ---------------------------------------------------------------- register updates

    function OlderD(i: Inputs, b: nat): set<nat> {
      if Alloc(i, b) then set a | 0 <= a < cfg.buffers && F(a).busy && !Done(i, a)
      else set a | a in F(b).older && !Done(i, a)
    }

    function ErrD(i: Inputs, b: nat): seq<bool> {
      seq(cfg.beats, k requires 0 <= k < cfg.beats =>
        (RvdArb(i, b) && i.rerr && RvdOff(b) == k) ||
        (F(b).busy && k < |F(b).err| && F(b).err[k]))
    }

    function DataD(i: Inputs, b: nat): seq<Word> {
      if HitIc1(i, b) then HitData(i)
      else if RvdArb(i, b) && !F(b).hit then
        seq(|F(b).data|, k requires 0 <= k < |F(b).data| =>
          if k == RvdOff(b) then i.rdata else F(b).data[k])
      else F(b).data
    }

    function Count(b: bool): nat {
      if b then 1 else 0
    }

    function NextBuffer(i: Inputs, b: nat): FillBuffer {
      var f := F(b);
      var al := Alloc(i, b);
      var way := if lookupValid1 && in1 == b then SelWay(i) else f.way;
      if al || f.busy then
        FillBuffer(
          al || (f.busy && !Done(i, b)),
          OlderD(i, b),
          f.busy && (i.branch || f.stale),
          (al && CacheNew(i)) || (f.cache && f.busy && i.enable && !i.inval),
          HitIc1(i, b) || (f.hit && f.busy),
          if al then Count(SpecReq(i) && i.gnt) else f.extCnt + Count(ExtArb(i, b) && i.gnt),
          (al && SpecReq(i) && !i.gnt) || (ExtArb(i, b) && !i.gnt),
          ExtDoneD(i, b),
          if al then 0 else f.rvdCnt + Count(RvdArb(i, b)),
          RamArb(i, b) || (f.ramDone && f.busy),
          if al then LookupAddr(i).beat else f.outCnt + Count(OutArb(i, b) && OutputReady(i)),
          ErrD(i, b),
          if al then LookupAddr(i).line else f.line,
          if al then LookupAddr(i).beat else f.beat,
          way,
          DataD(i, b))
      else
        f.(way := way, data := DataD(i, b))
    }

    function NextBuffers(i: Inputs): seq<FillBuffer> {
      seq(cfg.buffers, b requires 0 <= b < cfg.buffers => NextBuffer(i, b))
    }

    function PrefetchD(i: Inputs): Addr {
      if LookupReq(i) then Addr(cfg.NextLine(LookupAddr(i).line), 0, false)
      else if i.branch then i.addr
      else prefetch
    }

    function OutAddrD(i: Inputs): Addr {
      if i.branch then i.addr
      else if !Accepted(i) then outAddr
      else if IncrTwo(i) then cfg.Plus2(outAddr)
      else cfg.Plus4(outAddr)
    }

    predicate SkidValidD(i: Inputs) {
      if i.branch then false
      else if skidValid then !(i.ready && (Compressed(skidData) || skidErr))
      else
        DataValid(i) &&
        ((outAddr.hi && (!OutputCompressed(i) || OutputErr(i))) ||
         (!outAddr.hi && OutputCompressed(i) && !OutputErr(i) && i.ready))
    }

    predicate SkidEn(i: Inputs) {
      DataValid(i) && (i.ready || SkidReady(i))
    }

    function InvalStateD(i: Inputs): InvalState {
      match invalState
      case OutOfReset => AwaitScrambleKey
      case AwaitScrambleKey => if i.keyValid then InvalCache else AwaitScrambleKey
      case InvalCache =>
        if i.inval then AwaitScrambleKey
        else if invalIndex + 1 >= cfg.indices then InvalIdle
        else InvalCache
      case InvalIdle => if i.inval then AwaitScrambleKey else InvalIdle
    }

    function InvalIndexD(i: Inputs): nat {
      match invalState
      case AwaitScrambleKey => if i.keyValid then 0 else invalIndex
      case InvalCache => if invalIndex + 1 >= cfg.indices then 0 else invalIndex + 1
      case _ => invalIndex
    }

    function NextWay(): nat {
      if roundRobin + 1 >= cfg.ways then 0 else roundRobin + 1
    }

    function CacheCntD(i: Inputs): nat {
      if i.branch then 2 else if LookupReq(i) && cacheCnt != 0 then cacheCnt - 1 else cacheCnt
    }

    function EccWaysD(i: Inputs): set<nat> {
      set w | 0 <= w < cfg.ways && (i.tagErr || (TagMatch(i, w) && i.dataErr))
    }

    function AllocIndex(b: nat): nat
      decreases cfg.buffers - b
    {
      if b >= cfg.buffers || AllocSel(b) then b else AllocIndex(b + 1)
    }

    function Next(i: Inputs): Cache {
      Cache(
        cfg,
        NextBuffers(i),
        PrefetchD(i),
        OutAddrD(i),
        SkidValidD(i),
        if SkidEn(i) then OutputData(i).hi else skidData,
        if SkidEn(i) then OutputErr(i) else skidErr,
        LookupActual(i),
        if LookupReq(i) then LookupAddr(i).line else line1,
        if LookupReq(i) then AllocIndex(0) else in1,
        if lookupValid1 then NextWay() else roundRobin,
        EccErr(i),
        if EccErr(i) then EccWaysD(i) else eccWays,
        if EccErr(i) then Index(line1) else eccIndex,
        CacheCntD(i),
        InvalStateD(i),
        InvalIndexD(i),
        RamD(i),
        RdD(i))
    }

    /** Out of reset: registers without a reset value, and the RAMs, hold anything of their width. */
    ghost predicate Init() {
      && cfg.Legal()
      && |fb| == cfg.buffers
      && (forall b | 0 <= b < cfg.buffers ::
            && !F(b).busy && F(b).older == {} && !F(b).hit && !F(b).extHold && !F(b).extDone
            && F(b).extCnt == 0 && F(b).rvdCnt == 0 && F(b).outCnt == 0
            && |F(b).data| == cfg.beats && |F(b).err| == cfg.beats)
      && cfg.InRange(prefetch) && cfg.InRange(outAddr)
      && !skidValid && !lookupValid1 && !eccWrite && roundRobin == 0 && cacheCnt == 0
      && invalState == OutOfReset
      && (forall w, x :: (w, x) in ram <==> 0 <= w < cfg.ways && 0 <= x < cfg.indices)
    }
  }
}
