/** Whole runs of the instruction cache: from reset, under any grants, responses, hits, stalls,
    branches, invalidations and enable toggles, on an in-order bus and a constant memory. */
module ICacheRun {
  import opened ICacheModel
  import opened ICacheAge
  import opened ICacheBus
  import opened ICacheInval
  import opened ICacheData
  import opened ICacheStream

  /** The cache with its history: allocation order, bus queue, epoch stamps, instructions taken. */
  datatype System = System(c: Cache, g: Age, q: seq<Beat>, t: Stamps, s: Stream)
  {
    function Next(i: Inputs): System {
      System(c.Next(i), NextAge(c, i, g), NextQueue(c, i, q), NextStamps(c, i, t), NextStream(c, i, s))
    }

    ghost predicate Legal(i: Inputs, mem: Memory) {
      InputsOk(c, i, q, mem)
    }

    ghost predicate Ok(mem: Memory) {
      CacheOk(c, g, q, mem) && StreamOk(c, g, s, mem) && FreshOk(c, t)
    }
  }

  function Reset(c: Cache): System {
    System(c, Age([], []), [], Stamps(0, map[], map[], 0, map[]), Stream(false, false, c.outAddr, []))
  }

  function Run(y: System, ins: seq<Inputs>): System {
    if ins == [] then y else Run(y, ins[..|ins| - 1]).Next(ins[|ins| - 1])
  }

  ghost predicate LegalRun(y: System, ins: seq<Inputs>, mem: Memory) {
    ins == [] ||
    (LegalRun(y, ins[..|ins| - 1], mem) && Run(y, ins[..|ins| - 1]).Legal(ins[|ins| - 1], mem))
  }

  /** What core, bus and ECC may choose in a cycle; a response is only given to an outstanding request. */
  datatype Choice = Choice(req: bool, branch: bool, addr: Addr, ready: bool, gnt: bool, respond: bool, busErr: bool,
                           tagErr: bool, dataErr: bool, keyValid: bool, enable: bool, inval: bool)

  function Chosen(y: System, h: Choice, mem: Memory): Inputs {
    var (c, q) := (y.c, y.q);
    Inputs(h.req, h.branch, h.addr, h.ready, h.gnt,
           h.respond && q != [], if q != [] then mem(q[0].line, q[0].beat) else Word(0, 0), h.busErr,
           if |c.rd| == c.cfg.ways then c.rd else seq(c.cfg.ways, _ => RamLine(false, 0, [])),
           h.tagErr, h.dataErr, h.keyValid, h.enable, h.inval)
  }

  function InitialCache(cfg: Config): Cache
    requires cfg.Legal()
  {
    var idle := FillBuffer(false, {}, false, false, false, 0, false, false, 0, false, 0,
                           seq(cfg.beats, _ => false), 0, 0, {}, seq(cfg.beats, _ => Word(0, 0)));
    Cache(cfg, seq(cfg.buffers, _ => idle), Addr(0, 0, false), Addr(0, 0, false), false, 0, false, false, 0, 0, 0,
          false, {}, 0, 0, OutOfReset, 0,
          map w: nat, x: nat | 0 <= w < cfg.ways && 0 <= x < cfg.indices :: (w, x) := RamLine(false, 0, []), [])
  }

  /** The premises of what follows can be met: for every configuration there is an initial cache. */
  lemma InitialExists(cfg: Config)
    requires cfg.Legal()
    ensures InitialCache(cfg).Init()
  {
  }

  lemma ChosenIsLegal(y: System, h: Choice, mem: Memory)
    requires y.Ok(mem) && (h.branch ==> y.c.cfg.InRange(h.addr))
    ensures y.Legal(Chosen(y, h, mem), mem)
  {
  }

  lemma StartOk(c: Cache, mem: Memory)
    requires c.Init()
    ensures Reset(c).Ok(mem)
  {
    forall b | 0 <= b < c.cfg.buffers ensures !c.F(b).busy && Widths(c, b) {
    }
  }

  lemma StepOk(y: System, i: Inputs, mem: Memory)
    requires y.Ok(mem) && y.Legal(i, mem)
    ensures y.Next(i).Ok(mem)
  {
    AgeStep(y.c, i, y.g);
    BusStep(y.c, i, y.g, y.q);
    InvalStep(y.c, i);
    DataStep(y.c, i, y.g, y.q, mem);
    FreshStep(y.c, i, y.t);
    StreamStep(y.c, i, y.g, y.q, y.s, mem);
  }

  lemma {:induction false} RunOk(c: Cache, ins: seq<Inputs>, mem: Memory)
    requires c.Init() && LegalRun(Reset(c), ins, mem)
    ensures Run(Reset(c), ins).Ok(mem)
  {
    if ins == [] {
      StartOk(c, mem);
    } else {
      RunOk(c, ins[..|ins| - 1], mem);
      StepOk(Run(Reset(c), ins[..|ins| - 1]), ins[|ins| - 1], mem);
    }
  }

  lemma {:induction false} RunConfig(c: Cache, ins: seq<Inputs>)
    ensures Run(Reset(c), ins).c.cfg == c.cfg
  {
    if ins != [] {
      RunConfig(c, ins[..|ins| - 1]);
    }
  }

  /** Transparency.  Once a branch has set the address, and until an instruction with an error is
      taken, the instructions taken since the branch are exactly the program in memory from the
      branch target, in order, and any instruction now shown without an error is the next one. */
  lemma Transparent(c: Cache, ins: seq<Inputs>, i: Inputs, mem: Memory)
    requires c.Init() && LegalRun(Reset(c), ins + [i], mem)
    ensures var y := Run(Reset(c), ins);
      y.s.synced && !y.s.bad ==>
        && y.s.log == Program(c.cfg, mem, y.s.target, |y.s.log|)
        && y.c.outAddr == Walk(c.cfg, mem, y.s.target, |y.s.log|)
        && (y.c.Valid(i) && !y.c.Err(i) ==> Presented(y.c, i) == InstrAt(c.cfg, mem, y.c.outAddr))
  {
    assert (ins + [i])[..|ins|] == ins;
    RunOk(c, ins, mem);
    RunConfig(c, ins);
    var y := Run(Reset(c), ins);
    if y.s.synced && !y.s.bad && y.c.Valid(i) && !y.c.Err(i) {
      PresentedIsMemory(y.c, i, y.g, y.q, y.s, mem);
    }
  }

  /** Every legal run can be continued by whatever core, bus and ECC choose. */
  lemma RunsContinue(c: Cache, ins: seq<Inputs>, h: Choice, mem: Memory)
    requires c.Init() && LegalRun(Reset(c), ins, mem) && (h.branch ==> c.cfg.InRange(h.addr))
    ensures LegalRun(Reset(c), ins + [Chosen(Run(Reset(c), ins), h, mem)], mem)
  {
    var i := Chosen(Run(Reset(c), ins), h, mem);
    RunOk(c, ins, mem);
    RunConfig(c, ins);
    ChosenIsLegal(Run(Reset(c), ins), h, mem);
    assert (ins + [i])[..|ins|] == ins;
  }

  /** In-order bus.  A response goes to the buffer that issued the request it answers, and into
      the beat that request asked for. */
  lemma ResponsesInOrder(c: Cache, ins: seq<Inputs>, i: Inputs, b: nat, mem: Memory)
    requires c.Init() && LegalRun(Reset(c), ins + [i], mem) && i.rvalid
    ensures var y := Run(Reset(c), ins);
      && y.q != []
      && (y.c.RvdArb(i, b) <==> b == y.q[0].fb)
      && (b == y.q[0].fb ==> y.q[0] == Beat(b, y.c.F(b).line, y.c.RvdOff(b)))
  {
    assert (ins + [i])[..|ins|] == ins;
    RunOk(c, ins, mem);
    var y := Run(Reset(c), ins);
    ResponseToIssuer(y.c, i, y.g, y.q, b);
  }

  /** Entries of the queue belong to buffers that wait for them. */
  lemma {:induction false} FlatIssuers(f: nat -> seq<Beat>, s: seq<nat>)
    requires forall b | b in s :: forall k | 0 <= k < |f(b)| :: f(b)[k].fb == b
    ensures forall k | 0 <= k < |Flat(f, s)| :: f(Flat(f, s)[k].fb) != []
  {
    if s != [] {
      FlatIssuers(f, s[1..]);
      var front, back := f(s[0]), Flat(f, s[1..]);
      forall k | 0 <= k < |Flat(f, s)| ensures f(Flat(f, s)[k].fb) != [] {
        if k < |front| {
          assert Flat(f, s)[k] == front[k];
        } else {
          assert Flat(f, s)[k] == back[k - |front|];
        }
      }
    }
  }

  lemma ReleasedIdle(y: System, i: Inputs, b: nat, mem: Memory)
    requires y.Ok(mem) && b in Released(y.c, i)
    ensures forall k | 0 <= k < |y.q| :: y.q[k].fb != b
  {
    ReleasedQuiet(y.c, i, y.g, y.q, b);
    FlatIssuers((x: nat) => Waiting(y.c, x), y.g.Order());
  }

  /** No buffer is released with a response outstanding. */
  lemma ReleasedWithNothingOutstanding(c: Cache, ins: seq<Inputs>, i: Inputs, b: nat, mem: Memory)
    requires c.Init() && LegalRun(Reset(c), ins, mem)
    requires b in Released(Run(Reset(c), ins).c, i)
    ensures var y := Run(Reset(c), ins); forall k | 0 <= k < |y.q| :: y.q[k].fb != b
  {
    RunOk(c, ins, mem);
    ReleasedIdle(Run(Reset(c), ins), i, b, mem);
  }

  /** A request that is not granted is repeated, for the same word, in the next cycle. */
  lemma RequestsHeldUntilGranted(c: Cache, ins: seq<Inputs>, i: Inputs, i': Inputs, mem: Memory)
    requires c.Init() && LegalRun(Reset(c), ins + [i], mem)
    requires Run(Reset(c), ins).c.InstrReq(i) && !i.gnt
    ensures var d := Run(Reset(c), ins).c;
      d.Next(i).InstrReq(i') && d.Next(i).InstrAddr(i') == d.InstrAddr(i)
  {
    assert (ins + [i])[..|ins|] == ins;
    RunOk(c, ins, mem);
    var y := Run(Reset(c), ins);
    RequestHeld(y.c, i, i', y.g, y.q);
  }

  lemma BeforeTransitive(o: seq<nat>, x: nat, y: nat, z: nat)
    requires Distinct(o) && x in o && y in o && z in o
    ensures x !in Before(o, x)
    ensures x in Before(o, y) && y in Before(o, z) ==> x in Before(o, z)
  {
    var kx :| 0 <= kx < |o| && o[kx] == x;
    var ky :| 0 <= ky < |o| && o[ky] == y;
    var kz :| 0 <= kz < |o| && o[kz] == z;
    BeforeByPosition(o, kx);
    BeforeByPosition(o, ky);
    BeforeByPosition(o, kz);
  }

  /** Age.  Restricted to busy buffers, `older` is a strict total order: the allocation order. */
  lemma AgeIsTotalOrder(c: Cache, ins: seq<Inputs>, mem: Memory, x: nat, y: nat, z: nat)
    requires c.Init() && LegalRun(Reset(c), ins, mem)
    requires var d := Run(Reset(c), ins).c; d.F(x).busy && d.F(y).busy && d.F(z).busy
    ensures var d, g := Run(Reset(c), ins).c, Run(Reset(c), ins).g;
      && x !in d.F(x).older
      && (x != y ==> (x in d.F(y).older) != (y in d.F(x).older))
      && (x in d.F(y).older && y in d.F(z).older ==> x in d.F(z).older)
      && d.F(x).older == Before(g.Order(), x)
  {
    RunOk(c, ins, mem);
    var d, g := Run(Reset(c), ins).c, Run(Reset(c), ins).g;
    BeforeTransitive(g.Order(), x, y, z);
    if x != y {
      Total(d, g, x, y);
    }
  }

  /** When the sweep ends and the cache returns to idle, no entry of any way is valid. */
  lemma IdleAfterFullSweep(c: Cache, ins: seq<Inputs>, i: Inputs, mem: Memory)
    requires c.Init() && LegalRun(Reset(c), ins, mem)
    requires var d := Run(Reset(c), ins).c;
      d.invalState != InvalIdle && d.Next(i).invalState == InvalIdle
    ensures var d := Run(Reset(c), ins).c; forall p | p in d.Next(i).ram :: !d.Next(i).ram[p].valid
  {
    RunOk(c, ins, mem);
    SweepDone(Run(Reset(c), ins).c, i);
  }

  /** Every hit reads an entry whose fill was allocated in the epoch of the lookup, that is,
      after every invalidation request accepted before the lookup. */
  lemma HitsAreFresh(c: Cache, ins: seq<Inputs>, i: Inputs, b: nat, w: nat, mem: Memory)
    requires c.Init() && LegalRun(Reset(c), ins + [i], mem)
    requires var d := Run(Reset(c), ins).c; d.HitIc1(i, b) && w < d.cfg.ways && d.TagMatch(i, w)
    ensures var y := Run(Reset(c), ins); w in y.t.read && y.t.read[w] == y.t.lookup
  {
    assert (ins + [i])[..|ins|] == ins;
    RunOk(c, ins, mem);
    var y := Run(Reset(c), ins);
    HitIsFresh(y.c, i, y.t, b, w);
  }
}
