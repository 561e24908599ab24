/** That the instruction cache caches: lines filled are written to the RAMs, lines in the RAMs are served from there,
    and what is found corrupt is thrown out. */
module ICacheCaching {
  import opened ICacheModel
  import opened ICacheAge
  import opened ICacheBus
  import opened ICacheInval
  import opened ICacheData
  import opened ICacheRun

  // ------------------------------------------------------------------ lines in the RAMs

  /** The way holds the line. */
  predicate Present(c: Cache, w: nat, line: nat)
    requires c.cfg.indices > 0
  {
    (w, line % c.cfg.indices) in c.ram &&
    c.ram[(w, line % c.cfg.indices)].valid && c.ram[(w, line % c.cfg.indices)].tag == line / c.cfg.indices
  }

  ghost predicate Cached(c: Cache, line: nat)
    requires c.cfg.indices > 0
  {
    exists w :: 0 <= w < c.cfg.ways && Present(c, w, line)
  }

  /** A lookup that the cache is to answer: it is enabled, idle, and not asked to invalidate. */
  predicate Consults(c: Cache, i: Inputs) {
    c.LookupReq(i) && i.enable && c.invalState == InvalIdle && !i.inval
  }

  /** Lookups read the RAMs; nothing else may be using them. */
  lemma LookupReads(c: Cache, i: Inputs)
    requires InvalOk(c) && Consults(c, i)
    ensures var n, line := c.Next(i), c.LookupAddr(i).line;
      && n.lookupValid1 && n.line1 == line && n.in1 == c.AllocIndex(0) && n.ram == c.ram
      && |n.rd| == c.cfg.ways
      && forall w | 0 <= w < c.cfg.ways :: n.rd[w] == c.ram[(w, line % c.cfg.indices)]
  {
    assert !c.RamWrite(i);
    assert c.RamD(i) == c.ram;
  }

  lemma MatchIs(c: Cache, i: Inputs, line: nat, w: nat)
    requires c.cfg.indices > 0 && c.lookupValid1 && c.RamLegal(i) && !i.tagErr && w < c.cfg.ways && c.line1 == line
    ensures c.TagMatch(i, w) <==> c.rd[w].valid && c.rd[w].tag == line / c.cfg.indices
  {
  }

  /** A line looked up hits in the next cycle exactly if it is in the RAMs, unless they report an error; the buffer
      allocated for it gets the hit. */
  lemma HitsIfCached(c: Cache, i: Inputs, i': Inputs)
    requires InvalOk(c) && Consults(c, i) && c.Next(i).RamLegal(i') && !i'.tagErr && !i'.dataErr
    ensures c.Next(i).HitIc1(i', c.AllocIndex(0)) <==> Cached(c, c.LookupAddr(i).line)
  {
    var n, line := c.Next(i), c.LookupAddr(i).line;
    LookupReads(c, i);
    forall w | 0 <= w < c.cfg.ways ensures n.TagMatch(i', w) <==> Present(c, w, line) {
      MatchIs(n, i', line, w);
    }
  }

  /** Without such a lookup nothing hits: a cache that is disabled or invalidating is bypassed. */
  lemma BypassedNeverHits(c: Cache, i: Inputs, i': Inputs, b: nat)
    requires !Consults(c, i)
    ensures !c.Next(i).HitIc1(i', b)
  {
  }

  /** Any error of the tags, or of the data of a matching way, is no hit. */
  lemma NoHitOnError(c: Cache, i: Inputs, b: nat)
    requires c.lookupValid1 && (i.tagErr || i.dataErr)
    ensures !c.HitIc1(i, b)
  {
  }

  /** A buffer whose line hits holds it and asks the bus for nothing more, except for a request not yet granted. */
  lemma HitEndsRequests(c: Cache, i: Inputs, i': Inputs, b: nat, mem: Memory)
    requires InvalOk(c) && c.RamLegal(i) && ReadOk(c, mem) && Ic1Ok(c) && c.HitIc1(i, b)
    requires !c.F(b).hit && !c.F(b).extDone
    ensures var n := c.Next(i);
      && n.F(b).busy && n.F(b).hit && LineIs(c.cfg, n.F(b).data, c.F(b).line, mem)
      && (!c.F(b).extHold ==> !c.ExtReq(i, b))
      && (!n.F(b).extHold ==> !n.ExtReq(i', b))
  {
    HitIsLine(c, i, b, mem);
    NextF(c, i, b);
  }

  // ------------------------------------------------------------------ fills

  /** A buffer with its whole line, received without errors from the bus, that is to be cached and has not been. */
  predicate Complete(c: Cache, b: nat) {
    var f := c.F(b);
    f.busy && f.cache && !f.hit && !f.ramDone && f.rvdCnt >= c.cfg.beats && forall k | 0 <= k < |f.err| :: !f.err[k]
  }

  /** Nothing else uses the RAMs. */
  predicate RamsFree(c: Cache, i: Inputs) {
    !c.LookupReq(i) && c.invalState != InvalCache && !c.eccWrite
  }

  lemma OldestComplete(c: Cache, i: Inputs, b: nat)
    requires Complete(c, b) && RamsFree(c, i) && b < c.cfg.buffers && forall a | a in c.F(b).older :: !Complete(c, a)
    ensures c.RamArb(i, b)
  {
    assert c.RamReq(b);
    forall a | a in c.F(b).older ensures !c.RamReq(a) {
    }
  }

  lemma RamSelFound(c: Cache, i: Inputs, b: nat, from: nat)
    requires c.RamArb(i, b) && from <= b < c.cfg.buffers
    ensures c.RamSel(i, from) <= b
    decreases b - from
  {
    if from < b && !c.RamArb(i, from) {
      RamSelFound(c, i, b, from + 1);
    }
  }

  /** The line of the buffer is in the ways chosen for it, at its index, and nothing else has changed. */
  ghost predicate Wrote(c: Cache, n: Cache, f: FillBuffer) {
    c.cfg.indices > 0 && n.ram.Keys == c.ram.Keys &&
    forall p | p in c.ram ::
      n.ram[p] == if p.0 in f.way && p.1 == f.line % c.cfg.indices then RamLine(true, f.line / c.cfg.indices, f.data)
                  else c.ram[p]
  }

  lemma WrittenRams(c: Cache, i: Inputs, b: nat)
    requires c.cfg.indices > 0 && c.FillGrant(i) && c.RamSel(i, 0) == b
    ensures Wrote(c, c.Next(i), c.F(b))
  {
    assert c.WriteIndex(i) == c.F(b).line % c.cfg.indices;
    assert c.Next(i).ram == c.RamD(i);
  }

  /** When the RAMs are free the oldest complete line is written, and its buffer does not write again. */
  lemma FillIsWritten(c: Cache, i: Inputs, g: Age, b: nat)
    requires AgeOk(c, g) && Complete(c, b) && RamsFree(c, i) && forall a | a in c.F(b).older :: !Complete(c, a)
    ensures Wrote(c, c.Next(i), c.F(b)) && (c.Next(i).F(b).busy ==> c.Next(i).F(b).ramDone)
  {
    assert b in g.Order() && b < c.cfg.buffers;
    OldestComplete(c, i, b);
    RamSelFound(c, i, b, 0);
    ArbitersOneHot(c, i, g, b, c.RamSel(i, 0));
    WrittenRams(c, i, b);
    NextF(c, i, b);
  }

  lemma WroteIsPresent(c: Cache, n: Cache, f: FillBuffer, w: nat)
    requires InvalOk(c) && n.cfg == c.cfg && Wrote(c, n, f) && w in f.way && w < c.cfg.ways
    ensures Cached(n, f.line)
  {
    assert (w, f.line % c.cfg.indices) in c.ram;
    assert Present(n, w, f.line);
  }

  /** A line written by a fill is served from the RAMs when it is looked up next. */
  lemma FilledThenHit(c: Cache, n: Cache, i: Inputs, i': Inputs, i'': Inputs, g: Age, b: nat, w: nat)
    requires AgeOk(c, g) && InvalOk(c) && Complete(c, b) && RamsFree(c, i) && n == c.Next(i)
    requires forall a | a in c.F(b).older :: !Complete(c, a)
    requires w in c.F(b).way && w < c.cfg.ways
    requires Consults(n, i') && n.LookupAddr(i').line == c.F(b).line
    requires n.Next(i').RamLegal(i'') && !i''.tagErr && !i''.dataErr
    ensures n.Next(i').HitIc1(i'', n.AllocIndex(0))
  {
    InvalStep(c, i);
    FillIsWritten(c, i, g, b);
    WroteIsPresent(c, n, c.F(b), w);
    HitsIfCached(n, i', i'');
  }

  /** A buffer counts as written exactly when it is: its turn is not lost while the RAMs are in use. */
  lemma WrittenOnlyThen(c: Cache, i: Inputs, b: nat)
    requires b < c.cfg.buffers && c.F(b).busy
    ensures c.Next(i).F(b).ramDone <==>
      || c.F(b).ramDone
      || (Complete(c, b) && RamsFree(c, i) && forall a | a in c.F(b).older :: !Complete(c, a))
  {
    NextF(c, i, b);
    assert c.RamReq(b) == Complete(c, b);
    assert forall a | a in c.F(b).older :: c.RamReq(a) == Complete(c, a);
  }

  /** A buffer is released exactly when nothing is left for it to do: its line is delivered or no longer wanted, its
      requests are over and answered, and it is written, served from the RAMs, faulty, or not to be cached. */
  lemma ReleasedIs(c: Cache, i: Inputs, b: nat)
    requires b < c.cfg.buffers && c.F(b).busy
    ensures var f := c.F(b);
      !c.Next(i).F(b).busy <==>
        && (f.outCnt >= c.cfg.beats || f.stale || i.branch)
        && f.extDone && !f.extHold && f.rvdCnt == f.extCnt
        && (f.ramDone || f.hit || !f.cache || exists k :: 0 <= k < |f.err| && f.err[k])
  {
    NextF(c, i, b);
  }

  // ------------------------------------------------------------------ ways

  /** The way chosen for a line looked up: the lowest that is invalid, and the next in turn if none is. */
  lemma VictimIs(c: Cache, i: Inputs, b: nat, v: nat)
    requires c.lookupValid1 && c.in1 == b && b < c.cfg.buffers && c.RamLegal(i) && !i.tagErr
    requires c.roundRobin < c.cfg.ways
    requires if exists w :: 0 <= w < c.cfg.ways && !c.rd[w].valid then
               v < c.cfg.ways && !c.rd[v].valid && forall w | 0 <= w < v :: c.rd[w].valid
             else v == c.roundRobin
    ensures c.Next(i).F(b).way == {v} && v < c.cfg.ways
  {
    NextF(c, i, b);
    assert forall w | 0 <= w < c.cfg.ways :: c.WayInvalid(i, w) == !c.rd[w].valid;
    forall w ensures w in c.SelWay(i) <==> w == v {
      if exists x :: 0 <= x < c.cfg.ways && !c.rd[x].valid {
        assert c.WayInvalid(i, v);
      }
    }
  }

  /** Turns go round. */
  lemma TurnPasses(c: Cache, i: Inputs)
    requires c.roundRobin < c.cfg.ways
    ensures var t := c.Next(i).roundRobin;
      t < c.cfg.ways && t == if c.lookupValid1 then (c.roundRobin + 1) % c.cfg.ways else c.roundRobin
  {
    ModOnce(c.roundRobin + 1, c.cfg.ways);
  }

  lemma {:induction false} TurnInRange(c: Cache, ins: seq<Inputs>)
    requires c.Init()
    ensures Run(Reset(c), ins).c.roundRobin < c.cfg.ways
    decreases |ins|
  {
    if ins != [] {
      var before := ins[..|ins| - 1];
      TurnInRange(c, before);
      RunConfig(c, before);
      TurnPasses(Run(Reset(c), before).c, ins[|ins| - 1]);
    }
  }

  // ------------------------------------------------------------------ corrupt entries

  /** The entries to be dropped at an index are invalid, and nothing else has changed. */
  ghost predicate Dropped(n: Cache, m: Cache, index: nat, ways: set<nat>) {
    m.ram.Keys == n.ram.Keys &&
    forall p | p in n.ram ::
      if p.1 == index && p.0 in ways then !m.ram[p].valid else m.ram[p] == n.ram[p]
  }

  /** Entries are dropped for such errors only. */
  lemma OnlyErrorsDrop(c: Cache, i: Inputs)
    requires c.Next(i).eccWrite
    ensures c.lookupValid1 && (i.tagErr || (i.dataErr && exists w :: 0 <= w < c.cfg.ways && c.TagMatch(i, w)))
  {
  }

  lemma ErrorIsStored(c: Cache, i: Inputs)
    requires InvalOk(c) && c.lookupValid1 && (i.tagErr || (i.dataErr && c.TagHit(i)))
    ensures var n := c.Next(i);
      && n.eccWrite && !n.InvalWrite() && n.eccIndex == c.line1 % c.cfg.indices
      && forall w | 0 <= w < c.cfg.ways :: w in n.eccWays <==> i.tagErr || c.TagMatch(i, w)
  {
    InvalStep(c, i);
  }

  lemma DropsStored(n: Cache, i: Inputs)
    requires n.eccWrite && !n.InvalWrite()
    ensures !n.LookupReq(i) && !n.FillGrant(i) && Dropped(n, n.Next(i), n.eccIndex, n.eccWays)
  {
    assert n.Next(i).ram == n.RamD(i);
  }

  /** After an error of the tags no way holds anything at the index, and after one of the data no matching one does; no
      lookup or fill comes in between, and nothing else is lost. */
  lemma CorruptIsDropped(c: Cache, n: Cache, i: Inputs, i': Inputs) returns (ways: set<nat>)
    requires InvalOk(c) && c.lookupValid1 && (i.tagErr || (i.dataErr && c.TagHit(i))) && n == c.Next(i)
    ensures forall w | 0 <= w < c.cfg.ways :: w in ways <==> i.tagErr || c.TagMatch(i, w)
    ensures !n.LookupReq(i') && !n.FillGrant(i') && Dropped(n, n.Next(i'), c.line1 % c.cfg.indices, ways)
  {
    ErrorIsStored(c, i);
    DropsStored(n, i');
    ways := n.eccWays;
  }

  // ------------------------------------------------------------------ which lines are cached

  /** The line of a branch and the two looked up after it are to be cached, or all if so configured, while the cache is
      enabled and not invalidating. */
  lemma WantsCaching(c: Cache, i: Inputs)
    requires c.LookupReq(i)
    ensures c.Next(i).F(c.AllocIndex(0)).cache <==>
      && (!c.cfg.branchCache || i.branch || c.cacheCnt > 0)
      && i.enable && c.invalState == InvalIdle && !i.inval
  {
    AllocUnique(c, i, c.AllocIndex(0));
    NextF(c, i, c.AllocIndex(0));
  }

  lemma LinesAhead(c: Cache, i: Inputs)
    ensures c.Next(i).cacheCnt ==
      if i.branch then 2 else if c.LookupReq(i) && c.cacheCnt > 0 then c.cacheCnt - 1 else c.cacheCnt
  {
  }

  /** A disabled or invalidated cache forgets the wish, and a line is never cached that was not to be. */
  lemma CachingKept(c: Cache, i: Inputs, b: nat)
    requires b < c.cfg.buffers && c.F(b).busy && !c.Alloc(i, b)
    ensures c.Next(i).F(b).cache <==> c.F(b).cache && i.enable && !i.inval
  {
    NextF(c, i, b);
  }

  // ------------------------------------------------------------------ how far it runs ahead

  function Waiters(c: Cache, n: nat): set<nat> {
    set b | 0 <= b < n && c.F(b).busy && !c.F(b).stale
  }

  lemma {:induction false} LevelIs(c: Cache, n: nat)
    ensures c.FillLevelUpTo(n) == |Waiters(c, n)| <= n
  {
    if n == 0 {
      assert Waiters(c, 0) == {};
    } else {
      LevelIs(c, n - 1);
      if c.F(n - 1).busy && !c.F(n - 1).stale {
        assert Waiters(c, n) == Waiters(c, n - 1) + {n - 1};
      } else {
        assert Waiters(c, n) == Waiters(c, n - 1);
      }
    }
  }

  lemma {:induction false} DoubledIs(p: nat, n: nat)
    requires p > 0
    ensures n <= Doubled(p, n)
    decreases n - p
  {
    if p < n {
      DoubledIs(2 * p, n);
    }
  }

  lemma {:induction false} AllWait(c: Cache, n: nat)
    requires |Waiters(c, n)| == n
    ensures forall b | 0 <= b < n :: c.F(b).busy
  {
    if n > 0 {
      LevelIs(c, n);
      LevelIs(c, n - 1);
      assert Waiters(c, n - 1) == Waiters(c, n) - {n - 1};
      AllWait(c, n - 1);
    }
  }

  /** Whatever the counter's width, the throttle acts as soon as all buffers but one wait. */
  lemma ThrottleIs(c: Cache)
    requires c.cfg.Legal() && !c.AllBusy()
    ensures c.LookupThrottle() <==> |Waiters(c, c.cfg.buffers)| + 1 >= c.cfg.buffers
  {
    var n, level := c.cfg.buffers, c.FillLevelUpTo(c.cfg.buffers);
    LevelIs(c, n);
    DoubledIs(1, n);
    if level == n {
      AllWait(c, n);
    } else {
      SmallMod(level, Doubled(1, n));
    }
  }

  /** A lookup is made exactly if one is asked for and a buffer is free, unless an entry is being dropped; without a
      branch it leaves at least one buffer for the next branch, besides its own. */
  lemma LooksUp(c: Cache, i: Inputs)
    requires c.cfg.Legal()
    ensures c.LookupReq(i) <==>
      && i.req && !c.eccWrite && (exists b :: 0 <= b < c.cfg.buffers && !c.F(b).busy)
      && (i.branch || |Waiters(c, c.cfg.buffers)| + 2 <= c.cfg.buffers)
  {
    if !c.AllBusy() {
      ThrottleIs(c);
    }
  }
}
