/** Invalidation: the sweep of the tag RAM and the freshness of what lookups can hit.

    An epoch counts the invalidation requests that were accepted, that is, seen while the cache
    was idle or sweeping.  History variables stamp each fill buffer with the epoch in which it
    was allocated, and each RAM entry with the stamp of the buffer that wrote it. */
module ICacheInval {
  import opened ICacheModel

  ghost predicate Swept(c: Cache, upTo: nat) {
    forall p | p in c.ram && p.1 < upTo :: !c.ram[p].valid
  }

  ghost predicate InvalOk(c: Cache) {
    && c.cfg.Legal() && |c.fb| == c.cfg.buffers
    && (forall p :: p in c.ram <==> p.0 < c.cfg.ways && p.1 < c.cfg.indices)
    && (c.invalState.InvalCache? ==>
          c.invalIndex < c.cfg.indices && !c.eccWrite && Swept(c, c.invalIndex))
    && (c.lookupValid1 ==> c.invalState.InvalIdle?)
    && (c.eccWrite ==> c.invalState.InvalIdle? || c.invalState.AwaitScrambleKey?)
    && (!c.invalState.InvalIdle? ==>
          forall b | 0 <= b < c.cfg.buffers && c.F(b).busy :: !c.F(b).cache)
  }

  /** Away from idle, no fill buffer may write the RAMs. */
  lemma NoFillUnlessIdle(c: Cache, i: Inputs)
    requires InvalOk(c) && !c.invalState.InvalIdle?
    ensures !c.FillGrant(i)
  {
  }

  /** A cycle of the sweep invalidates one index in every way. */
  lemma SweepStep(c: Cache, i: Inputs)
    requires InvalOk(c) && c.invalState.InvalCache?
    ensures Swept(c.Next(i), c.invalIndex + 1)
  {
    NoFillUnlessIdle(c, i);
  }

  /** Whenever the sweep ends, no entry of the tag RAM is valid. */
  lemma SweepDone(c: Cache, i: Inputs)
    requires InvalOk(c) && c.invalState.InvalCache? && c.Next(i).invalState.InvalIdle?
    ensures forall p | p in c.Next(i).ram :: !c.Next(i).ram[p].valid
  {
    SweepStep(c, i);
  }

  // ------------------------------------------------------------------ the sweep comes and ends

  /** Out of reset, and on every request once a sweep may start, the cache waits for the key, and then sweeps from the
      first index. While it waits further requests change nothing. */
  lemma SweepStarts(c: Cache, i: Inputs)
    ensures var n := c.Next(i);
      && (c.invalState == OutOfReset ==> n.invalState == AwaitScrambleKey)
      && ((c.invalState == InvalIdle || c.invalState == InvalCache) && i.inval ==> n.invalState == AwaitScrambleKey)
      && (c.invalState == InvalIdle && !i.inval ==> n.invalState == InvalIdle)
      && (c.invalState == AwaitScrambleKey && i.keyValid ==> n.invalState == InvalCache && n.invalIndex == 0)
      && (c.invalState == AwaitScrambleKey && !i.keyValid ==> n.invalState == AwaitScrambleKey)
  {
  }

  ghost function After(c: Cache, ins: seq<Inputs>): Cache
    decreases |ins|
  {
    if ins == [] then c else After(c.Next(ins[0]), ins[1..])
  }

  /** A sweep goes through the indices one by one, and ends with the last, if no new request comes. */
  lemma {:induction false} SweepEnds(c: Cache, ins: seq<Inputs>)
    requires c.invalState == InvalCache && c.invalIndex < c.cfg.indices && c.invalIndex + |ins| <= c.cfg.indices
    requires forall k | 0 <= k < |ins| :: !ins[k].inval
    ensures var t := After(c, ins);
      if c.invalIndex + |ins| < c.cfg.indices then t.invalState == InvalCache && t.invalIndex == c.invalIndex + |ins|
      else t.invalState == InvalIdle
    decreases |ins|
  {
    if ins != [] && c.invalIndex + 1 < c.cfg.indices {
      SweepEnds(c.Next(ins[0]), ins[1..]);
    }
  }

  lemma CacheOff(c: Cache, i: Inputs, b: nat)
    requires InvalOk(c) && !c.Next(i).invalState.InvalIdle? && b < c.cfg.buffers
    ensures c.Next(i).F(b).busy ==> !c.Next(i).F(b).cache
  {
  }

  lemma InvalStep(c: Cache, i: Inputs)
    requires InvalOk(c)
    ensures InvalOk(c.Next(i))
  {
    if c.invalState.InvalCache? {
      SweepStep(c, i);
    }
    if !c.Next(i).invalState.InvalIdle? {
      forall b | 0 <= b < c.cfg.buffers && c.Next(i).F(b).busy ensures !c.Next(i).F(b).cache {
        CacheOff(c, i, b);
      }
    }
  }

  // ------------------------------------------------------------------ freshness

  datatype Stamps = Stamps(
    epoch: nat,                   // accepted invalidation requests so far
    buffer: map<nat, nat>,        // epoch in which a buffer was allocated
    entry: map<(nat, nat), nat>,  // stamp of the buffer that last filled a RAM entry
    lookup: nat,                  // epoch of the lookup now in IC1
    read: map<nat, nat>)          // stamps of the entries that lookup read, per way
  {
    function Buffer(b: nat): nat {
      if b in buffer then buffer[b] else 0
    }

    function Entry(p: (nat, nat)): nat {
      if p in entry then entry[p] else 0
    }
  }

  predicate InvalAccepted(c: Cache, i: Inputs) {
    i.inval && (c.invalState.InvalIdle? || c.invalState.InvalCache?)
  }

  function NextStamps(c: Cache, i: Inputs, t: Stamps): Stamps {
    Stamps(
      t.epoch + if InvalAccepted(c, i) then 1 else 0,
      map b | 0 <= b < c.cfg.buffers :: if c.Alloc(i, b) then t.epoch else t.Buffer(b),
      map p | p in c.ram ::
        if c.FillGrant(i) && p.1 == c.WriteIndex(i) && c.WriteBank(i, p.0)
        then t.Buffer(c.RamSel(i, 0)) else t.Entry(p),
      if c.LookupReq(i) then t.epoch else t.lookup,
      if c.LookupReq(i) then
        map w | 0 <= w < c.cfg.ways :: t.Entry((w, c.Index(c.LookupAddr(i).line)))
      else t.read)
  }

  ghost predicate FreshOk(c: Cache, t: Stamps) {
    && (forall b | 0 <= b < c.cfg.buffers && c.F(b).busy && c.F(b).cache :: t.Buffer(b) == t.epoch)
    && (c.invalState.InvalIdle? ==> forall p | p in c.ram && c.ram[p].valid :: t.Entry(p) == t.epoch)
    && (c.lookupValid1 ==>
          |c.rd| == c.cfg.ways &&
          forall w | 0 <= w < c.cfg.ways && c.rd[w].valid :: w in t.read && t.read[w] == t.lookup)
  }

  lemma FreshBuffers(c: Cache, i: Inputs, t: Stamps, b: nat)
    requires InvalOk(c) && FreshOk(c, t)
    requires b < c.cfg.buffers && c.Next(i).F(b).busy && c.Next(i).F(b).cache
    ensures NextStamps(c, i, t).Buffer(b) == NextStamps(c, i, t).epoch
  {
    assert !InvalAccepted(c, i);
    assert NextStamps(c, i, t).Buffer(b) == if c.Alloc(i, b) then t.epoch else t.Buffer(b);
  }

  /** A fill stamps the entries it writes with the current epoch; other entries keep theirs. */
  lemma StampAfter(c: Cache, i: Inputs, t: Stamps, p: (nat, nat))
    requires InvalOk(c) && FreshOk(c, t) && p in c.ram
    ensures NextStamps(c, i, t).Entry(p) in {t.epoch, t.Entry(p)}
    ensures c.FillGrant(i) && p.1 == c.WriteIndex(i) && c.WriteBank(i, p.0) ==>
            NextStamps(c, i, t).Entry(p) == t.epoch
  {
    var r := c.RamSel(i, 0);
    assert r < c.cfg.buffers ==> c.RamArb(i, r);
  }

  lemma ValidAfter(c: Cache, i: Inputs, p: (nat, nat))
    requires p in c.ram && c.Next(i).ram[p].valid
    ensures c.ram[p].valid || (c.FillGrant(i) && p.1 == c.WriteIndex(i) && c.WriteBank(i, p.0))
  {
  }

  lemma FreshEntries(c: Cache, i: Inputs, t: Stamps, p: (nat, nat))
    requires InvalOk(c) && FreshOk(c, t) && c.Next(i).invalState.InvalIdle?
    requires p in c.ram && c.Next(i).ram[p].valid
    ensures NextStamps(c, i, t).Entry(p) == NextStamps(c, i, t).epoch
  {
    if c.invalState.InvalCache? {
      SweepDone(c, i);
    }
    ValidAfter(c, i, p);
    StampAfter(c, i, t, p);
  }

  lemma FreshRead(c: Cache, i: Inputs, t: Stamps)
    requires InvalOk(c) && FreshOk(c, t) && c.Next(i).lookupValid1
    ensures |c.Next(i).rd| == c.cfg.ways
    ensures forall w | 0 <= w < c.cfg.ways && c.Next(i).rd[w].valid ::
      w in NextStamps(c, i, t).read && NextStamps(c, i, t).read[w] == NextStamps(c, i, t).lookup
  {
    assert c.invalState.InvalIdle? && !c.RamWrite(i);
  }

  lemma FreshStep(c: Cache, i: Inputs, t: Stamps)
    requires InvalOk(c) && FreshOk(c, t)
    ensures FreshOk(c.Next(i), NextStamps(c, i, t))
  {
    var n, u := c.Next(i), NextStamps(c, i, t);
    forall b | 0 <= b < n.cfg.buffers && n.F(b).busy && n.F(b).cache ensures u.Buffer(b) == u.epoch {
      FreshBuffers(c, i, t, b);
    }
    if n.invalState.InvalIdle? {
      forall p | p in n.ram && n.ram[p].valid ensures u.Entry(p) == u.epoch {
        FreshEntries(c, i, t, p);
      }
    }
    if n.lookupValid1 {
      FreshRead(c, i, t);
    }
  }

  /** A hit never comes from a fill that was allocated before the invalidation request that
      preceded the lookup: the entry read carries the epoch of the lookup itself. */
  lemma HitIsFresh(c: Cache, i: Inputs, t: Stamps, b: nat, w: nat)
    requires FreshOk(c, t) && c.RamLegal(i) && c.HitIc1(i, b) && w < c.cfg.ways && c.TagMatch(i, w)
    ensures w in t.read && t.read[w] == t.lookup
  {
  }
}
