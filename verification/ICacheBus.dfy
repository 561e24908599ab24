/** The fill buffers on the in-order bus.

    A history variable holds the granted requests that have not been answered, as the bus sees
    them: the address output is appended on a grant, the head leaves on a response.  The
    invariant says that this queue is always the concatenation, oldest buffer first, of the
    `extCnt - rvdCnt` beats each buffer is still waiting for. */
module ICacheBus {
  import opened ICacheModel
  import opened ICacheAge

  /** A granted request: issuing buffer, line and beat. */
  datatype Beat = Beat(fb: nat, line: nat, beat: nat)

  /** Beats number `lo` up to `hi` of a line, counted from `first` and wrapping at its end. */
  function Beats(b: nat, line: nat, first: nat, lo: nat, hi: nat, beats: nat): seq<Beat> {
    if beats == 0 || hi < lo then []
    else seq(hi - lo, k requires 0 <= k => Beat(b, line, (first + lo + k) % beats))
  }

  /** One beat answered at the front, one granted at the back. */
  lemma BeatsChange(b: nat, line: nat, first: nat, lo: nat, hi: nat, beats: nat, pop: nat, push: nat)
    requires beats > 0 && lo + pop <= hi && pop <= 1 && push <= 1
    ensures Beats(b, line, first, lo + pop, hi + push, beats) ==
            Beats(b, line, first, lo, hi, beats)[pop..] +
            if push == 1 then [Beat(b, line, (first + hi) % beats)] else []
  {
    assert first + lo + (hi - lo) == first + hi;
  }

  /** What buffer `b` is waiting for. */
  function Waiting(c: Cache, b: nat): seq<Beat> {
    var f := c.F(b);
    Beats(b, f.line, f.beat, f.rvdCnt, f.extCnt, c.cfg.beats)
  }

  function Flat(f: nat -> seq<Beat>, s: seq<nat>): seq<Beat> {
    if s == [] then [] else f(s[0]) + Flat(f, s[1..])
  }

  lemma {:induction false} FlatSame(f: nat -> seq<Beat>, h: nat -> seq<Beat>, s: seq<nat>)
    requires forall b | b in s :: f(b) == h(b)
    ensures Flat(f, s) == Flat(h, s)
  {
    if s != [] {
      FlatSame(f, h, s[1..]);
    }
  }

  lemma {:induction false} FlatConcat(f: nat -> seq<Beat>, s: seq<nat>, t: seq<nat>)
    ensures Flat(f, s + t) == Flat(f, s) + Flat(f, t)
  {
    if s == [] {
      assert s + t == t;
    } else {
      assert (s + t)[1..] == s[1..] + t;
      FlatConcat(f, s[1..], t);
    }
  }

  lemma {:induction false} FlatEmpty(f: nat -> seq<Beat>, s: seq<nat>)
    requires forall b | b in s :: f(b) == []
    ensures Flat(f, s) == []
  {
    if s != [] {
      FlatEmpty(f, s[1..]);
    }
  }

  lemma {:induction false} FlatWithout(f: nat -> seq<Beat>, s: seq<nat>, gone: set<nat>)
    requires forall b | b in s && b in gone :: f(b) == []
    ensures Flat(f, Without(s, gone)) == Flat(f, s)
  {
    if s != [] {
      FlatWithout(f, s[1..], gone);
    }
  }

  lemma FlatSplit(f: nat -> seq<Beat>, s: seq<nat>, k: nat)
    requires k < |s|
    ensures Flat(f, s) == Flat(f, s[..k]) + f(s[k]) + Flat(f, s[k + 1..])
  {
    var tail := s[k..];
    assert s == s[..k] + tail;
    FlatConcat(f, s[..k], tail);
    assert tail[1..] == s[k + 1..];
  }

  lemma Reassociate(a: seq<Beat>, b: seq<Beat>, e: Beat)
    ensures a + (b + [e]) + [] == (a + b + []) + [e]
  {
  }

  /** Position `k` gains the entry `e`, and nothing after it holds one. */
  lemma FlatPush(f: nat -> seq<Beat>, h: nat -> seq<Beat>, s: seq<nat>, k: nat, e: Beat)
    requires k < |s|
    requires h(s[k]) == f(s[k]) + [e]
    requires forall j | 0 <= j < |s| && j != k :: h(s[j]) == f(s[j])
    requires forall j | k < j < |s| :: f(s[j]) == []
    ensures Flat(h, s) == Flat(f, s) + [e]
  {
    FlatSplit(f, s, k);
    FlatSplit(h, s, k);
    FlatSame(f, h, s[..k]);
    FlatEmpty(f, s[k + 1..]);
    FlatEmpty(h, s[k + 1..]);
    Reassociate(Flat(f, s[..k]), f(s[k]), e);
  }

  /** Position `k` loses its first entry, and nothing before it holds one. */
  lemma FlatPop(f: nat -> seq<Beat>, h: nat -> seq<Beat>, s: seq<nat>, k: nat)
    requires k < |s|
    requires f(s[k]) != [] && h(s[k]) == f(s[k])[1..]
    requires forall j | 0 <= j < |s| && j != k :: h(s[j]) == f(s[j])
    requires forall j | 0 <= j < k :: f(s[j]) == []
    ensures Flat(f, s) != [] && Flat(h, s) == Flat(f, s)[1..]
  {
    FlatSplit(f, s, k);
    FlatSplit(h, s, k);
    FlatEmpty(f, s[..k]);
    FlatEmpty(h, s[..k]);
    FlatSame(f, h, s[k + 1..]);
  }

  lemma {:induction false} FlatHead(f: nat -> seq<Beat>, s: seq<nat>) returns (k: nat)
    requires Flat(f, s) != []
    ensures k < |s| && f(s[k]) != [] && Flat(f, s)[0] == f(s[k])[0]
    ensures forall j | 0 <= j < k :: f(s[j]) == []
  {
    if f(s[0]) != [] {
      k := 0;
    } else {
      assert Flat(f, s) == Flat(f, s[1..]);
      k := FlatHead(f, s[1..]);
      k := k + 1;
    }
  }

  // ------------------------------------------------------------------ invariant

  ghost predicate Ranges(c: Cache) {
    && c.cfg.InRange(c.prefetch) && c.cfg.InRange(c.outAddr)
    && forall b | 0 <= b < c.cfg.buffers && c.F(b).busy ::
         c.F(b).line < c.cfg.lines && c.F(b).beat < c.cfg.beats
  }

  /** Why the external requests of a buffer may be over. */
  predicate ExtOver(c: Cache, b: nat) {
    var f := c.F(b);
    f.extCnt >= c.cfg.beats || f.hit || (!f.cache && (f.stale || f.beat + f.extCnt >= c.cfg.beats))
  }

  ghost predicate CountersOk(c: Cache, b: nat) {
    var f := c.F(b);
    && f.rvdCnt <= f.extCnt <= c.cfg.beats
    && (f.extDone ==> !f.extHold && ExtOver(c, b))
    && (f.extHold ==> f.extCnt < c.cfg.beats)
  }

  /** A buffer has requests on the bus only once every older one has made all of its own. */
  ghost predicate InTurn(c: Cache, a: nat, b: nat) {
    !c.F(a).extDone ==> c.F(b).extCnt == 0 && !c.F(b).extHold
  }

  ghost predicate BusOk(c: Cache, g: Age, q: seq<Beat>) {
    && Ranges(c)
    && (forall b | b in g.Order() :: CountersOk(c, b))
    && (forall b | b in g.Order() :: forall a | a in c.F(b).older :: InTurn(c, a, b))
    && q == Flat((b: nat) => Waiting(c, b), g.Order())
  }

  /** The environment answers only granted requests, at least one cycle later. */
  predicate BusLegal(c: Cache, i: Inputs, q: seq<Beat>) {
    (i.rvalid ==> q != []) && (i.branch ==> c.cfg.InRange(i.addr))
  }

  function Issuer(c: Cache, i: Inputs): nat {
    if c.AnyExtReq(i) then c.ExtSel(i, 0) else c.AllocIndex(0)
  }

  function Granted(c: Cache, i: Inputs): seq<Beat> {
    if c.InstrReq(i) && i.gnt then [Beat(Issuer(c, i), c.InstrAddr(i).0, c.InstrAddr(i).1)] else []
  }

  function NextQueue(c: Cache, i: Inputs, q: seq<Beat>): seq<Beat> {
    (if i.rvalid && q != [] then q[1..] else q) + Granted(c, i)
  }

  // ------------------------------------------------------------------ arbitration

  /** Completed external requests stay completed. */
  lemma ExtDoneStays(c: Cache, i: Inputs, b: nat)
    requires c.F(b).busy && CountersOk(c, b) && c.F(b).extDone
    ensures c.ExtDoneD(i, b)
  {
  }

  lemma SmallMod(x: nat, n: nat)
    requires x < n
    ensures x % n == x
  {
  }

  lemma ExtSelIs(c: Cache, i: Inputs, g: Age, b: nat)
    requires AgeOk(c, g) && c.ExtArb(i, b)
    ensures c.ExtSel(i, 0) == b && c.AnyExtReq(i)
  {
    assert b < c.cfg.buffers;
    ArbitersOneHot(c, i, g, b, c.ExtSel(i, 0));
  }

  /** If the buffer at position `k` requests, the oldest requesting buffer is granted. */
  lemma SomeExtArb(c: Cache, i: Inputs, g: Age, k: nat) returns (b: nat)
    requires AgeOk(c, g) && k < |g.Order()| && c.ExtReq(i, g.Order()[k])
    ensures c.ExtArb(i, b) && b in g.Order()
  {
    var s := g.Order();
    if j :| 0 <= j < k && c.ExtReq(i, s[j]) {
      b := SomeExtArb(c, i, g, j);
    } else {
      b := s[k];
      BeforeByPosition(s, k);
    }
  }

  /** The granted request of this cycle is that of the oldest requesting buffer, if any. */
  lemma ExtSelGranted(c: Cache, i: Inputs, g: Age)
    requires AgeOk(c, g) && c.AnyExtReq(i)
    ensures c.ExtArb(i, c.ExtSel(i, 0)) && c.ExtSel(i, 0) in g.Order()
  {
    var x :| 0 <= x < c.cfg.buffers && c.ExtReq(i, x);
    assert x in g.Order();
    var k :| 0 <= k < |g.Order()| && g.Order()[k] == x;
    var b := SomeExtArb(c, i, g, k);
    ExtSelIs(c, i, g, b);
  }

  /** A buffer that waits for nothing, and is older than one that waits, expects no response. */
  lemma OlderSatisfied(c: Cache, g: Age, q: seq<Beat>, a: nat, x: nat)
    requires BusOk(c, g, q) && c.cfg.beats > 0 && a in g.Order() && x in g.Order() && a in c.F(x).older
    requires Waiting(c, a) == [] && Waiting(c, x) != []
    ensures !c.RvdExp(a)
  {
    assert CountersOk(c, a) && InTurn(c, a, x);
  }

  /** On a response, the buffer that takes the beat is exactly the one that issued the request
      at the head of the bus queue, and the beat is stored where that request pointed. */
  lemma ResponseToIssuer(c: Cache, i: Inputs, g: Age, q: seq<Beat>, b: nat)
    requires AgeOk(c, g) && BusOk(c, g, q) && i.rvalid && q != []
    ensures c.RvdArb(i, b) <==> b == q[0].fb
    ensures b == q[0].fb ==> q[0] == Beat(b, c.F(b).line, c.RvdOff(b)) && c.F(b).rvdCnt < c.F(b).extCnt
  {
    var s := g.Order();
    var f := (b: nat) => Waiting(c, b);
    var k := FlatHead(f, s);
    var x := s[k];
    assert x in s && CountersOk(c, x);
    BeforeByPosition(s, k);
    forall a | a in c.F(x).older ensures !c.RvdExp(a) {
      var j :| 0 <= j < k && s[j] == a;
      assert f(s[j]) == [];
      OlderSatisfied(c, g, q, a, x);
    }
    assert c.RvdArb(i, x);
    if c.RvdArb(i, b) {
      ArbitersOneHot(c, i, g, b, x);
    }
  }

  // ------------------------------------------------------------------ one clock edge

  /** The external counters of a buffer that stays busy. */
  lemma KeptCounters(c: Cache, i: Inputs, g: Age, q: seq<Beat>, b: nat)
    requires AgeOk(c, g) && BusOk(c, g, q) && BusLegal(c, i, q) && c.F(b).busy
    ensures var f, n := c.F(b), c.NextBuffer(i, b);
      && n.extCnt == f.extCnt + c.Count(c.ExtArb(i, b) && i.gnt)
      && n.rvdCnt == f.rvdCnt + c.Count(c.RvdArb(i, b))
      && n.line == f.line && n.beat == f.beat
      && n.rvdCnt <= n.extCnt <= c.cfg.beats
      && (c.RvdArb(i, b) ==> f.rvdCnt < f.extCnt)
      && (n.extHold ==> n.extCnt < c.cfg.beats)
  {
    assert b in g.Order() && CountersOk(c, b);
    if c.RvdArb(i, b) {
      ResponseToIssuer(c, i, g, q, b);
    }
  }

  lemma FreshCounters(c: Cache, i: Inputs, b: nat)
    requires c.cfg.Legal() && c.Alloc(i, b)
    ensures CountersOk(c.Next(i), b)
  {
    NextF(c, i, b);
  }

  lemma NextCounters(c: Cache, i: Inputs, g: Age, q: seq<Beat>, b: nat)
    requires AgeOk(c, g) && BusOk(c, g, q) && BusLegal(c, i, q)
    requires b in NextAge(c, i, g).Order()
    ensures CountersOk(c.Next(i), b)
  {
    NextBusy(c, i, g, b);
    if c.F(b).busy {
      assert CountersOk(c, b);
      KeptCounters(c, i, g, q, b);
    } else {
      FreshCounters(c, i, b);
    }
  }

  lemma NextRanges(c: Cache, i: Inputs, g: Age, q: seq<Beat>)
    requires AgeOk(c, g) && BusOk(c, g, q) && BusLegal(c, i, q)
    ensures Ranges(c.Next(i))
  {
    forall b | 0 <= b < c.cfg.buffers && c.Next(i).F(b).busy
      ensures c.Next(i).F(b).line < c.cfg.lines && c.Next(i).F(b).beat < c.cfg.beats
    {
      NextF(c, i, b);
    }
  }

  lemma NextInTurn(c: Cache, i: Inputs, g: Age, q: seq<Beat>, a: nat, b: nat)
    requires AgeOk(c, g) && BusOk(c, g, q)
    requires c.Next(i).F(b).busy && a in c.Next(i).F(b).older && b < c.cfg.buffers
    ensures InTurn(c.Next(i), a, b)
  {
    NextF(c, i, b);
    NextF(c, i, a);
    if c.Alloc(i, b) {
      assert c.F(a).busy && a < c.cfg.buffers;
      assert c.SpecReq(i) ==> !c.ExtReq(i, a);
    } else {
      OlderIrreflexive(c, g, a, b);
      assert b in g.Order() && a in g.Order() && InTurn(c, a, b) && CountersOk(c, a);
    }
  }

  /** No buffer is released while it waits for a response. */
  lemma ReleasedQuiet(c: Cache, i: Inputs, g: Age, q: seq<Beat>, b: nat)
    requires AgeOk(c, g) && BusOk(c, g, q) && b in Released(c, i)
    ensures Waiting(c, b) == [] && !c.ExtArb(i, b) && !c.RvdArb(i, b)
  {
    assert b in g.Order() && CountersOk(c, b);
  }

  /** The queue after this cycle's response, over the buffers of the cycle before the edge. */
  function AfterResponse(c: Cache, i: Inputs, b: nat): seq<Beat> {
    var w := Waiting(c, b);
    if c.RvdArb(i, b) && w != [] then w[1..] else w
  }

  /** The request the bus grants to buffer `b` in this cycle. */
  function GrantedTo(c: Cache, i: Inputs, b: nat): seq<Beat> {
    if c.ExtArb(i, b) && i.gnt then [Beat(b, c.F(b).line, c.ExtOff(b))] else []
  }

  lemma NextCounts(c: Cache, i: Inputs, b: nat)
    requires b < c.cfg.buffers && c.F(b).busy
    ensures var n := c.Next(i).F(b);
      n.extCnt == c.NextBuffer(i, b).extCnt && n.rvdCnt == c.NextBuffer(i, b).rvdCnt &&
      n.line == c.F(b).line && n.beat == c.F(b).beat
  {
  }

  lemma PopQueue(c: Cache, i: Inputs, g: Age, q: seq<Beat>)
    requires AgeOk(c, g) && BusOk(c, g, q) && BusLegal(c, i, q)
    ensures Flat((b: nat) => AfterResponse(c, i, b), g.Order()) == if i.rvalid then q[1..] else q
  {
    var s := g.Order();
    var f, h := (b: nat) => Waiting(c, b), (b: nat) => AfterResponse(c, i, b);
    if i.rvalid {
      var k := FlatHead(f, s);
      ResponseToIssuer(c, i, g, q, s[k]);
      forall j | 0 <= j < |s| && j != k ensures h(s[j]) == f(s[j]) {
        ResponseToIssuer(c, i, g, q, s[j]);
      }
      FlatPop(f, h, s, k);
    } else {
      FlatSame(f, h, s);
    }
  }

  lemma WaitingChange(c: Cache, n: Cache, b: nat, pop: nat, push: nat)
    requires n.cfg == c.cfg && c.cfg.beats > 0 && pop <= 1 && push <= 1
    requires var f, m := c.F(b), n.F(b);
      f.rvdCnt + pop <= f.extCnt && m.rvdCnt == f.rvdCnt + pop && m.extCnt == f.extCnt + push &&
      m.line == f.line && m.beat == f.beat
    ensures pop <= |Waiting(c, b)|
    ensures Waiting(n, b) == Waiting(c, b)[pop..] +
                             if push == 1 then [Beat(b, c.F(b).line, c.ExtOff(b))] else []
  {
    var f := c.F(b);
    BeatsChange(b, f.line, f.beat, f.rvdCnt, f.extCnt, c.cfg.beats, pop, push);
  }

  /** What buffer `b` waits for after the edge. */
  lemma NextWaiting(c: Cache, i: Inputs, g: Age, q: seq<Beat>, b: nat)
    requires AgeOk(c, g) && BusOk(c, g, q) && BusLegal(c, i, q)
    requires c.F(b).busy && !c.Done(i, b)
    ensures Waiting(c.Next(i), b) == AfterResponse(c, i, b) + GrantedTo(c, i, b)
  {
    KeptCounters(c, i, g, q, b);
    NextCounts(c, i, b);
    WaitingChange(c, c.Next(i), b, c.Count(c.RvdArb(i, b)), c.Count(c.ExtArb(i, b) && i.gnt));
  }

  /** Nothing younger than the granted buffer is waiting. */
  lemma YoungerQuiet(c: Cache, i: Inputs, g: Age, q: seq<Beat>, k: nat, j: nat)
    requires AgeOk(c, g) && BusOk(c, g, q)
    requires k < j < |g.Order()| && c.ExtReq(i, g.Order()[k])
    ensures AfterResponse(c, i, g.Order()[j]) == []
  {
    var s := g.Order();
    BeforeByPosition(s, j);
    assert s[k] in c.F(s[j]).older && s[j] in s && s[k] in s;
    assert InTurn(c, s[k], s[j]) && CountersOk(c, s[k]) && CountersOk(c, s[j]);
    if c.F(s[k]).extDone {
      ExtDoneStays(c, i, s[k]);
    }
  }

  /** What the buffers of the old order wait for after the edge; released ones for nothing. */
  function AfterEdge(c: Cache, i: Inputs, b: nat): seq<Beat> {
    if b in Released(c, i) then [] else Waiting(c.Next(i), b)
  }

  lemma AfterEdgeIs(c: Cache, i: Inputs, g: Age, q: seq<Beat>, b: nat)
    requires AgeOk(c, g) && BusOk(c, g, q) && BusLegal(c, i, q) && b in g.Order()
    ensures AfterEdge(c, i, b) == AfterResponse(c, i, b) + GrantedTo(c, i, b)
  {
    if b in Released(c, i) {
      ReleasedQuiet(c, i, g, q, b);
    } else {
      NextWaiting(c, i, g, q, b);
    }
  }

  lemma GrantQueue(c: Cache, i: Inputs, g: Age, q: seq<Beat>, m: nat -> seq<Beat>)
    requires AgeOk(c, g) && BusOk(c, g, q)
    requires forall b | b in g.Order() :: m(b) == AfterResponse(c, i, b) + GrantedTo(c, i, b)
    ensures Flat(m, g.Order()) == Flat((b: nat) => AfterResponse(c, i, b), g.Order()) +
                                  if c.AnyExtReq(i) then Granted(c, i) else []
  {
    var s := g.Order();
    var f := (b: nat) => AfterResponse(c, i, b);
    if c.AnyExtReq(i) && i.gnt {
      ExtSelGranted(c, i, g);
      var x := c.ExtSel(i, 0);
      var k :| 0 <= k < |s| && s[k] == x;
      forall j | 0 <= j < |s| && j != k ensures m(s[j]) == f(s[j]) {
        if c.ExtArb(i, s[j]) {
          ExtSelIs(c, i, g, s[j]);
        }
      }
      forall j | k < j < |s| ensures f(s[j]) == [] {
        YoungerQuiet(c, i, g, q, k, j);
      }
      FlatPush(f, m, s, k, Beat(x, c.F(x).line, c.ExtOff(x)));
    } else {
      forall b | b in s ensures m(b) == f(b) {
        if c.ExtArb(i, b) {
          ExtSelIs(c, i, g, b);
        }
      }
      FlatSame(f, m, s);
    }
  }

  /** Before any allocation, the edge appends the granted request to the queue. */
  lemma PushQueue(c: Cache, i: Inputs, g: Age, q: seq<Beat>)
    requires AgeOk(c, g) && BusOk(c, g, q) && BusLegal(c, i, q)
    ensures Flat((b: nat) => Waiting(c.Next(i), b), Without(g.Order(), Released(c, i))) ==
      (if i.rvalid then q[1..] else q) + if c.AnyExtReq(i) then Granted(c, i) else []
  {
    var s, rel := g.Order(), Released(c, i);
    var m, h := (b: nat) => AfterEdge(c, i, b), (b: nat) => Waiting(c.Next(i), b);
    forall b | b in s ensures AfterEdge(c, i, b) == AfterResponse(c, i, b) + GrantedTo(c, i, b) {
      AfterEdgeIs(c, i, g, q, b);
    }
    PopQueue(c, i, g, q);
    GrantQueue(c, i, g, q, m);
    WithoutMembers(s, rel);
    FlatWithout(m, s, rel);
    FlatSame(m, h, Without(s, rel));
  }

  lemma AllocatedFields(c: Cache, i: Inputs, b: nat)
    requires c.Alloc(i, b)
    ensures var n := c.Next(i).F(b);
      n.extCnt == c.Count(c.SpecReq(i) && i.gnt) && n.rvdCnt == 0 &&
      n.line == c.LookupAddr(i).line && n.beat == c.LookupAddr(i).beat &&
      n.busy && (c.SpecReq(i) && !i.gnt ==> n.extHold)
  {
  }

  lemma FreshWaiting(n: Cache, a: nat)
    requires n.F(a).rvdCnt == 0 && n.F(a).extCnt <= 1 && n.F(a).beat < n.cfg.beats
    ensures Waiting(n, a) == if n.F(a).extCnt == 1 then [Beat(a, n.F(a).line, n.F(a).beat)] else []
  {
    var f := n.F(a);
    SmallMod(f.beat, n.cfg.beats);
    assert f.beat + 0 + 0 == f.beat;
  }

  lemma SpeculativeGrant(c: Cache, i: Inputs)
    requires c.LookupReq(i) && !c.AnyExtReq(i)
    ensures var w := c.LookupAddr(i);
      Granted(c, i) == if c.SpecReq(i) && i.gnt then [Beat(c.AllocIndex(0), w.line, w.beat)] else []
  {
  }

  /** The allocated buffer waits for its speculative request alone. */
  lemma AllocatedWaiting(c: Cache, i: Inputs, g: Age, q: seq<Beat>)
    requires AgeOk(c, g) && BusOk(c, g, q) && BusLegal(c, i, q) && c.LookupReq(i)
    ensures Waiting(c.Next(i), c.AllocIndex(0)) ==
      if !c.AnyExtReq(i) then Granted(c, i) else []
  {
    var a := c.AllocIndex(0);
    AllocUnique(c, i, a);
    AllocatedFields(c, i, a);
    FreshWaiting(c.Next(i), a);
    if !c.AnyExtReq(i) {
      SpeculativeGrant(c, i);
    }
  }

  lemma FlatOne(f: nat -> seq<Beat>, b: nat)
    ensures Flat(f, [b]) == f(b)
  {
  }

  lemma GrantedBy(c: Cache, i: Inputs)
    ensures !c.AnyExtReq(i) && !c.LookupReq(i) ==> Granted(c, i) == []
  {
  }

  lemma AllocatedFlat(c: Cache, i: Inputs, g: Age, q: seq<Beat>)
    requires AgeOk(c, g) && BusOk(c, g, q) && BusLegal(c, i, q)
    ensures Flat((b: nat) => Waiting(c.Next(i), b), Allocated(c, i)) == if c.AnyExtReq(i) then [] else Granted(c, i)
  {
    if c.LookupReq(i) {
      AllocatedWaiting(c, i, g, q);
      FlatOne((b: nat) => Waiting(c.Next(i), b), c.AllocIndex(0));
    } else {
      GrantedBy(c, i);
    }
  }

  lemma GrantEitherWay(rest: seq<Beat>, granted: seq<Beat>, before: bool)
    ensures (rest + if before then granted else []) + (if before then [] else granted) == rest + granted
  {
  }

  lemma NextFlat(c: Cache, i: Inputs, g: Age, q: seq<Beat>)
    requires AgeOk(c, g) && BusOk(c, g, q) && BusLegal(c, i, q)
    ensures NextQueue(c, i, q) ==
            Flat((b: nat) => Waiting(c.Next(i), b), NextAge(c, i, g).Order())
  {
    NextOrder(c, i, g);
    PushQueue(c, i, g, q);
    AllocatedFlat(c, i, g, q);
    FlatConcat((b: nat) => Waiting(c.Next(i), b), Without(g.Order(), Released(c, i)), Allocated(c, i));
    GrantEitherWay(if i.rvalid then q[1..] else q, Granted(c, i), c.AnyExtReq(i));
  }

  /** The bus invariant is kept by every clock edge. */
  lemma BusStep(c: Cache, i: Inputs, g: Age, q: seq<Beat>)
    requires AgeOk(c, g) && BusOk(c, g, q) && BusLegal(c, i, q)
    ensures BusOk(c.Next(i), NextAge(c, i, g), NextQueue(c, i, q))
  {
    var n, h := c.Next(i), NextAge(c, i, g);
    NextRanges(c, i, g, q);
    NextFlat(c, i, g, q);
    forall b | b in h.Order() ensures CountersOk(n, b) {
      NextCounters(c, i, g, q, b);
    }
    AgeStep(c, i, g);
    forall b, a | b in h.Order() && a in n.F(b).older ensures InTurn(n, a, b) {
      NextInTurn(c, i, g, q, a, b);
    }
  }

  /** A held request is made, for the same word, in the cycle after it was held. */
  lemma HeldRequest(n: Cache, i: Inputs, h: Age, q: seq<Beat>, b: nat)
    requires AgeOk(n, h) && BusOk(n, h, q)
    requires n.F(b).busy && n.F(b).extHold
    ensures n.InstrReq(i) && n.InstrAddr(i) == (n.F(b).line, n.ExtOff(b))
  {
    assert b in h.Order();
    forall a | a in n.F(b).older ensures !n.ExtReq(i, a) {
      OlderIrreflexive(n, h, a, b);
      assert a in h.Order() && InTurn(n, a, b) && CountersOk(n, a);
      ExtDoneStays(n, i, a);
    }
    ExtSelIs(n, i, h, b);
  }

  lemma KeptHold(c: Cache, i: Inputs, b: nat)
    requires b < c.cfg.buffers && c.F(b).busy && CountersOk(c, b) && c.ExtArb(i, b) && !i.gnt
    ensures var n := c.Next(i).F(b);
      n.busy && n.extHold && n.line == c.F(b).line && n.beat == c.F(b).beat && n.extCnt == c.F(b).extCnt
  {
    if c.F(b).extDone {
      ExtDoneStays(c, i, b);
    }
  }

  lemma SameExtOff(c: Cache, n: Cache, b: nat)
    requires n.cfg == c.cfg && n.F(b).beat == c.F(b).beat && n.F(b).extCnt == c.F(b).extCnt
    ensures n.ExtOff(b) == c.ExtOff(b)
  {
  }

  lemma FirstExtOff(n: Cache, b: nat)
    requires n.F(b).beat < n.cfg.beats && n.F(b).extCnt == 0
    ensures n.ExtOff(b) == n.F(b).beat
  {
    SmallMod(n.F(b).beat, n.cfg.beats);
  }

  lemma BecomesHeldExt(c: Cache, i: Inputs, g: Age, q: seq<Beat>)
    requires AgeOk(c, g) && BusOk(c, g, q) && c.AnyExtReq(i) && !i.gnt
    ensures var b := c.ExtSel(i, 0);
      c.Next(i).F(b).busy && c.Next(i).F(b).extHold &&
      (c.Next(i).F(b).line, c.Next(i).ExtOff(b)) == c.InstrAddr(i)
  {
    var b := c.ExtSel(i, 0);
    ExtSelGranted(c, i, g);
    assert CountersOk(c, b);
    KeptHold(c, i, b);
    SameExtOff(c, c.Next(i), b);
    assert c.InstrAddr(i) == (c.F(b).line, c.ExtOff(b));
  }

  lemma BecomesHeldSpec(c: Cache, i: Inputs, g: Age, q: seq<Beat>)
    requires AgeOk(c, g) && BusOk(c, g, q) && BusLegal(c, i, q)
    requires c.InstrReq(i) && !c.AnyExtReq(i) && !i.gnt
    ensures var b := c.AllocIndex(0);
      c.Next(i).F(b).busy && c.Next(i).F(b).extHold &&
      (c.Next(i).F(b).line, c.Next(i).ExtOff(b)) == c.InstrAddr(i)
  {
    var b := c.AllocIndex(0);
    AllocUnique(c, i, b);
    AllocatedFields(c, i, b);
    FirstExtOff(c.Next(i), b);
    assert c.InstrAddr(i) == (c.LookupAddr(i).line, c.LookupAddr(i).beat);
  }

  /** A request that is not granted is made again in the next cycle, for the same word. */
  lemma RequestHeld(c: Cache, i: Inputs, i': Inputs, g: Age, q: seq<Beat>)
    requires AgeOk(c, g) && BusOk(c, g, q) && BusLegal(c, i, q)
    requires c.InstrReq(i) && !i.gnt
    ensures c.Next(i).InstrReq(i') && c.Next(i).InstrAddr(i') == c.InstrAddr(i)
  {
    AgeStep(c, i, g);
    BusStep(c, i, g, q);
    if c.AnyExtReq(i) {
      BecomesHeldExt(c, i, g, q);
    } else {
      BecomesHeldSpec(c, i, g, q);
    }
    HeldRequest(c.Next(i), i', NextAge(c, i, g), NextQueue(c, i, q), Issuer(c, i));
  }
}
