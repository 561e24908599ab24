/** Progress of the instruction cache: as long as the word wanted next is not offered, every response, and every grant
    to a buffer that stands before it, brings it nearer, and one of the two can always happen. */
module ICacheLive {
  import opened ICacheModel
  import opened ICacheAge
  import opened ICacheBus
  import opened ICacheData
  import opened ICacheRun

  // ------------------------------------------------------------------ how far the word is

  /** Grants and responses the buffer can still take. */
  function Todo(c: Cache, b: nat): int {
    2 * c.cfg.beats - c.F(b).extCnt - c.F(b).rvdCnt
  }

  function Sum(f: nat -> int, s: seq<nat>): int {
    if s == [] then 0 else f(s[0]) + Sum(f, s[1..])
  }

  /** The buffers the word depends on: all up to the oldest that still has to deliver. */
  function Needed(g: Age): seq<nat>
    requires g.pend != []
  {
    g.past + [g.pend[0]]
  }

  function Distance(c: Cache, g: Age): int
    requires g.pend != []
  {
    Sum((b: nat) => Todo(c, b), Needed(g))
  }

  /** A response, and a grant to one of these buffers. */
  function Useful(c: Cache, i: Inputs, g: Age): nat
    requires g.pend != []
  {
    c.Count(i.rvalid) + c.Count(c.AnyExtReq(i) && i.gnt && c.ExtSel(i, 0) in Needed(g))
  }

  lemma {:induction false} SumWithout(f: nat -> int, s: seq<nat>, gone: set<nat>)
    requires forall b | b in s :: f(b) >= 0
    ensures Sum(f, Without(s, gone)) <= Sum(f, s)
  {
    if s != [] {
      SumWithout(f, s[1..], gone);
    }
  }

  lemma {:induction false} SumLast(f: nat -> int, s: seq<nat>, b: nat)
    ensures Sum(f, s + [b]) == Sum(f, s) + f(b)
  {
    if s == [] {
      assert s + [b] == [b];
    } else {
      assert (s + [b])[1..] == s[1..] + [b];
      SumLast(f, s[1..], b);
    }
  }

  /** Two members, or one that counts twice, have less to do. */
  lemma {:induction false} SumLess(f: nat -> int, h: nat -> int, s: seq<nat>, x: nat, dx: nat, w: nat, dw: nat)
    requires forall b | b in s :: h(b) + (if b == x then dx else 0) + (if b == w then dw else 0) <= f(b)
    ensures Sum(h, s) + (if x in s then dx else 0) + (if w in s then dw else 0) <= Sum(f, s)
  {
    if s != [] {
      assert s == [s[0]] + s[1..];
      SumLess(f, h, s[1..], x, dx, w, dw);
    }
  }

  // ------------------------------------------------------------------ why it is not there

  /** The oldest pending buffer has not received its next beat. */
  lemma WordMissing(c: Cache, i: Inputs, g: Age, q: seq<Beat>, mem: Memory)
    requires AgeOk(c, g) && BusOk(c, g, q) && DataOk(c, g, mem) && g.pend != [] && !c.DataValid(i)
    ensures var b, f := g.pend[0], c.F(g.pend[0]);
      && c.Pending(b) && CountersOk(c, b) && b < c.cfg.buffers
      && !f.hit && !c.HitIc1(i, b) && f.beat + f.rvdCnt == f.outCnt < c.cfg.beats
  {
    var b := g.pend[0];
    assert b in g.Order() && b in g.pend && OutOk(c, b) && CountersOk(c, b);
    SelectedIsOldest(c, g, b);
    assert !c.OutArb(i, b);
  }

  /** If it waits for nothing, it still makes requests. */
  lemma StillRequests(c: Cache, i: Inputs, g: Age, q: seq<Beat>, mem: Memory)
    requires AgeOk(c, g) && BusOk(c, g, q) && DataOk(c, g, mem) && g.pend != [] && !c.DataValid(i) && !i.branch
    requires Waiting(c, g.pend[0]) == []
    ensures c.ExtReq(i, g.pend[0]) && !c.F(g.pend[0]).extDone
  {
    WordMissing(c, i, g, q, mem);
  }

  lemma OrderSplit(g: Age)
    requires g.pend != []
    ensures g.Order()[..|g.past| + 1] == Needed(g) && g.Order()[|g.past|] == g.pend[0]
  {
  }

  /** A buffer behind that one is younger. */
  lemma NeededOrYounger(c: Cache, g: Age, b: nat)
    requires AgeOk(c, g) && g.pend != [] && b in g.Order()
    ensures b in Needed(g) || g.pend[0] in c.F(b).older
  {
    var s := g.Order();
    var k :| 0 <= k < |s| && s[k] == b;
    OrderSplit(g);
    if k <= |g.past| {
      assert s[..|g.past| + 1][k] == b;
    } else {
      BeforeByPosition(s, k);
    }
  }

  /** A younger buffer waits for nothing if this one does not. */
  lemma YoungerQuietToo(c: Cache, i: Inputs, g: Age, q: seq<Beat>, mem: Memory, x: nat)
    requires AgeOk(c, g) && BusOk(c, g, q) && DataOk(c, g, mem) && g.pend != [] && !c.DataValid(i) && !i.branch
    requires x in g.Order() && g.pend[0] in c.F(x).older && Waiting(c, g.pend[0]) == []
    ensures Waiting(c, x) == []
  {
    StillRequests(c, i, g, q, mem);
    assert InTurn(c, g.pend[0], x) && CountersOk(c, x);
  }

  lemma FirstWaiting(c: Cache, i: Inputs, g: Age, q: seq<Beat>, mem: Memory, k: nat)
    requires AgeOk(c, g) && BusOk(c, g, q) && DataOk(c, g, mem) && g.pend != [] && !c.DataValid(i) && !i.branch
    requires k < |g.Order()| && Waiting(c, g.Order()[k]) != []
    requires forall j | 0 <= j < k :: Waiting(c, g.Order()[j]) == []
    ensures k <= |g.past|
  {
    if k > |g.past| {
      OrderSplit(g);
      BeforeByPosition(g.Order(), k);
      YoungerQuietToo(c, i, g, q, mem, g.Order()[k]);
    }
  }

  /** Responses come for the buffers the word depends on. */
  lemma ResponseNeeded(c: Cache, i: Inputs, g: Age, q: seq<Beat>, mem: Memory)
    requires AgeOk(c, g) && BusOk(c, g, q) && DataOk(c, g, mem) && BusLegal(c, i, q)
    requires g.pend != [] && !c.DataValid(i) && !i.branch && i.rvalid
    ensures q[0].fb in Needed(g)
  {
    var s, f := g.Order(), (b: nat) => Waiting(c, b);
    var k := FlatHead(f, s);
    assert forall j | 0 <= j < k :: f(s[j]) == Waiting(c, s[j]);
    ResponseToIssuer(c, i, g, q, s[k]);
    FirstWaiting(c, i, g, q, mem, k);
    OrderSplit(g);
    assert s[..|g.past| + 1][k] == s[k];
  }

  /** With a response for the oldest pending buffer a word is offered in the cycle in which it comes. */
  lemma OfferedAtOnce(c: Cache, i: Inputs, g: Age, q: seq<Beat>)
    requires AgeOk(c, g) && BusOk(c, g, q) && BusLegal(c, i, q) && g.pend != [] && i.rvalid
    requires q[0].fb == g.pend[0]
    ensures c.DataValid(i)
  {
    var b := g.pend[0];
    assert b in g.pend && b in g.Order();
    ResponseToIssuer(c, i, g, q, b);
    SelectedIsOldest(c, g, b);
    assert c.OutArb(i, b);
  }

  lemma FlatHas(f: nat -> seq<Beat>, s: seq<nat>, b: nat)
    requires b in s && f(b) != []
    ensures Flat(f, s) != []
  {
    var k :| 0 <= k < |s| && s[k] == b;
    FlatSplit(f, s, k);
  }

  /** Something can always happen that helps: a response is due, or one of these buffers is on the bus. */
  lemma NeverStuck(c: Cache, i: Inputs, g: Age, q: seq<Beat>, mem: Memory)
    requires AgeOk(c, g) && BusOk(c, g, q) && DataOk(c, g, mem) && g.pend != [] && !c.DataValid(i) && !i.branch
    ensures q != [] || (c.InstrReq(i) && c.AnyExtReq(i) && c.ExtSel(i, 0) in Needed(g))
  {
    var b := g.pend[0];
    assert b in g.Order();
    if Waiting(c, b) != [] {
      FlatHas((x: nat) => Waiting(c, x), g.Order(), b);
    } else {
      StillRequests(c, i, g, q, mem);
      WordMissing(c, i, g, q, mem);
      ExtSelGranted(c, i, g);
      NeededOrYounger(c, g, c.ExtSel(i, 0));
    }
  }

  // ------------------------------------------------------------------ every step helps

  /** What one cycle takes from what a buffer has to do. */
  lemma TodoStep(c: Cache, i: Inputs, g: Age, q: seq<Beat>, b: nat)
    requires AgeOk(c, g) && BusOk(c, g, q) && BusLegal(c, i, q) && b in g.Order()
    ensures Todo(c.Next(i), b) >= 0
    ensures Todo(c.Next(i), b) + c.Count(i.rvalid && b == q[0].fb) +
      c.Count(c.AnyExtReq(i) && i.gnt && b == c.ExtSel(i, 0)) == Todo(c, b)
  {
    KeptCounters(c, i, g, q, b);
    NextF(c, i, b);
    if i.rvalid {
      ResponseToIssuer(c, i, g, q, b);
    }
    if c.AnyExtReq(i) {
      ExtSelGranted(c, i, g);
      if c.ExtArb(i, b) {
        ExtSelIs(c, i, g, b);
      }
    }
  }

  lemma NotFinishing(c: Cache, i: Inputs, g: Age)
    requires AgeOk(c, g) && g.pend != [] && !c.DataValid(i) && !i.branch
    ensures NextAge(c, i, g) == Age(Without(g.past, Released(c, i)), g.pend + Allocated(c, i))
    ensures Needed(NextAge(c, i, g)) == Without(g.past, Released(c, i)) + [g.pend[0]]
  {
    var b := g.pend[0];
    assert b in g.pend && b in g.Order();
    assert !c.OutArb(i, b);
  }

  /** The oldest pending buffer stays that, and the word is nearer by every response and every useful grant. */
  lemma Nearer(c: Cache, i: Inputs, g: Age, q: seq<Beat>, mem: Memory)
    requires AgeOk(c, g) && BusOk(c, g, q) && DataOk(c, g, mem) && BusLegal(c, i, q)
    requires g.pend != [] && !c.DataValid(i) && !i.branch
    ensures NextAge(c, i, g).pend != [] && NextAge(c, i, g).pend[0] == g.pend[0]
    ensures Distance(c.Next(i), NextAge(c, i, g)) + Useful(c, i, g) <= Distance(c, g)
  {
    var n, s := c.Next(i), Needed(g);
    var f, h := (b: nat) => Todo(c, b), (b: nat) => Todo(n, b);
    var x, dx := if i.rvalid then q[0].fb else 0, c.Count(i.rvalid);
    var w, dw := c.ExtSel(i, 0), c.Count(c.AnyExtReq(i) && i.gnt);
    forall b | b in s
      ensures h(b) >= 0 && h(b) + (if b == x then dx else 0) + (if b == w then dw else 0) <= f(b)
    {
      assert b in g.Order();
      TodoStep(c, i, g, q, b);
    }
    SumLess(f, h, s, x, dx, w, dw);
    if i.rvalid {
      ResponseNeeded(c, i, g, q, mem);
    }
    NotFinishing(c, i, g);
    SumWithout(h, g.past, Released(c, i));
    SumLast(h, g.past, g.pend[0]);
    SumLast(h, Without(g.past, Released(c, i)), g.pend[0]);
  }

  // ------------------------------------------------------------------ runs

  /** Cycles without a branch in which the word is not offered. */
  ghost predicate Waits(y: System, ins: seq<Inputs>, mem: Memory) {
    ins == [] ||
    (Waits(y, ins[..|ins| - 1], mem) &&
     var z, i := Run(y, ins[..|ins| - 1]), ins[|ins| - 1];
     z.Legal(i, mem) && !i.branch && !z.c.DataValid(i))
  }

  /** The responses and useful grants in them. */
  ghost function Helped(y: System, ins: seq<Inputs>): nat {
    if ins == [] then 0
    else
      var z := Run(y, ins[..|ins| - 1]);
      Helped(y, ins[..|ins| - 1]) + if z.g.pend != [] then Useful(z.c, ins[|ins| - 1], z.g) else 0
  }

  lemma {:induction false} HelpedSoFar(y: System, ins: seq<Inputs>, mem: Memory)
    requires y.Ok(mem) && y.g.pend != [] && Waits(y, ins, mem)
    ensures var z := Run(y, ins);
      && z.Ok(mem) && z.g.pend != [] && z.g.pend[0] == y.g.pend[0]
      && Distance(z.c, z.g) + Helped(y, ins) <= Distance(y.c, y.g)
  {
    if ins != [] {
      var before, i := ins[..|ins| - 1], ins[|ins| - 1];
      HelpedSoFar(y, before, mem);
      var z := Run(y, before);
      StepOk(z, i, mem);
      Nearer(z.c, i, z.g, z.q, mem);
    }
  }

  lemma {:induction false} SumPositive(f: nat -> int, s: seq<nat>, bound: nat)
    requires forall b | b in s :: 0 <= f(b) <= bound
    ensures 0 <= Sum(f, s) <= bound * |s|
  {
    if s != [] {
      SumPositive(f, s[1..], bound);
    }
  }

  function Elements(s: seq<nat>): set<nat> {
    set x | x in s
  }

  lemma {:induction false} DistinctElements(s: seq<nat>)
    requires Distinct(s)
    ensures |Elements(s)| == |s|
  {
    if s != [] {
      DistinctElements(s[1..]);
      assert Elements(s) == {s[0]} + Elements(s[1..]);
    }
  }

  lemma {:induction false} FewElements(e: set<nat>, n: nat)
    requires forall x | x in e :: x < n
    ensures |e| <= n
  {
    if n > 0 {
      FewElements(e - {n - 1}, n - 1);
    } else {
      assert e == {};
    }
  }

  lemma NeededFew(c: Cache, g: Age)
    requires AgeOk(c, g) && g.pend != []
    ensures |Needed(g)| <= c.cfg.buffers
  {
    forall x | x in Elements(g.Order()) ensures x < c.cfg.buffers {
      assert c.F(x).busy;
    }
    DistinctElements(g.Order());
    FewElements(Elements(g.Order()), c.cfg.buffers);
    OrderSplit(g);
  }

  lemma MoreTerms(bound: nat, n: nat, m: nat)
    requires n <= m
    ensures bound * n <= bound * m
  {
  }

  lemma DistanceBounded(c: Cache, g: Age, q: seq<Beat>)
    requires AgeOk(c, g) && BusOk(c, g, q) && g.pend != []
    ensures 0 <= Distance(c, g) <= 2 * c.cfg.beats * c.cfg.buffers
  {
    forall b | b in Needed(g) ensures 0 <= Todo(c, b) <= 2 * c.cfg.beats {
      assert b in g.Order() && CountersOk(c, b);
    }
    SumPositive((b: nat) => Todo(c, b), Needed(g), 2 * c.cfg.beats);
    NeededFew(c, g);
    MoreTerms(2 * c.cfg.beats, |Needed(g)|, c.cfg.buffers);
  }

  /** The word arrives: from any state a run leads to, the cycles without a branch that do not offer the next word have
      no more responses and useful grants between them than two for every beat of every buffer; and after them, as long
      as it is not offered, a response is due or a buffer asks for a useful grant. */
  lemma WordArrives(c: Cache, ins: seq<Inputs>, more: seq<Inputs>, mem: Memory)
    requires c.Init() && LegalRun(Reset(c), ins, mem)
    requires Run(Reset(c), ins).g.pend != [] && Waits(Run(Reset(c), ins), more, mem)
    ensures var y := Run(Reset(c), ins); var z := Run(y, more);
      && Helped(y, more) <= Distance(y.c, y.g) <= 2 * c.cfg.beats * c.cfg.buffers
      && z.g.pend != [] && z.g.pend[0] == y.g.pend[0]
      && forall i: Inputs :: !i.branch && !z.c.DataValid(i) ==>
           z.q != [] || (z.c.InstrReq(i) && z.c.AnyExtReq(i) && z.c.ExtSel(i, 0) in Needed(z.g))
  {
    RunOk(c, ins, mem);
    RunConfig(c, ins);
    var y := Run(Reset(c), ins);
    HelpedSoFar(y, more, mem);
    var z := Run(y, more);
    DistanceBounded(y.c, y.g, y.q);
    DistanceBounded(z.c, z.g, z.q);
    forall i: Inputs | !i.branch && !z.c.DataValid(i)
      ensures z.q != [] || (z.c.InstrReq(i) && z.c.AnyExtReq(i) && z.c.ExtSel(i, 0) in Needed(z.g))
    {
      NeverStuck(z.c, i, z.g, z.q, mem);
    }
  }
}
