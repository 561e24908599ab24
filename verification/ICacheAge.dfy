/** Age order of the fill buffers.

    A history variable lists the busy buffers in the order in which they were allocated, split
    into those that have finished delivering data (or went stale) and those that have not.  The
    `older` bit vectors of the hardware are shown to be exactly this list, for any number of
    buffers, so that every age-based arbiter grants at most one buffer. */
module ICacheAge {
  import opened ICacheModel

  /** Busy buffers, oldest first: `past` finished or stale, then `pend` still delivering. */
  datatype Age = Age(past: seq<nat>, pend: seq<nat>)
  {
    function Order(): seq<nat> {
      past + pend
    }
  }

  ghost predicate Distinct(s: seq<nat>) {
    forall i, j | 0 <= i < j < |s| :: s[i] != s[j]
  }

  /** The elements of `s` that come before `x`. */
  function Before(s: seq<nat>, x: nat): set<nat> {
    if s == [] || s[0] == x then {} else {s[0]} + Before(s[1..], x)
  }

  function Without(s: seq<nat>, gone: set<nat>): seq<nat> {
    if s == [] then []
    else if s[0] in gone then Without(s[1..], gone)
    else [s[0]] + Without(s[1..], gone)
  }

  lemma {:induction false} WithoutMembers(s: seq<nat>, gone: set<nat>)
    ensures forall x :: x in Without(s, gone) <==> x in s && x !in gone
  {
    if s != [] {
      WithoutMembers(s[1..], gone);
    }
  }

  lemma {:induction false} WithoutDistinct(s: seq<nat>, gone: set<nat>)
    requires Distinct(s)
    ensures Distinct(Without(s, gone))
  {
    if s != [] {
      WithoutDistinct(s[1..], gone);
      WithoutMembers(s[1..], gone);
    }
  }

  lemma {:induction false} WithoutBefore(s: seq<nat>, gone: set<nat>, x: nat)
    requires x !in gone
    ensures Before(Without(s, gone), x) == Before(s, x) - gone
  {
    if s != [] && s[0] != x {
      WithoutBefore(s[1..], gone, x);
    } else if s != [] {
      assert Without(s, gone)[0] == x;
    }
  }

  lemma {:induction false} WithoutNone(s: seq<nat>, gone: set<nat>)
    requires forall x | x in s :: x !in gone
    ensures Without(s, gone) == s
  {
    if s != [] {
      WithoutNone(s[1..], gone);
    }
  }

  lemma {:induction false} WithoutConcat(s: seq<nat>, t: seq<nat>, gone: set<nat>)
    ensures Without(s + t, gone) == Without(s, gone) + Without(t, gone)
  {
    if s == [] {
      assert s + t == t;
    } else {
      assert (s + t)[1..] == s[1..] + t;
      WithoutConcat(s[1..], t, gone);
    }
  }

  lemma {:induction false} BeforeConcat(s: seq<nat>, t: seq<nat>, x: nat)
    ensures x in s ==> Before(s + t, x) == Before(s, x)
    ensures x !in s ==> Before(s + t, x) == (set y | y in s) + Before(t, x)
  {
    if s == [] {
      assert s + t == t;
    } else {
      assert (s + t)[1..] == s[1..] + t;
      BeforeConcat(s[1..], t, x);
    }
  }

  /** What precedes a member, by position. */
  lemma {:induction false} BeforeByPosition(s: seq<nat>, k: nat)
    requires k < |s| && Distinct(s)
    ensures forall y :: y in Before(s, s[k]) <==> exists j | 0 <= j < k :: s[j] == y
  {
    if k > 0 {
      var t := s[1..];
      assert t[k - 1] == s[k] && s[0] != s[k];
      BeforeByPosition(t, k - 1);
      forall y ensures y in Before(s, s[k]) <==> exists j | 0 <= j < k :: s[j] == y {
        if y in Before(t, s[k]) {
          var j :| 0 <= j < k - 1 && t[j] == y;
          assert s[j + 1] == y;
        }
        if j :| 0 <= j < k && s[j] == y && j > 0 {
          assert t[j - 1] == y;
        }
      }
    }
  }

  // ------------------------------------------------------------------ history and invariant

  function Released(c: Cache, i: Inputs): set<nat> {
    set b | 0 <= b < c.cfg.buffers && c.F(b).busy && c.Done(i, b)
  }

  /** The oldest pending buffer delivers its last beat. */
  predicate Finishing(c: Cache, i: Inputs, g: Age) {
    |g.pend| > 0 && c.OutArb(i, g.pend[0]) && c.OutputReady(i) &&
    c.F(g.pend[0]).outCnt + 1 >= c.cfg.beats
  }

  function Allocated(c: Cache, i: Inputs): seq<nat> {
    if c.LookupReq(i) then [c.AllocIndex(0)] else []
  }

  function NextAge(c: Cache, i: Inputs, g: Age): Age {
    var rel := Released(c, i);
    if i.branch then Age(Without(g.Order(), rel), Allocated(c, i))
    else if Finishing(c, i, g) then
      Age(Without(g.past, rel) + [g.pend[0]], g.pend[1..] + Allocated(c, i))
    else Age(Without(g.past, rel), g.pend + Allocated(c, i))
  }

  ghost predicate AgeOk(c: Cache, g: Age) {
    && c.cfg.Legal() && |c.fb| == c.cfg.buffers
    && Distinct(g.Order())
    && (forall b: nat :: b in g.Order() <==> c.F(b).busy)
    && (forall b | b in g.Order() :: c.F(b).older == Before(g.Order(), b))
    && (forall b | b in g.past :: !c.Pending(b))
    && (forall b | b in g.pend :: c.Pending(b))
  }

  lemma AllocIndexIs(c: Cache, b: nat)
    requires b <= c.cfg.buffers && !c.AllBusy()
    requires forall a | 0 <= a < b :: c.F(a).busy
    ensures b <= c.AllocIndex(b) < c.cfg.buffers && c.AllocSel(c.AllocIndex(b))
    decreases c.cfg.buffers - b
  {
    if b < c.cfg.buffers && !c.AllocSel(b) {
      AllocIndexIs(c, b + 1);
    }
  }

  /** The allocated buffer is the one `Alloc` selects. */
  lemma AllocUnique(c: Cache, i: Inputs, b: nat)
    requires c.LookupReq(i)
    ensures c.Alloc(i, b) <==> b == c.AllocIndex(0)
    ensures c.AllocIndex(0) < c.cfg.buffers && !c.F(c.AllocIndex(0)).busy
  {
    AllocIndexIs(c, 0);
  }

  lemma NextF(c: Cache, i: Inputs, b: nat)
    ensures b < c.cfg.buffers ==> c.Next(i).F(b) == c.NextBuffer(i, b)
    ensures b >= c.cfg.buffers ==> c.Next(i).F(b) == Cache.IdleBuffer()
  {
  }

  /** Two different busy buffers: one is older than the other. */
  lemma Total(c: Cache, g: Age, a: nat, b: nat)
    requires AgeOk(c, g) && c.F(a).busy && c.F(b).busy && a != b
    ensures (a in c.F(b).older) != (b in c.F(a).older)
  {
    var s := g.Order();
    var ka :| 0 <= ka < |s| && s[ka] == a;
    var kb :| 0 <= kb < |s| && s[kb] == b;
    BeforeByPosition(s, ka);
    BeforeByPosition(s, kb);
  }

  lemma OlderIrreflexive(c: Cache, g: Age, a: nat, b: nat)
    requires AgeOk(c, g) && c.F(b).busy && a in c.F(b).older
    ensures a != b && c.F(a).busy && a < c.cfg.buffers
  {
    var s := g.Order();
    var kb :| 0 <= kb < |s| && s[kb] == b;
    BeforeByPosition(s, kb);
  }

  /** Every arbiter grants at most one buffer. */
  lemma ArbitersOneHot(c: Cache, i: Inputs, g: Age, a: nat, b: nat)
    requires AgeOk(c, g)
    ensures c.ExtArb(i, a) && c.ExtArb(i, b) ==> a == b
    ensures c.RamArb(i, a) && c.RamArb(i, b) ==> a == b
    ensures c.RvdArb(i, a) && c.RvdArb(i, b) ==> a == b
    ensures c.OutArb(i, a) && c.OutArb(i, b) ==> a == b
    ensures c.DataReg(i, a) && c.DataReg(i, b) ==> a == b
  {
    if a != b && c.F(a).busy && c.F(b).busy {
      Total(c, g, a, b);
    }
  }

  /** Only the oldest pending buffer can be selected for output. */
  lemma SelectedIsOldest(c: Cache, g: Age, b: nat)
    requires AgeOk(c, g) && c.Pending(b)
    ensures |g.pend| > 0 && b in g.pend
    ensures c.DataSel(b) <==> b == g.pend[0]
  {
    var s := g.Order();
    assert b in s && b in g.pend;
    var k :| 0 <= k < |g.pend| && g.pend[k] == b;
    assert s[|g.past| + k] == b;
    BeforeByPosition(s, |g.past| + k);
    if k > 0 {
      assert s[|g.past|] == g.pend[0];
      assert g.pend[0] in c.F(b).older;
      assert b != g.pend[0];
    } else {
      forall a | a in c.F(b).older ensures !c.Pending(a) {
        var j :| 0 <= j < |g.past| && s[j] == a;
        assert g.past[j] == a;
      }
    }
  }

  lemma ReleasedNotPending(c: Cache, i: Inputs, g: Age)
    requires AgeOk(c, g) && !i.branch
    ensures Without(g.Order(), Released(c, i)) == Without(g.past, Released(c, i)) + g.pend
  {
    WithoutConcat(g.past, g.pend, Released(c, i));
    WithoutNone(g.pend, Released(c, i));
  }

  /** Moving the oldest pending buffer to the past keeps the order. */
  lemma OrderRegrouped(kept: seq<nat>, pend: seq<nat>, alloc: seq<nat>)
    ensures kept + (pend + alloc) == kept + pend + alloc
    ensures pend != [] ==> (kept + [pend[0]]) + (pend[1..] + alloc) == kept + pend + alloc
  {
  }

  lemma NextOrder(c: Cache, i: Inputs, g: Age)
    requires AgeOk(c, g)
    ensures NextAge(c, i, g).Order() == Without(g.Order(), Released(c, i)) + Allocated(c, i)
  {
    if !i.branch {
      ReleasedNotPending(c, i, g);
      OrderRegrouped(Without(g.past, Released(c, i)), g.pend, Allocated(c, i));
    }
  }

  lemma NextBusy(c: Cache, i: Inputs, g: Age, b: nat)
    requires AgeOk(c, g)
    ensures b in NextAge(c, i, g).Order() <==> c.Next(i).F(b).busy
  {
    NextOrder(c, i, g);
    WithoutMembers(g.Order(), Released(c, i));
    NextF(c, i, b);
    if c.LookupReq(i) {
      AllocUnique(c, i, b);
    }
  }

  lemma NextDistinct(c: Cache, i: Inputs, g: Age)
    requires AgeOk(c, g)
    ensures Distinct(NextAge(c, i, g).Order())
  {
    NextOrder(c, i, g);
    WithoutMembers(g.Order(), Released(c, i));
    WithoutDistinct(g.Order(), Released(c, i));
    if c.LookupReq(i) {
      AllocUnique(c, i, 0);
    }
  }

  lemma OlderOfAllocated(c: Cache, i: Inputs, g: Age, b: nat)
    requires AgeOk(c, g) && c.Alloc(i, b)
    ensures c.OlderD(i, b) == Before(Without(g.Order(), Released(c, i)) + [b], b)
  {
    var rest := Without(g.Order(), Released(c, i));
    WithoutMembers(g.Order(), Released(c, i));
    BeforeConcat(rest, [b], b);
    assert b !in rest;
    assert Before([b], b) == {};
    forall a ensures a in c.OlderD(i, b) <==> a in rest {
      assert a in rest ==> c.F(a).busy && a < c.cfg.buffers;
    }
  }

  lemma OlderOfKept(c: Cache, i: Inputs, g: Age, b: nat, tail: seq<nat>)
    requires AgeOk(c, g) && c.F(b).busy && !c.Done(i, b)
    ensures c.OlderD(i, b) == Before(Without(g.Order(), Released(c, i)) + tail, b)
  {
    var s, rel := g.Order(), Released(c, i);
    WithoutMembers(s, rel);
    BeforeConcat(Without(s, rel), tail, b);
    WithoutBefore(s, rel, b);
    forall a | a in c.F(b).older ensures a in rel <==> c.Done(i, a) {
      OlderIrreflexive(c, g, a, b);
    }
  }

  lemma NextOlder(c: Cache, i: Inputs, g: Age, b: nat)
    requires AgeOk(c, g) && b in NextAge(c, i, g).Order()
    ensures c.Next(i).F(b).older == Before(NextAge(c, i, g).Order(), b)
  {
    NextOrder(c, i, g);
    NextBusy(c, i, g, b);
    NextF(c, i, b);
    if c.LookupReq(i) {
      AllocUnique(c, i, b);
    }
    if c.Alloc(i, b) {
      OlderOfAllocated(c, i, g, b);
    } else {
      OlderOfKept(c, i, g, b, Allocated(c, i));
    }
  }

  /** A pending buffer stays pending until a branch or until it delivers its last beat. */
  lemma PendingKept(c: Cache, i: Inputs, g: Age, b: nat)
    requires AgeOk(c, g) && c.Pending(b)
    ensures c.Next(i).Pending(b) <==> !i.branch && !(Finishing(c, i, g) && b == g.pend[0])
  {
    SelectedIsOldest(c, g, b);
    NextF(c, i, b);
  }

  lemma NotPendingKept(c: Cache, i: Inputs, b: nat)
    requires c.F(b).busy && !c.Pending(b)
    ensures !c.Next(i).Pending(b)
  {
    NextF(c, i, b);
  }

  lemma AllocatedPending(c: Cache, i: Inputs, b: nat)
    requires c.Alloc(i, b) && c.LookupAddr(i).beat < c.cfg.beats
    ensures c.Next(i).Pending(b)
  {
    NextF(c, i, b);
  }

  /** Which buffers are pending after the edge. */
  lemma PendingAfter(c: Cache, i: Inputs, g: Age, b: nat)
    requires AgeOk(c, g) && c.LookupAddr(i).beat < c.cfg.beats
    requires c.F(b).busy || c.Alloc(i, b)
    ensures c.Next(i).Pending(b) <==>
      c.Alloc(i, b) || (b in g.pend && !i.branch && !(Finishing(c, i, g) && b == g.pend[0]))
  {
    if c.Alloc(i, b) {
      AllocatedPending(c, i, b);
    } else if c.Pending(b) {
      SelectedIsOldest(c, g, b);
      PendingKept(c, i, g, b);
    } else {
      NotPendingKept(c, i, b);
    }
  }

  lemma PendDistinct(g: Age, k: nat)
    requires Distinct(g.Order()) && k < |g.pend|
    ensures g.pend[k] in g.pend[1..] <==> k > 0
    ensures g.pend[k] !in g.past
  {
    assert forall j | 0 <= j < |g.pend| :: g.Order()[|g.past| + j] == g.pend[j];
    assert forall j | 0 <= j < |g.past| :: g.Order()[j] == g.past[j];
    assert k > 0 ==> g.pend[1..][k - 1] == g.pend[k];
  }

  lemma NextPend(c: Cache, i: Inputs, g: Age, b: nat)
    requires AgeOk(c, g) && c.LookupAddr(i).beat < c.cfg.beats
    requires b in NextAge(c, i, g).pend
    ensures c.Next(i).Pending(b)
  {
    if c.LookupReq(i) {
      AllocUnique(c, i, b);
    }
    if !c.Alloc(i, b) {
      assert b in g.pend && b in g.Order() && !i.branch;
      if Finishing(c, i, g) {
        PendDistinct(g, 0);
      }
    }
    PendingAfter(c, i, g, b);
  }

  lemma NextPast(c: Cache, i: Inputs, g: Age, b: nat)
    requires AgeOk(c, g) && c.LookupAddr(i).beat < c.cfg.beats
    requires b in NextAge(c, i, g).past
    ensures !c.Next(i).Pending(b)
  {
    WithoutMembers(g.Order(), Released(c, i));
    WithoutMembers(g.past, Released(c, i));
    assert b in g.Order();
    if c.LookupReq(i) {
      AllocUnique(c, i, b);
    }
    PendingAfter(c, i, g, b);
  }

  /** The age invariant is kept by every clock edge, whatever the inputs. */
  lemma AgeStep(c: Cache, i: Inputs, g: Age)
    requires AgeOk(c, g)
    requires c.LookupAddr(i).beat < c.cfg.beats
    ensures AgeOk(c.Next(i), NextAge(c, i, g))
  {
    NextDistinct(c, i, g);
    forall b: nat ensures b in NextAge(c, i, g).Order() <==> c.Next(i).F(b).busy {
      NextBusy(c, i, g, b);
    }
    forall b | b in NextAge(c, i, g).Order()
      ensures c.Next(i).F(b).older == Before(NextAge(c, i, g).Order(), b)
    {
      NextOlder(c, i, g, b);
    }
    forall b | b in NextAge(c, i, g).past ensures !c.Next(i).Pending(b) {
      NextPast(c, i, g, b);
    }
    forall b | b in NextAge(c, i, g).pend ensures c.Next(i).Pending(b) {
      NextPend(c, i, g, b);
    }
  }
}
