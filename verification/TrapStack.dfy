/** What the trap registers of rtl/ibex_cs_registers.sv keep of a handler for non-maskable interrupts that itself
    takes exceptions, further such interrupts and returns: two levels, of which a return outside NMI mode takes back
    only one. */
module TrapStack {
  import opened TrapCsrs

  datatype Event = Trap(pc: nat) | Nmi(pc: nat) | Return

  /** The registers of both levels: current, saved, and stacked. */
  datatype Stack = Stack(nmi: bool, priv: Priv, mie: bool, mpie: bool, mpp: Priv, epc: nat,
                         mpie2: bool, mpp2: Priv, epc2: nat) {

    function Saved(pc: nat, inNmi: bool): Stack {
      Stack(inNmi, PrivM, false, mie, priv, pc, mpie, mpp, epc)
    }

    function Step(e: Event): Stack {
      match e {
        case Trap(pc) => Saved(pc, nmi)
        case Nmi(pc) => Saved(pc, true)
        case Return =>
          if nmi then Stack(false, mpp, mpie, mpie2, mpp2, epc2, mpie2, mpp2, epc2)
          else Stack(false, mpp, mpie, true, PrivU, epc, mpie2, mpp2, epc2)
      }
    }
  }

  function Exec(s: Stack, es: seq<Event>): Stack {
    if es == [] then s else Exec(s, es[..|es| - 1]).Step(es[|es| - 1])
  }

  function Traps(es: seq<Event>): nat {
    if es == [] then 0 else Traps(es[..|es| - 1]) + if es[|es| - 1].Trap? then 1 else 0
  }

  function Nmis(es: seq<Event>): nat {
    if es == [] then 0 else Nmis(es[..|es| - 1]) + if es[|es| - 1].Nmi? then 1 else 0
  }

  /** The traps that have not returned. */
  function Open(es: seq<Event>): int {
    if es == [] then 0 else Open(es[..|es| - 1]) + if es[|es| - 1].Return? then -1 else 1
  }

  /** The handler has not been left. */
  predicate Within(es: seq<Event>) {
    es == [] || (Within(es[..|es| - 1]) && Open(es) >= 0)
  }

  /** A handler up to the return that leaves it: the first that is one more than the traps in it. */
  predicate Handler(es: seq<Event>) {
    es != [] && Within(es[..|es| - 1]) && Open(es) == -1
  }

  /** Non-maskable interrupts are taken outside NMI mode. */
  predicate Taken(s: Stack, es: seq<Event>) {
    es == [] || (Taken(s, es[..|es| - 1]) && (es[|es| - 1].Nmi? ==> !Exec(s, es[..|es| - 1]).nmi))
  }

  /** The address the last return leads to. */
  function Target(s: Stack, es: seq<Event>): nat
    requires es != []
  {
    Exec(s, es[..|es| - 1]).epc
  }

  lemma OneMore(es: seq<Event>, k: nat)
    requires k < |es|
    ensures es[..k + 1] == es[..k] + [es[k]] && es[..k + 1][..k] == es[..k]
    ensures Open(es[..k + 1]) == Open(es[..k]) + if es[k].Return? then -1 else 1
    ensures forall s: Stack :: Exec(s, es[..k + 1]) == Exec(s, es[..k]).Step(es[k])
  {
  }

  lemma ExecAppend(s: Stack, es: seq<Event>, e: Event)
    ensures Exec(s, es + [e]) == Exec(s, es).Step(e)
    ensures Taken(s, es + [e]) <==> Taken(s, es) && (e.Nmi? ==> !Exec(s, es).nmi)
  {
    assert (es + [e])[..|es|] == es;
  }

  // ------------------------------------------------------------------ where a handler stands

  /** An address saved in the handler. */
  predicate SavedIn(es: seq<Event>, pc: nat) {
    Trap(pc) in es || Nmi(pc) in es
  }

  /** After one exception: what was interrupted is on the stack, or has been taken back from it. */
  ghost predicate Holds(s: Stack, es: seq<Event>, t: Stack) {
    if t.nmi then Open(es) == 1 && t.mpie2 == s.mpie && t.mpp2 == s.mpp && t.epc2 == s.epc && SavedIn(es, t.epc)
    else Open(es) == 0 && t.mpie == s.mpie && t.mpp == s.mpp && t.epc == s.epc
  }

  /** After more: all that is left are addresses in the handler, and a last return to U-mode. */
  ghost predicate Lost(es: seq<Event>, t: Stack) {
    && SavedIn(es, t.epc) && (t.nmi ==> Open(es) >= 1 && SavedIn(es, t.epc2))
    && (t.nmi && Open(es) == 1 ==> t.mpie2 && t.mpp2 == PrivU)
    && (!t.nmi && Open(es) == 0 ==> t.mpie && t.mpp == PrivU)
  }

  lemma LostStep(es: seq<Event>, e: Event, t: Stack)
    requires Lost(es, t) && Open(es) >= 0 && Open(es + [e]) >= 0 && (e.Nmi? ==> !t.nmi)
    ensures Lost(es + [e], t.Step(e))
  {
    assert (es + [e])[..|es|] == es;
    assert e in es + [e] && forall x | x in es :: x in es + [e];
  }

  lemma HoldsStep(s: Stack, es: seq<Event>, e: Event, t: Stack)
    requires Holds(s, es, t) && Open(es + [e]) >= 0 && (e.Nmi? ==> !t.nmi)
    ensures if e.Trap? then Lost(es + [e], t.Step(e)) else Holds(s, es + [e], t.Step(e))
  {
    assert (es + [e])[..|es|] == es;
    assert e in es + [e] && forall x | x in es :: x in es + [e];
  }

  /** After none nothing has happened: in NMI mode the first event is one. */
  ghost predicate StandsAt(s: Stack, es: seq<Event>, t: Stack) {
    && (Traps(es) == 0 ==> es == [] && t == s)
    && (Traps(es) == 1 ==> Holds(s, es, t))
    && (Traps(es) > 1 ==> Lost(es, t))
  }

  lemma FirstStep(s: Stack, e: Event)
    requires s.nmi && Open([e]) >= 0 && !e.Nmi?
    ensures Traps([e]) == 1 && Holds(s, [e], s.Step(e))
  {
    assert [e][..|[e]| - 1] == [];
    assert e in [e];
  }

  lemma StandsStep(s: Stack, es: seq<Event>, e: Event, t: Stack)
    requires s.nmi && StandsAt(s, es, t) && Open(es) >= 0 && Open(es + [e]) >= 0 && (e.Nmi? ==> !t.nmi)
    ensures StandsAt(s, es + [e], t.Step(e))
  {
    assert (es + [e])[..|es|] == es;
    if Traps(es) == 0 {
      assert es + [e] == [e];
      FirstStep(s, e);
    } else if Traps(es) == 1 {
      HoldsStep(s, es, e, t);
    } else {
      LostStep(es, e, t);
    }
  }

  lemma {:induction false} Stands(s: Stack, es: seq<Event>)
    requires s.nmi && Within(es) && Taken(s, es)
    ensures StandsAt(s, es, Exec(s, es))
  {
    if es != [] {
      var before, e := es[..|es| - 1], es[|es| - 1];
      assert es == before + [e];
      Stands(s, before);
      StandsStep(s, before, e, Exec(s, before));
    }
  }

  /** With at most one exception both levels are still there. */
  lemma ComesBack(s: Stack, es: seq<Event>)
    requires s.nmi && Handler(es) && Taken(s, es) && Traps(es) <= 1
    ensures var t := Exec(s, es); t.priv == s.mpp && t.mie == s.mpie && Target(s, es) == s.epc
  {
    var before := es[..|es| - 1];
    Stands(s, before);
    assert Open(before) == 0 && Traps(before) == Traps(es);
  }

  /** With more the last return leads to U-mode, at an address in the handler. */
  lemma GoesAstray(s: Stack, es: seq<Event>)
    requires s.nmi && Handler(es) && Taken(s, es) && Traps(es) > 1
    ensures var t := Exec(s, es); t.priv == PrivU && t.mie && SavedIn(es, Target(s, es))
  {
    var before := es[..|es| - 1];
    Stands(s, before);
    assert forall x | x in before :: x in es;
  }

  // ------------------------------------------------------------------ where the last return leads

  lemma {:induction false} OnlyReturns(s: Stack, es: seq<Event>, j: nat, k: nat)
    requires j < k <= |es| && forall i | j < i < |es| :: es[i].Return?
    ensures Open(es[..k]) == Open(es[..j + 1]) - (k - j - 1)
    ensures var t := Exec(s, es[..j + 1]);
      k > j + 1 ==> !Exec(s, es[..k]).nmi && Exec(s, es[..k]).epc == if t.nmi then t.epc2 else t.epc
  {
    if k > j + 1 {
      OnlyReturns(s, es, j, k - 1);
      OneMore(es, k - 1);
    }
  }

  lemma {:induction false} WithinBefore(es: seq<Event>, k: nat)
    requires Within(es) && k <= |es|
    ensures Within(es[..k]) && Open(es[..k]) >= 0
    decreases |es| - k
  {
    if k == |es| {
      assert es[..k] == es;
    } else {
      WithinBefore(es, k + 1);
      OneMore(es, k);
    }
  }

  /** In NMI mode the current address is that of the trap just taken. */
  lemma CurrentInNmi(s: Stack, es: seq<Event>)
    requires Exec(s, es).nmi && es != []
    ensures !es[|es| - 1].Return? && Exec(s, es).epc == es[|es| - 1].pc
  {
  }

  lemma {:induction false} LastTrap(es: seq<Event>) returns (j: nat)
    requires Traps(es) > 0
    ensures j < |es| && !es[j].Return? && forall i | j < i < |es| :: es[i].Return?
  {
    if es[|es| - 1].Return? {
      j := LastTrap(es[..|es| - 1]);
    } else {
      j := |es| - 1;
    }
  }

  lemma {:induction false} NoNmi(es: seq<Event>, k: nat)
    requires Nmis(es) == 0 && k <= |es|
    ensures Nmis(es[..k]) == 0
    decreases |es| - k
  {
    if k == |es| {
      assert es[..k] == es;
    } else {
      NoNmi(es, k + 1);
      assert es[..k + 1][..k] == es[..k];
    }
  }

  lemma {:induction false} NoReturnYet(s: Stack, es: seq<Event>, k: nat)
    requires Nmis(es) == 0 && k <= |es| && Exec(s, es[..k]).nmi
    ensures Open(es[..k]) == Traps(es[..k]) == k
  {
    if k > 0 {
      OneMore(es, k - 1);
      NoNmi(es, k);
      NoReturnYet(s, es, k - 1);
    }
  }

  lemma {:induction false} TrapsBefore(es: seq<Event>, j: nat)
    requires j < |es| && forall i | j < i < |es| :: es[i].Return?
    ensures Traps(es) == Traps(es[..j + 1])
  {
    if j + 1 == |es| {
      assert es[..j + 1] == es;
    } else {
      TrapsBefore(es[..|es| - 1], j);
      assert es[..|es| - 1][..j + 1] == es[..j + 1];
    }
  }

  /** Returns after the last trap are as many as traps open then, and one. */
  lemma ReturnsAfter(s: Stack, es: seq<Event>, j: nat)
    requires Handler(es) && j < |es| && !es[j].Return? && forall i | j < i < |es| :: es[i].Return?
    ensures |es| == j + Open(es[..j + 1]) + 2 && Open(es[..j + 1]) >= 1
  {
    var n := |es|;
    if j < n - 1 {
      WithinBefore(es[..n - 1], j);
      assert es[..n - 1][..j] == es[..j];
    }
    OneMore(es, j);
    OnlyReturns(s, es, j, n);
    assert es[..n] == es;
  }

  /** The last return leads to the address of the last trap, if that was an exception outside NMI mode, and otherwise
      to the one that was current when it was taken. */
  lemma LandsAt(s: Stack, es: seq<Event>, j: nat)
    requires Handler(es) && j < |es| && !es[j].Return? && forall i | j < i < |es| :: es[i].Return?
    ensures var t := Exec(s, es[..j]); Target(s, es) == if es[j].Trap? && !t.nmi then es[j].pc else t.epc
  {
    ReturnsAfter(s, es, j);
    OneMore(es, j);
    OnlyReturns(s, es, j, |es| - 1);
  }

  lemma SameTarget(s: Stack, es: seq<Event>, j: nat)
    requires Handler(es) && j < |es| && !es[j].Return? && forall i | j < i < |es| :: es[i].Return?
    requires Exec(s, es[..j + 1]).nmi ==> Open(es[..j + 1]) >= 2
    ensures |es| > 1 && Target(s, es) == Target(s, es[..|es| - 1])
  {
    var n := |es|;
    ReturnsAfter(s, es, j);
    OnlyReturns(s, es, j, n - 1);
    if n - 2 > j + 1 {
      OnlyReturns(s, es, j, n - 2);
    }
    assert es[..n - 1][..n - 2] == es[..n - 2];
  }

  /** Without a further interrupt the last return repeats the one before it. */
  lemma Repeats(s: Stack, es: seq<Event>)
    requires s.nmi && Handler(es) && Nmis(es) == 0 && Traps(es) > 1
    ensures |es| > 1 && Target(s, es) == Target(s, es[..|es| - 1])
  {
    var j := LastTrap(es);
    TrapsBefore(es, j);
    if Exec(s, es[..j + 1]).nmi {
      NoReturnYet(s, es, j + 1);
    }
    SameTarget(s, es, j);
  }

  // ------------------------------------------------------------------ returns that can be executed

  /** A return is executed in M-mode; elsewhere it is an exception. */
  predicate Executable(s: Stack, es: seq<Event>) {
    es == [] ||
    (Executable(s, es[..|es| - 1])
     && (es[|es| - 1].Return? ==> Exec(s, es[..|es| - 1]).priv.PrivM?)
     && (es[|es| - 1].Nmi? ==> !Exec(s, es[..|es| - 1]).nmi))
  }

  lemma ExecutableAppend(s: Stack, es: seq<Event>, e: Event)
    ensures Executable(s, es + [e]) <==>
      Executable(s, es) && (e.Return? ==> Exec(s, es).priv.PrivM?) && (e.Nmi? ==> !Exec(s, es).nmi)
  {
    assert (es + [e])[..|es|] == es;
  }

  lemma {:induction false} ExecutableBefore(s: Stack, es: seq<Event>, k: nat)
    requires Executable(s, es) && k <= |es|
    ensures Executable(s, es[..k])
    decreases |es| - k
  {
    if k == |es| {
      assert es[..k] == es;
    } else {
      ExecutableBefore(s, es, k + 1);
      assert es[..k + 1][..k] == es[..k];
    }
  }

  /** Returns before one leads out of M-mode. */
  function ReturnsLeft(s: Stack): nat {
    if !s.priv.PrivM? then 0
    else if !s.mpp.PrivM? then 1
    else if !s.nmi || !s.mpp2.PrivM? then 2
    else 3
  }

  lemma LeftStep(s: Stack, e: Event)
    requires (e.Return? ==> s.priv.PrivM?) && (e.Nmi? ==> !s.nmi)
    ensures ReturnsLeft(s.Step(e)) <= ReturnsLeft(s) + if e.Return? then -1 else 1
  {
  }

  lemma {:induction false} ReturnsSuffice(s: Stack, es: seq<Event>, k: nat)
    requires Handler(es) && Executable(s, es) && k <= |es|
    ensures Open(es[..k]) < ReturnsLeft(Exec(s, es[..k]))
    decreases |es| - k
  {
    if k < |es| {
      OneMore(es, k);
      ReturnsSuffice(s, es, k + 1);
      ExecutableBefore(s, es, k + 1);
      LeftStep(Exec(s, es[..k]), es[k]);
    } else {
      assert es[..k] == es;
    }
  }

  /** A handler that is left never has more than two traps open: with three, the returns lead to U-mode, where no
      return can be executed, before the handler is left. */
  lemma AtMostTwoOpen(s: Stack, es: seq<Event>, k: nat)
    requires Handler(es) && Executable(s, es) && k <= |es|
    ensures Open(es[..k]) <= 2
  {
    ReturnsSuffice(s, es, k);
  }

  // ------------------------------------------------------------------ two exceptions

  /** One in the other or one after the other, and the returns of both and of the handler. */
  function TwoTraps(nested: bool, a: nat, b: nat): seq<Event> {
    if nested then [Trap(a)] + [Trap(b)] + [Return] + [Return] + [Return]
    else [Trap(a)] + [Return] + [Trap(b)] + [Return] + [Return]
  }

  /** And one each in the handler and in the handler of a further interrupt. */
  function InTwoHandlers(a: nat, n: nat, b: nat): seq<Event> {
    [Trap(a)] + [Return] + [Nmi(n)] + [Trap(b)] + [Return] + [Return] + [Return]
  }

  /** A part of a handler, with what counts for the parts that follow. */
  ghost predicate Part(s: Stack, es: seq<Event>, open: nat, traps: nat, t: Stack) {
    Within(es) && Executable(s, es) && Open(es) == open && Traps(es) == traps && Exec(s, es) == t
  }

  lemma PartMore(s: Stack, es: seq<Event>, open: nat, traps: nat, t: Stack, e: Event)
    requires Part(s, es, open, traps, t) && (e.Return? ==> open > 0 && t.priv.PrivM?) && (e.Nmi? ==> !t.nmi)
    ensures Part(s, es + [e], if e.Return? then open - 1 else open + 1, if e.Trap? then traps + 1 else traps, t.Step(e))
  {
    ExecAppend(s, es, e);
    ExecutableAppend(s, es, e);
    assert (es + [e])[..|es|] == es;
  }

  lemma PartLast(s: Stack, es: seq<Event>, traps: nat, t: Stack)
    requires Part(s, es, 0, traps, t) && t.priv.PrivM?
    ensures Handler(es + [Return]) && Executable(s, es + [Return]) && Traps(es + [Return]) == traps
  {
    ExecutableAppend(s, es, Return);
    assert (es + [Return])[..|es|] == es;
  }

  lemma PartOne(s: Stack, e: Event)
    requires e.Trap?
    ensures Part(s, [e], 1, 1, s.Step(e))
  {
    PartMore(s, [], 0, 0, s, e);
    assert [] + [e] == [e];
  }

  lemma TwoTrapsHandled(s: Stack, nested: bool, a: nat, b: nat)
    requires s.nmi && s.priv.PrivM?
    ensures var es := TwoTraps(nested, a, b); Handler(es) && Executable(s, es) && Traps(es) == 2
  {
    var e, e' := if nested then Trap(b) else Return, if nested then Return else Trap(b);
    var t1 := s.Step(Trap(a));
    var t2 := t1.Step(e);
    var t3 := t2.Step(e');
    var three := [Trap(a)] + [e] + [e'];
    PartOne(s, Trap(a));
    PartMore(s, [Trap(a)], 1, 1, t1, e);
    PartMore(s, [Trap(a)] + [e], if nested then 2 else 0, if nested then 2 else 1, t2, e');
    PartMore(s, three, 1, 2, t3, Return);
    PartLast(s, three + [Return], 2, t3.Step(Return));
  }

  lemma InTwoHandlersHandled(s: Stack, a: nat, n: nat, b: nat)
    requires s.nmi && s.priv.PrivM?
    ensures var es := InTwoHandlers(a, n, b); Handler(es) && Executable(s, es) && Traps(es) == 2
  {
    var t1 := s.Step(Trap(a));
    var t2 := t1.Step(Return);
    var t3 := t2.Step(Nmi(n));
    var t4 := t3.Step(Trap(b));
    var two := [Trap(a)] + [Return];
    var four := two + [Nmi(n)] + [Trap(b)];
    PartOne(s, Trap(a));
    PartMore(s, [Trap(a)], 1, 1, t1, Return);
    PartMore(s, two, 0, 1, t2, Nmi(n));
    PartMore(s, two + [Nmi(n)], 1, 1, t3, Trap(b));
    PartMore(s, four, 2, 2, t4, Return);
    PartMore(s, four + [Return], 1, 2, t4.Step(Return), Return);
    PartLast(s, four + [Return] + [Return], 2, t4.Step(Return).Step(Return));
  }
}
