/** The fetch FIFO of rtl/ibex_fetch_fifo.sv, for any depth, against a parser that reads the fetched
    words from left to right. */
module FetchFifo {

  /** A 32-bit word as its two halves. */
  datatype Pair = Pair(lo: bv16, hi: bv16)

  /** A word as fetched. */
  datatype Fetch = Fetch(data: Pair, err: bool)

  predicate Compressed(half: bv16) {
    half & 3 != 3
  }

  // ------------------------------------------------------------------ the sequential parser

  /** Addresses count halfwords of a 32-bit address space. */
  const ADDRESSES: nat := 0x8000_0000

  /** An instruction: the upper half is present if it is four bytes long; `plus2` says that only the
      second half could not be fetched. */
  datatype Instr = Short(addr: nat, lo: bv16) | Long(addr: nat, data: Pair, err: bool, plus2: bool)

  datatype Parse = Incomplete | Read(instr: Instr, rest: seq<Fetch>, addr: nat)

  /** The next instruction of the words, the first of which holds the address. */
  function ParseOne(words: seq<Fetch>, addr: nat): (p: Parse)
    ensures p.Read? ==> 0 < |words| && |p.rest| <= |words|
    ensures p.Read? && p.rest == words ==> addr % 2 == 0 && p.addr % 2 == 1
  {
    if words == [] then Incomplete
    else
      var w := words[0];
      if addr % 2 == 0 then
        if Compressed(w.data.lo) && !w.err then
          Read(Short(addr, w.data.lo), words, (addr + 1) % ADDRESSES)
        else
          Read(Long(addr, w.data, w.err, false), words[1..], (addr + 2) % ADDRESSES)
      else if Compressed(w.data.hi) && !w.err then
        Read(Short(addr, w.data.hi), words[1..], (addr + 1) % ADDRESSES)
      else if |words| < 2 then Incomplete
      else
        var v := words[1];
        Read(Long(addr, Pair(w.data.hi, v.data.lo), w.err || v.err, v.err && !w.err),
             words[1..], (addr + 2) % ADDRESSES)
  }

  /** All instructions of the words, from the address on. */
  function ParseAll(words: seq<Fetch>, addr: nat): seq<Instr>
    decreases |words|, 1 - addr % 2
  {
    match ParseOne(words, addr) {
      case Incomplete => []
      case Read(instr, rest, next) =>
        if |rest| < |words| then [instr] + ParseAll(rest, next)
        else [instr] + ParseAll(words, next)
    }
  }

  lemma RestIsSuffix(words: seq<Fetch>, addr: nat)
    ensures var p := ParseOne(words, addr); p.Read? ==> p.rest == words || (|words| > 0 && p.rest == words[1..])
  {
  }

  /** A word that arrives later changes nothing before it. */
  lemma ParseOneMore(words: seq<Fetch>, addr: nat, w: Fetch)
    requires ParseOne(words, addr).Read?
    ensures ParseOne(words + [w], addr) ==
      var p := ParseOne(words, addr); Read(p.instr, p.rest + [w], p.addr)
  {
    assert (words + [w])[0] == words[0];
    assert (words + [w])[1..] == words[1..] + [w];
  }

  // ------------------------------------------------------------------ the circuit

  datatype Input = Input(clear: bool, valid: bool, addr: nat, data: Pair, err: bool, ready: bool) {
    function Fetched(): Fetch {
      Fetch(data, err)
    }
  }

  /** The registers; an entry's data means something only while it is valid. */
  datatype State = State(rdata: seq<Pair>, err: seq<bool>, valid: seq<bool>, addr: nat) {

    predicate Sized() {
      |rdata| == |err| == |valid| >= 2 && addr < ADDRESSES
    }

    // ---------------------------------------------------------------- output

    function Rdata(i: Input): Pair
      requires Sized()
    {
      if valid[0] then rdata[0] else i.data
    }

    predicate Err(i: Input)
      requires Sized()
    {
      if valid[0] then err[0] else i.err
    }

    function RdataUnaligned(i: Input): Pair
      requires Sized()
    {
      Pair(Rdata(i).hi, if valid[1] then rdata[1].lo else i.data.lo)
    }

    predicate UnalignedIsCompressed(i: Input)
      requires Sized()
    {
      Compressed(Rdata(i).hi) && !Err(i)
    }

    predicate AlignedIsCompressed(i: Input)
      requires Sized()
    {
      Compressed(Rdata(i).lo) && !Err(i)
    }

    predicate ErrUnaligned(i: Input)
      requires Sized()
    {
      if valid[1] then (err[1] && !UnalignedIsCompressed(i)) || err[0]
      else (valid[0] && err[0]) || (i.err && (!valid[0] || !UnalignedIsCompressed(i)))
    }

    predicate ErrPlus2(i: Input)
      requires Sized()
    {
      if valid[1] then err[1] && !err[0] else i.err && valid[0] && !err[0]
    }

    predicate Unaligned() {
      addr % 2 == 1
    }

    predicate OutValid(i: Input)
      requires Sized()
    {
      if Unaligned() && !UnalignedIsCompressed(i) then valid[1] || (valid[0] && i.valid)
      else valid[0] || i.valid
    }

    function OutRdata(i: Input): Pair
      requires Sized()
    {
      if Unaligned() then RdataUnaligned(i) else Rdata(i)
    }

    predicate OutErr(i: Input)
      requires Sized()
    {
      if Unaligned() then ErrUnaligned(i) else Err(i)
    }

    predicate OutErrPlus2(i: Input)
      requires Sized()
    {
      Unaligned() && ErrPlus2(i)
    }

    /** What the consumer of the outputs sees: the upper half of a compressed instruction is not
        part of it. */
    function Output(i: Input): Instr
      requires Sized()
    {
      if OutErr(i) || !Compressed(OutRdata(i).lo) then Long(addr, OutRdata(i), OutErr(i), OutErrPlus2(i))
      else Short(addr, OutRdata(i).lo)
    }

    predicate Accepted(i: Input)
      requires Sized()
    {
      i.ready && OutValid(i)
    }

    // ---------------------------------------------------------------- address

    predicate AddrIncrTwo(i: Input)
      requires Sized()
    {
      if Unaligned() then UnalignedIsCompressed(i) else AlignedIsCompressed(i)
    }

    function NextAddr(i: Input): nat
      requires Sized()
    {
      if i.clear then i.addr % ADDRESSES
      else if Accepted(i) then (addr + if AddrIncrTwo(i) then 1 else 2) % ADDRESSES
      else addr
    }

    // ---------------------------------------------------------------- entries

    predicate Pop(i: Input)
      requires Sized()
    {
      Accepted(i) && (!AlignedIsCompressed(i) || Unaligned())
    }

    predicate LowestFree(k: nat)
      requires Sized() && k < |valid|
    {
      !valid[k] && (k == 0 || valid[k - 1])
    }

    predicate Pushed(i: Input, k: nat)
      requires Sized() && k < |valid|
    {
      (i.valid && LowestFree(k)) || valid[k]
    }

    predicate NextValid(i: Input, k: nat)
      requires Sized() && k < |valid|
    {
      !i.clear && if Pop(i) then k + 1 < |valid| && Pushed(i, k + 1) else Pushed(i, k)
    }

    predicate Enabled(i: Input, k: nat)
      requires Sized() && k < |valid|
    {
      if k == |valid| - 1 then i.valid && LowestFree(k)
      else (Pushed(i, k + 1) && Pop(i)) || (i.valid && LowestFree(k) && !Pop(i))
    }

    function NextRdata(i: Input, k: nat): Pair
      requires Sized() && k < |valid|
    {
      if !Enabled(i, k) then rdata[k]
      else if k + 1 < |valid| && valid[k + 1] then rdata[k + 1]
      else i.data
    }

    predicate NextErr(i: Input, k: nat)
      requires Sized() && k < |valid|
    {
      if !Enabled(i, k) then err[k]
      else if k + 1 < |valid| && valid[k + 1] then err[k + 1]
      else i.err
    }

    function Next(i: Input): (s: State)
      requires Sized()
      ensures s.Sized() && |s.valid| == |valid|
    {
      State(seq(|valid|, k requires 0 <= k < |valid| => NextRdata(i, k)),
            seq(|valid|, k requires 0 <= k < |valid| => NextErr(i, k)),
            seq(|valid|, k requires 0 <= k < |valid| => NextValid(i, k)),
            NextAddr(i))
    }

    /** The environment does not push into a full FIFO (rtl/ibex_fetch_fifo.sv:266-267). */
    predicate Legal(i: Input)
      requires Sized()
    {
      i.valid && !i.clear ==> !valid[|valid| - 1]
    }

    // ---------------------------------------------------------------- contents

    /** The valid entries are a prefix and hold these words. */
    ghost predicate Holds(words: seq<Fetch>) {
      Sized() && |words| <= |valid| &&
      forall k | 0 <= k < |valid| :: Slot(words, k)
    }

    ghost predicate Slot(words: seq<Fetch>, k: nat)
      requires Sized() && k < |valid|
    {
      (valid[k] <==> k < |words|) && (k < |words| ==> Fetch(rdata[k], err[k]) == words[k])
    }
  }

  /** The words seen by the output logic: those stored and the one arriving. */
  function Seen(words: seq<Fetch>, i: Input): seq<Fetch> {
    if i.valid then words + [i.Fetched()] else words
  }

  /** The output is the parser's next instruction, exactly when there is one. */
  lemma OutputIsParse(s: State, i: Input, words: seq<Fetch>)
    requires s.Holds(words)
    ensures var p := ParseOne(Seen(words, i), s.addr);
      && (s.OutValid(i) <==> p.Read?)
      && (p.Read? ==>
           && s.Output(i) == p.instr
           && p.rest == (if s.AlignedIsCompressed(i) && !s.Unaligned() then Seen(words, i) else Seen(words, i)[1..])
           && p.addr == (s.addr + if s.AddrIncrTwo(i) then 1 else 2) % ADDRESSES)
  {
    assert s.Slot(words, 0) && s.Slot(words, 1);
    var seen := Seen(words, i);
    assert |seen| > 0 ==> seen[0] == if |words| > 0 then words[0] else i.Fetched();
    assert |seen| > 1 ==> seen[1] == if |words| > 1 then words[1] else i.Fetched();
  }

  // ------------------------------------------------------------------ instruction lengths

  /** The halfword the address points to. */
  function FirstHalf(words: seq<Fetch>, addr: nat): bv16
    requires words != []
  {
    if addr % 2 == 0 then words[0].data.lo else words[0].data.hi
  }

  /** An instruction fetched without an error is two bytes long unless its first halfword ends in two ones; one that is
      not is passed on as four bytes. */
  ghost predicate Delimited(instr: Instr) {
    match instr {
      case Short(_, lo) => lo % 4 != 3
      case Long(_, data, err, _) => err || data.lo % 4 == 3
    }
  }

  /** The address behind an instruction. */
  function Behind(instr: Instr): nat {
    match instr {
      case Short(addr, _) => (addr + 1) % ADDRESSES
      case Long(addr, _, _, _) => (addr + 2) % ADDRESSES
    }
  }

  /** The output begins at the address, with the halfword there; its length is as its first bits say, and the address
      moves on by it. */
  lemma LengthIs(s: State, i: Input, words: seq<Fetch>)
    requires s.Holds(words) && s.OutValid(i)
    ensures Seen(words, i) != [] && s.Output(i).addr == s.addr && Delimited(s.Output(i))
    ensures (if s.Output(i).Short? then s.Output(i).lo else s.Output(i).data.lo) == FirstHalf(Seen(words, i), s.addr)
    ensures i.ready && !i.clear ==> s.Next(i).addr == Behind(s.Output(i))
  {
    OutputIsParse(s, i, words);
  }

  /** The words held after a cycle. */
  function After(s: State, i: Input, words: seq<Fetch>): seq<Fetch>
    requires s.Sized()
  {
    if i.clear then []
    else if s.Pop(i) && |Seen(words, i)| > 0 then Seen(words, i)[1..]
    else Seen(words, i)
  }

  lemma SlotStep(s: State, i: Input, words: seq<Fetch>, k: nat)
    requires s.Holds(words) && s.Legal(i) && k < |s.valid|
    requires s.Pop(i) ==> |Seen(words, i)| > 0
    ensures s.Next(i).Slot(After(s, i, words), k)
  {
    assert s.Slot(words, k);
    if k > 0 {
      assert s.Slot(words, k - 1);
    }
    if k + 1 < |s.valid| {
      assert s.Slot(words, k + 1);
    }
  }

  lemma EntriesStep(s: State, i: Input, words: seq<Fetch>)
    requires s.Holds(words) && s.Legal(i)
    ensures s.Next(i).Holds(After(s, i, words))
  {
    OutputIsParse(s, i, words);
    var t, after := s.Next(i), After(s, i, words);
    assert s.Slot(words, |s.valid| - 1);
    forall k | 0 <= k < |s.valid| ensures t.Slot(after, k) {
      SlotStep(s, i, words, k);
    }
  }

  // ------------------------------------------------------------------ histories

  /** Since the last clear: where it pointed, the words received and the instructions accepted. */
  datatype Log = Log(start: nat, received: seq<Fetch>, accepted: seq<Instr>)

  function NextLog(s: State, i: Input, log: Log): Log
    requires s.Sized()
  {
    if i.clear then Log(i.addr % ADDRESSES, [], [])
    else Log(log.start, Seen(log.received, i), if s.Accepted(i) then log.accepted + [s.Output(i)] else log.accepted)
  }

  /** Parsing the instructions from the words and address leaves the other words and address. */
  ghost predicate Leaves(words: seq<Fetch>, addr: nat, instrs: seq<Instr>, rest: seq<Fetch>, next: nat)
    decreases |instrs|
  {
    if instrs == [] then words == rest && addr == next
    else
      var p := ParseOne(words, addr);
      p.Read? && p.instr == instrs[0] && Leaves(p.rest, p.addr, instrs[1..], rest, next)
  }

  lemma {:induction false} LeavesMore(words: seq<Fetch>, addr: nat, instrs: seq<Instr>,
                                      rest: seq<Fetch>, next: nat, w: Fetch)
    requires Leaves(words, addr, instrs, rest, next)
    ensures Leaves(words + [w], addr, instrs, rest + [w], next)
    decreases |instrs|
  {
    if instrs != [] {
      var p := ParseOne(words, addr);
      ParseOneMore(words, addr, w);
      LeavesMore(p.rest, p.addr, instrs[1..], rest, next, w);
    }
  }

  lemma {:induction false} LeavesNext(words: seq<Fetch>, addr: nat, instrs: seq<Instr>, rest: seq<Fetch>, next: nat)
    requires Leaves(words, addr, instrs, rest, next) && ParseOne(rest, next).Read?
    ensures var p := ParseOne(rest, next); Leaves(words, addr, instrs + [p.instr], p.rest, p.addr)
    decreases |instrs|
  {
    var q := ParseOne(rest, next);
    if instrs == [] {
      assert Leaves(q.rest, q.addr, [], q.rest, q.addr);
    } else {
      var p := ParseOne(words, addr);
      LeavesNext(p.rest, p.addr, instrs[1..], rest, next);
      assert (instrs + [q.instr])[1..] == instrs[1..] + [q.instr];
    }
  }

  /** No word is lost or duplicated: what is left is an end of what there was, and parsing it
      completes the parse of the whole. */
  lemma {:induction false} LeavesSplitsParse(words: seq<Fetch>, addr: nat, instrs: seq<Instr>,
                                             rest: seq<Fetch>, next: nat)
    requires Leaves(words, addr, instrs, rest, next)
    ensures ParseAll(words, addr) == instrs + ParseAll(rest, next)
    ensures |rest| <= |words| && rest == words[|words| - |rest|..]
    decreases |instrs|
  {
    if instrs != [] {
      var p := ParseOne(words, addr);
      RestIsSuffix(words, addr);
      LeavesSplitsParse(p.rest, p.addr, instrs[1..], rest, next);
      assert instrs == [p.instr] + instrs[1..];
    }
  }

  // ------------------------------------------------------------------ runs

  ghost predicate Invariant(s: State, log: Log, words: seq<Fetch>) {
    s.Holds(words) && Leaves(log.received, log.start, log.accepted, words, s.addr)
  }

  lemma Step(s: State, log: Log, words: seq<Fetch>, i: Input)
    requires Invariant(s, log, words) && s.Legal(i)
    ensures Invariant(s.Next(i), NextLog(s, i, log), After(s, i, words))
  {
    EntriesStep(s, i, words);
    OutputIsParse(s, i, words);
    if !i.clear {
      if i.valid {
        LeavesMore(log.received, log.start, log.accepted, words, s.addr, i.Fetched());
      }
      if s.Accepted(i) {
        LeavesNext(Seen(log.received, i), log.start, log.accepted, Seen(words, i), s.addr);
      }
    }
  }

  datatype Machine = Machine(state: State, log: Log)

  ghost function Run(m: Machine, inputs: seq<Input>): (r: Machine)
    requires m.state.Sized()
    ensures r.state.Sized()
    decreases |inputs|
  {
    if inputs == [] then m
    else
      var before := Run(m, inputs[..|inputs| - 1]);
      var i := inputs[|inputs| - 1];
      Machine(before.state.Next(i), NextLog(before.state, i, before.log))
  }

  ghost predicate LegalRun(m: Machine, inputs: seq<Input>)
    requires m.state.Sized()
    decreases |inputs|
  {
    inputs == [] ||
    (LegalRun(m, inputs[..|inputs| - 1]) && Run(m, inputs[..|inputs| - 1]).state.Legal(inputs[|inputs| - 1]))
  }

  /** Out of reset no entry is valid. */
  ghost predicate Reset(m: Machine) {
    m.state.Sized() && (forall k | 0 <= k < |m.state.valid| :: !m.state.valid[k]) &&
    m.log == Log(m.state.addr, [], [])
  }

  /** With the word arriving, if any, the output is the parse's next instruction. */
  ghost predicate OutputNext(r: Machine, words: seq<Fetch>, i: Input) {
    r.state.Sized() &&
    var todo := ParseAll(Seen(words, i), r.state.addr);
    && ParseAll(Seen(r.log.received, i), r.log.start) == r.log.accepted + todo
    && (r.state.OutValid(i) <==> todo != [])
    && (r.state.OutValid(i) ==> r.state.Output(i) == todo[0])
  }

  lemma OutputCompletes(r: Machine, words: seq<Fetch>, i: Input)
    requires Invariant(r.state, r.log, words)
    ensures OutputNext(r, words, i)
  {
    OutputIsParse(r.state, i, words);
    if i.valid {
      LeavesMore(r.log.received, r.log.start, r.log.accepted, words, r.state.addr, i.Fetched());
    }
    LeavesSplitsParse(Seen(r.log.received, i), r.log.start, r.log.accepted, Seen(words, i), r.state.addr);
  }

  /** After any run the instructions accepted since the last clear, followed by the parse of the words
      still held, are the parse of the words received since then; and the output is the parser's next
      instruction, if there is one. */
  lemma {:induction false} RefinesParser(m: Machine, inputs: seq<Input>) returns (words: seq<Fetch>)
    requires Reset(m) && LegalRun(m, inputs)
    ensures var r := Run(m, inputs);
      && Invariant(r.state, r.log, words)
      && ParseAll(r.log.received, r.log.start) == r.log.accepted + ParseAll(words, r.state.addr)
      && |words| <= |r.log.received| && words == r.log.received[|r.log.received| - |words|..]
    ensures forall i :: OutputNext(Run(m, inputs), words, i)
    decreases |inputs|
  {
    var r := Run(m, inputs);
    if inputs == [] {
      words := [];
      forall k | 0 <= k < |m.state.valid| ensures m.state.Slot([], k) {
      }
    } else {
      var i := inputs[|inputs| - 1];
      var before := Run(m, inputs[..|inputs| - 1]);
      var held := RefinesParser(m, inputs[..|inputs| - 1]);
      Step(before.state, before.log, held, i);
      words := After(before.state, i, held);
    }
    LeavesSplitsParse(r.log.received, r.log.start, r.log.accepted, words, r.state.addr);
    forall i ensures OutputNext(r, words, i) {
      OutputCompletes(r, words, i);
    }
  }

  /** Instructions that follow one another from one address to another, each as long as its first bits say. */
  ghost predicate Consecutive(instrs: seq<Instr>, addr: nat, next: nat) {
    if instrs == [] then addr == next
    else instrs[0].addr == addr && Delimited(instrs[0]) && Consecutive(instrs[1..], Behind(instrs[0]), next)
  }

  lemma {:induction false} LeavesConsecutive(words: seq<Fetch>, addr: nat, instrs: seq<Instr>,
                                             rest: seq<Fetch>, next: nat)
    requires Leaves(words, addr, instrs, rest, next)
    ensures Consecutive(instrs, addr, next)
    decreases |instrs|
  {
    if instrs != [] {
      var p := ParseOne(words, addr);
      LeavesConsecutive(p.rest, p.addr, instrs[1..], rest, next);
    }
  }

  /** The instructions accepted since the last clear follow one another from where it pointed. */
  lemma AcceptedConsecutive(m: Machine, inputs: seq<Input>)
    requires Reset(m) && LegalRun(m, inputs)
    ensures var r := Run(m, inputs); Consecutive(r.log.accepted, r.log.start, r.state.addr)
  {
    var words := RefinesParser(m, inputs);
    var r := Run(m, inputs);
    LeavesConsecutive(r.log.received, r.log.start, r.log.accepted, words, r.state.addr);
  }

  // ------------------------------------------------------------------ the registers themselves

  /** The module's registers, all loaded at the clock edge. */
  class Registers {
    const rdata: array<Pair>
    const err: array<bool>
    const valid: array<bool>
    var instrAddr: nat

    ghost predicate Valid()
      reads this, rdata, err, valid
    {
      err != valid && Values().Sized()
    }

    ghost function Values(): State
      reads this, rdata, err, valid
    {
      State(rdata[..], err[..], valid[..], instrAddr)
    }

    constructor (requests: nat)
      requires requests >= 1
      ensures Valid() && fresh(rdata) && fresh(err) && fresh(valid)
      ensures valid.Length == requests + 1
      ensures Reset(Machine(Values(), Log(instrAddr, [], [])))
    {
      rdata := new Pair[requests + 1](_ => Pair(0, 0));
      err := new bool[requests + 1](_ => false);
      valid := new bool[requests + 1](_ => false);
      instrAddr := 0;
    }

    method Clock(i: Input)
      requires Valid()
      modifies this, rdata, err, valid
      ensures Valid() && Values() == old(Values()).Next(i)
    {
      var s := State(rdata[..], err[..], valid[..], instrAddr);
      forall k | 0 <= k < rdata.Length && s.Enabled(i, k) {
        rdata[k] := s.NextRdata(i, k);
      }
      assert rdata[..] == s.Next(i).rdata;
      forall k | 0 <= k < err.Length && s.Enabled(i, k) {
        err[k] := s.NextErr(i, k);
      }
      assert err[..] == s.Next(i).err;
      forall k | 0 <= k < valid.Length {
        valid[k] := s.NextValid(i, k);
      }
      assert valid[..] == s.Next(i).valid;
      instrAddr := s.NextAddr(i);
    }
  }
}
