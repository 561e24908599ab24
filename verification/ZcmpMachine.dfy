/** What the Zcmp instructions are for, on a machine with registers and a memory of bytes. */
module ZcmpMachine {
  import opened Zcmp

  const SPACE: nat := 0x1_0000_0000

  type Byte = b: nat | b < 0x100

  type Value = v: nat | v < SPACE

  type Memory = nat -> Byte

  // ------------------------------------------------------------------ the machine

  /** Register x0 reads as zero whatever the map holds. */
  datatype Machine = Machine(regs: nat -> Value, mem: Memory, pc: Value) {
    function Reg(r: nat): Value {
      if r == 0 then 0 else regs(r)
    }
  }

  function Wrap(a: int): Value {
    a % SPACE
  }

  function ByteOf(v: Value, i: nat): Byte {
    if i == 0 then v % 0x100
    else if i == 1 then v / 0x100 % 0x100
    else if i == 2 then v / 0x1_0000 % 0x100
    else v / 0x100_0000
  }

  function WriteWord(mem: Memory, a: Value, v: Value): Memory {
    (x: nat) =>
      if x == a then ByteOf(v, 0)
      else if x == Wrap(a + 1) then ByteOf(v, 1)
      else if x == Wrap(a + 2) then ByteOf(v, 2)
      else if x == Wrap(a + 3) then ByteOf(v, 3)
      else mem(x)
  }

  function ReadWord(mem: Memory, a: Value): Value {
    mem(a) + 0x100 * mem(Wrap(a + 1)) + 0x1_0000 * mem(Wrap(a + 2)) + 0x100_0000 * mem(Wrap(a + 3))
  }

  lemma Bytes(v: Value)
    ensures ByteOf(v, 0) + 0x100 * ByteOf(v, 1) + 0x1_0000 * ByteOf(v, 2) + 0x100_0000 * ByteOf(v, 3) == v
  {
    assert v == v % 0x100 + 0x100 * (v / 0x100);
    assert v / 0x100 == v / 0x100 % 0x100 + 0x100 * (v / 0x1_0000);
    assert v / 0x1_0000 == v / 0x1_0000 % 0x100 + 0x100 * (v / 0x100_0000);
  }

  lemma ReadAfterWrite(mem: Memory, a: Value, v: Value)
    ensures ReadWord(WriteWord(mem, a, v), a) == v
  {
    Bytes(v);
    assert a != Wrap(a + 1) && a != Wrap(a + 2) && a != Wrap(a + 3);
    assert Wrap(a + 1) != Wrap(a + 2) && Wrap(a + 1) != Wrap(a + 3) && Wrap(a + 2) != Wrap(a + 3);
  }

  function Updated(regs: nat -> Value, r: nat, v: Value, x: nat): Value {
    if x == r then v else regs(x)
  }

  /** Writes to x0 have no effect. */
  function SetReg(m: Machine, r: nat, v: Value): Machine {
    if r == 0 then m else m.(regs := (x: nat) => Updated(m.regs, r, v, x))
  }

  function Execute(m: Machine, op: Micro): Machine {
    match op {
      case Store(src, base, offset) => m.(mem := WriteWord(m.mem, Wrap(m.Reg(base) + offset), m.Reg(src)))
      case Load(dest, base, offset) => SetReg(m, dest, ReadWord(m.mem, Wrap(m.Reg(base) + offset)))
      case AddImm(dest, src, imm) => SetReg(m, dest, Wrap(m.Reg(src) + imm))
      case JumpReg(dest, base, offset) =>
        var target := Wrap(m.Reg(base) + offset);
        SetReg(m, dest, m.pc).(pc := target - target % 2)
      case Unknown => m
    }
  }

  function ExecuteAll(m: Machine, ops: seq<Micro>): Machine {
    if ops == [] then m else Execute(ExecuteAll(m, ops[..|ops| - 1]), ops[|ops| - 1])
  }

  // ------------------------------------------------------------------ what the instructions are to do

  /** The registers in the order of the standard: ra, then s0 to s11. */
  function Numbered(k: nat): nat {
    if k == 0 then 1 else if k <= 2 then 7 + k else 15 + k
  }

  /** How many of them are listed; s10 and s11 come together. */
  function Count(rlist: nat): nat
    requires 4 <= rlist < 16
  {
    if rlist == 15 then 13 else rlist - 3
  }

  /** Register number `j` from the end of the list: the order in which they are stored. */
  function ListReg(rlist: nat, j: nat): nat
    requires 4 <= rlist < 16 && j < Count(rlist)
  {
    Numbered(Count(rlist) - 1 - j)
  }

  /** Where it is stored, for the stack pointer before the push. */
  function Slot(sp: nat, j: nat): nat {
    Wrap(sp - 4 * (j + 1))
  }

  function PushOps(rlist: nat, j: nat): (ops: seq<Micro>)
    requires 4 <= rlist < 16 && j <= Count(rlist)
    ensures |ops| == j
  {
    if j == 0 then [] else PushOps(rlist, j - 1) + [Store(ListReg(rlist, j - 1), 2, -4 * j)]
  }

  function PopOps(rlist: nat, adj: nat, j: nat): (ops: seq<Micro>)
    requires 4 <= rlist < 16 && j <= Count(rlist)
    ensures |ops| == j
  {
    if j == 0 then [] else PopOps(rlist, adj, j - 1) + [Load(ListReg(rlist, j - 1), 2, adj - 4 * j)]
  }

  function Adjustment(rlist: nat, spimm: nat): nat
    requires 4 <= rlist < 16 && spimm < 4
  {
    (Count(rlist) * 4 + 15) / 16 * 16 + 16 * spimm
  }

  predicate Legal(kind: Kind, rlist: nat) {
    match kind {
      case Other => false
      case MvSA | MvAS => true
      case _ => rlist >= 4
    }
  }

  /** The loads and the move of the stack pointer. */
  function PopAll(rlist: nat, spimm: nat): seq<Micro>
    requires 4 <= rlist < 16 && spimm < 4
  {
    var adj := Adjustment(rlist, spimm);
    PopOps(rlist, adj, Count(rlist)) + [AddImm(2, 2, adj)]
  }

  /** The whole expansion of an instruction that is not reserved. */
  function Expansion(kind: Kind, rlist: nat, spimm: nat, r1s: nat, r2s: nat): seq<Micro>
    requires Legal(kind, rlist) && rlist < 16 && spimm < 4
  {
    match kind {
      case Push => PushOps(rlist, Count(rlist)) + [AddImm(2, 2, 0 - Adjustment(rlist, spimm))]
      case MvSA => [AddImm(SavedReg(r1s), 10, 0), AddImm(SavedReg(r2s), 11, 0)]
      case MvAS => [AddImm(10, SavedReg(r1s), 0), AddImm(11, SavedReg(r2s), 0)]
      case Pop => PopAll(rlist, spimm)
      case PopRet => PopAll(rlist, spimm) + [JumpReg(0, 1, 0)]
      case PopRetZ => PopAll(rlist, spimm) + [AddImm(10, 0, 0), JumpReg(0, 1, 0)]
    }
  }

  lemma ListRegs(rlist: nat, j: nat)
    requires 4 <= rlist < 16 && j < Count(rlist)
    ensures ListReg(rlist, j) != 0 && ListReg(rlist, j) != 2 && ListReg(rlist, j) < 32
  {
  }

  lemma ExecuteMore(m: Machine, ops: seq<Micro>, op: Micro)
    ensures ExecuteAll(m, ops + [op]) == Execute(ExecuteAll(m, ops), op)
  {
    assert (ops + [op])[..|ops|] == ops;
  }

  // ------------------------------------------------------------------ push

  /** The address `d` bytes below. */
  function Below(sp: Value, d: nat): Value
    requires d < SPACE
  {
    if d <= sp then sp - d else sp + SPACE - d
  }

  /** The bytes of a slot lie one after the other. */
  lemma SlotBytes(sp: Value, j: nat)
    requires j < 13
    ensures Slot(sp, j) == Below(sp, 4 * j + 4) && Wrap(Slot(sp, j) + 1) == Below(sp, 4 * j + 3)
    ensures Wrap(Slot(sp, j) + 2) == Below(sp, 4 * j + 2) && Wrap(Slot(sp, j) + 3) == Below(sp, 4 * j + 1)
  {
  }

  /** A write to a slot changes that slot's bytes only. */
  lemma SlotWrite(mem: Memory, sp: Value, j: nat, v: Value, d: nat)
    requires j < 13 && d < 64 && !(4 * j < d <= 4 * j + 4)
    ensures WriteWord(mem, Slot(sp, j), v)(Below(sp, d)) == mem(Below(sp, d))
  {
    SlotBytes(sp, j);
  }

  lemma OtherSlot(mem: Memory, sp: Value, j: nat, t: nat, v: Value)
    requires t < j < 13
    ensures ReadWord(WriteWord(mem, Slot(sp, j), v), Slot(sp, t)) == ReadWord(mem, Slot(sp, t))
  {
    SlotBytes(sp, t);
    SlotWrite(mem, sp, j, v, 4 * t + 4);
    SlotWrite(mem, sp, j, v, 4 * t + 3);
    SlotWrite(mem, sp, j, v, 4 * t + 2);
    SlotWrite(mem, sp, j, v, 4 * t + 1);
  }

  /** How far below the stack pointer an address is. */
  function Depth(sp: Value, x: Value): (d: nat)
    ensures d < SPACE && Below(sp, d) == x
  {
    if x <= sp then sp - x else sp + SPACE - x
  }

  lemma OutsideSlot(mem: Memory, sp: Value, j: nat, v: Value, x: Value)
    requires j < 13 && !(4 * j < Depth(sp, x) <= 4 * j + 4)
    ensures WriteWord(mem, Slot(sp, j), v)(x) == mem(x)
  {
    SlotBytes(sp, j);
  }

  ghost predicate InSlot(mem: Memory, sp: Value, regs: nat -> Value, rlist: nat, t: nat)
    requires 4 <= rlist < 16 && t < Count(rlist)
  {
    ReadWord(mem, Slot(sp, t)) == regs(ListReg(rlist, t))
  }

  /** The first `j` registers of the list are in their slots. */
  ghost predicate Saved(mem: Memory, sp: Value, regs: nat -> Value, rlist: nat, j: nat)
    requires 4 <= rlist < 16 && j <= Count(rlist)
  {
    forall t | 0 <= t < j :: InSlot(mem, sp, regs, rlist, t)
  }

  /** Memory is as before except at most `n` bytes below the stack pointer. */
  ghost predicate OnlyBelow(now: Memory, mem: Memory, sp: Value, n: nat) {
    forall x: Value | !(1 <= Depth(sp, x) <= n) :: now(x) == mem(x)
  }

  lemma StoreOne(mem0: Memory, mem: Memory, sp: Value, regs: nat -> Value, rlist: nat, j: nat)
    requires 4 <= rlist < 16 && j < Count(rlist)
    requires Saved(mem, sp, regs, rlist, j) && OnlyBelow(mem, mem0, sp, 4 * j)
    ensures var now := WriteWord(mem, Slot(sp, j), regs(ListReg(rlist, j)));
      Saved(now, sp, regs, rlist, j + 1) && OnlyBelow(now, mem0, sp, 4 * j + 4)
  {
    var v := regs(ListReg(rlist, j));
    var now := WriteWord(mem, Slot(sp, j), v);
    ReadAfterWrite(mem, Slot(sp, j), v);
    forall t | 0 <= t < j + 1 ensures InSlot(now, sp, regs, rlist, t) {
      if t < j {
        assert InSlot(mem, sp, regs, rlist, t);
        OtherSlot(mem, sp, j, t, v);
      }
    }
    forall x: Value | !(1 <= Depth(sp, x) <= 4 * j + 4) ensures now(x) == mem0(x) {
      OutsideSlot(mem, sp, j, v, x);
    }
  }

  /** The state of a push after `j` stores: the first `j` registers are saved, and only their slots
      have changed. */
  ghost predicate Pushed(m: Machine, t: Machine, rlist: nat, j: nat)
    requires 4 <= rlist < 16 && j <= Count(rlist)
  {
    && t.regs == m.regs && t.pc == m.pc
    && Saved(t.mem, m.regs(2), m.regs, rlist, j) && OnlyBelow(t.mem, m.mem, m.regs(2), 4 * j)
  }

  lemma StoreEffect(m: Machine, src: nat, offset: int, a: Value)
    requires src != 0 && a == Wrap(m.regs(2) + offset)
    ensures Execute(m, Store(src, 2, offset)) == Machine(m.regs, WriteWord(m.mem, a, m.regs(src)), m.pc)
  {
  }

  lemma StoreStep(m: Machine, t: Machine, rlist: nat, j: nat, src: nat)
    requires 4 <= rlist < 16 && j < Count(rlist) && Pushed(m, t, rlist, j) && src == ListReg(rlist, j)
    ensures Pushed(m, Execute(t, Store(src, 2, -4 * (j + 1))), rlist, j + 1)
  {
    ListRegs(rlist, j);
    StoreEffect(t, src, -4 * (j + 1), Slot(m.regs(2), j));
    StoreOne(m.mem, t.mem, m.regs(2), m.regs, rlist, j);
  }

  lemma {:induction false} StoresSave(m: Machine, rlist: nat, j: nat)
    requires 4 <= rlist < 16 && j <= Count(rlist)
    ensures Pushed(m, ExecuteAll(m, PushOps(rlist, j)), rlist, j)
  {
    if j > 0 {
      StoresSave(m, rlist, j - 1);
      StoreStep(m, ExecuteAll(m, PushOps(rlist, j - 1)), rlist, j - 1, ListReg(rlist, j - 1));
      ExecuteMore(m, PushOps(rlist, j - 1), Store(ListReg(rlist, j - 1), 2, -4 * j));
    }
  }

  ghost predicate PushDone(m: Machine, t: Machine, rlist: nat, adj: int)
    requires 4 <= rlist < 16
  {
    && t.regs(2) == Wrap(m.regs(2) - adj) && (forall r: nat | r != 2 :: t.regs(r) == m.regs(r)) && t.pc == m.pc
    && Saved(t.mem, m.regs(2), m.regs, rlist, Count(rlist))
    && OnlyBelow(t.mem, m.mem, m.regs(2), 4 * Count(rlist)) && 4 * Count(rlist) <= adj
  }

  lemma FrameHolds(rlist: nat, spimm: nat)
    requires 4 <= rlist < 16 && spimm < 4
    ensures 4 * Count(rlist) <= Adjustment(rlist, spimm) < 0x100 && Adjustment(rlist, spimm) % 16 == 0
  {
  }

  lemma LowerStackPointer(m: Machine, t: Machine, rlist: nat, adj: int)
    requires 4 <= rlist < 16 && Pushed(m, t, rlist, Count(rlist)) && 4 * Count(rlist) <= adj
    ensures PushDone(m, Execute(t, AddImm(2, 2, 0 - adj)), rlist, adj)
  {
  }

  lemma PushBy(m: Machine, rlist: nat, adj: int)
    requires 4 <= rlist < 16 && 4 * Count(rlist) <= adj
    ensures PushDone(m, ExecuteAll(m, PushOps(rlist, Count(rlist)) + [AddImm(2, 2, 0 - adj)]), rlist, adj)
  {
    StoresSave(m, rlist, Count(rlist));
    ExecuteMore(m, PushOps(rlist, Count(rlist)), AddImm(2, 2, 0 - adj));
    LowerStackPointer(m, ExecuteAll(m, PushOps(rlist, Count(rlist))), rlist, adj);
  }

  /** A push saves the listed registers in the frame it makes, below the old and above the new stack
      pointer, and changes nothing else. */
  lemma PushSaves(m: Machine, rlist: nat, spimm: nat)
    requires 4 <= rlist < 16 && spimm < 4
    ensures PushDone(m, ExecuteAll(m, Expansion(Push, rlist, spimm, 0, 0)), rlist, Adjustment(rlist, spimm))
  {
    FrameHolds(rlist, spimm);
    PushBy(m, rlist, Adjustment(rlist, spimm));
  }

  // ------------------------------------------------------------------ pop

  ghost predicate Restored(t: Machine, regs: nat -> Value, rlist: nat, k: nat)
    requires 4 <= rlist < 16 && k < Count(rlist)
  {
    t.regs(ListReg(rlist, k)) == regs(ListReg(rlist, k))
  }

  /** Among the first `j` registers, in the order of the loads. */
  ghost predicate Listed(rlist: nat, j: nat, r: nat)
    requires 4 <= rlist < 16 && j <= Count(rlist)
  {
    exists k | 0 <= k < j :: ListReg(rlist, k) == r
  }

  /** The state of a pop after `j` loads, for saved values `regs` and the stack pointer they were
      saved below. */
  ghost predicate Popped(m: Machine, t: Machine, sp: Value, regs: nat -> Value, rlist: nat, j: nat)
    requires 4 <= rlist < 16 && j <= Count(rlist)
  {
    && t.mem == m.mem && t.pc == m.pc
    && (forall k | 0 <= k < j :: Restored(t, regs, rlist, k))
    && (forall r: nat | !Listed(rlist, j, r) :: t.regs(r) == m.regs(r))
  }

  lemma ListDistinct(rlist: nat, j: nat, k: nat)
    requires 4 <= rlist < 16 && j < Count(rlist) && k < Count(rlist) && j != k
    ensures ListReg(rlist, j) != ListReg(rlist, k)
  {
  }

  /** The effect of a load on the registers that matter. */
  ghost predicate Loaded(t: Machine, u: Machine, dest: nat, v: Value) {
    u.mem == t.mem && u.pc == t.pc && u.regs(dest) == v && forall r: nat | r != dest :: u.regs(r) == t.regs(r)
  }

  lemma LoadEffect(m: Machine, dest: nat, offset: int, a: Value)
    requires dest != 0 && a == Wrap(m.regs(2) + offset)
    ensures Loaded(m, Execute(m, Load(dest, 2, offset)), dest, ReadWord(m.mem, a))
  {
  }

  lemma ListedMore(rlist: nat, j: nat, r: nat)
    requires 4 <= rlist < 16 && j < Count(rlist) && !Listed(rlist, j + 1, r)
    ensures ListReg(rlist, j) != r && !Listed(rlist, j, r)
  {
  }

  lemma RestoreOne(m: Machine, t: Machine, u: Machine, sp: Value, regs: nat -> Value, rlist: nat, j: nat)
    requires 4 <= rlist < 16 && j < Count(rlist) && Popped(m, t, sp, regs, rlist, j)
    requires Loaded(t, u, ListReg(rlist, j), regs(ListReg(rlist, j)))
    ensures Popped(m, u, sp, regs, rlist, j + 1)
  {
    forall k | 0 <= k < j + 1 ensures Restored(u, regs, rlist, k) {
      if k < j {
        ListDistinct(rlist, j, k);
        assert Restored(t, regs, rlist, k);
      }
    }
    forall r: nat | !Listed(rlist, j + 1, r) ensures u.regs(r) == m.regs(r) {
      ListedMore(rlist, j, r);
    }
  }

  lemma SlotFromBelow(sp: Value, adj: nat, j: nat)
    requires adj < 0x100 && j < 13
    ensures Wrap(Wrap(sp - adj) + (adj - 4 * (j + 1))) == Slot(sp, j)
  {
    var d := 4 * (j + 1);
    assert Wrap(sp - adj) == if sp >= adj then sp - adj else sp - adj + SPACE;
    assert Wrap(sp - d) == if sp >= d then sp - d else sp - d + SPACE;
    assert Wrap(sp - d + SPACE) == Wrap(sp - d);
  }

  lemma StackPointerUnlisted(rlist: nat, j: nat)
    requires 4 <= rlist < 16 && j <= Count(rlist)
    ensures !Listed(rlist, j, 2)
  {
    forall k | 0 <= k < j ensures ListReg(rlist, k) != 2 {
      ListRegs(rlist, k);
    }
  }

  lemma LoadStep(m: Machine, t: Machine, sp: Value, regs: nat -> Value, rlist: nat, adj: nat, j: nat, dest: nat)
    requires adj < 0x100
    requires 4 <= rlist < 16 && j < Count(rlist) && Popped(m, t, sp, regs, rlist, j) && dest == ListReg(rlist, j)
    requires m.regs(2) == Wrap(sp - adj) && InSlot(m.mem, sp, regs, rlist, j)
    ensures Popped(m, Execute(t, Load(dest, 2, adj - 4 * (j + 1))), sp, regs, rlist, j + 1)
  {
    StackPointerUnlisted(rlist, j);
    ListRegs(rlist, j);
    SlotFromBelow(sp, adj, j);
    LoadEffect(t, dest, adj - 4 * (j + 1), Slot(sp, j));
    RestoreOne(m, t, Execute(t, Load(dest, 2, adj - 4 * (j + 1))), sp, regs, rlist, j);
  }

  lemma LoadNext(m: Machine, t: Machine, sp: Value, regs: nat -> Value, rlist: nat, adj: nat, j: nat)
    requires adj < 0x100
    requires 4 <= rlist < 16 && j < Count(rlist) && Popped(m, t, sp, regs, rlist, j)
    requires m.regs(2) == Wrap(sp - adj) && Saved(m.mem, sp, regs, rlist, Count(rlist))
    ensures Popped(m, Execute(t, Load(ListReg(rlist, j), 2, adj - 4 * (j + 1))), sp, regs, rlist, j + 1)
  {
    assert InSlot(m.mem, sp, regs, rlist, j);
    LoadStep(m, t, sp, regs, rlist, adj, j, ListReg(rlist, j));
  }

  lemma {:induction false} LoadsRestore(m: Machine, sp: Value, regs: nat -> Value, rlist: nat, adj: nat, j: nat)
    requires adj < 0x100
    requires 4 <= rlist < 16 && j <= Count(rlist) && m.regs(2) == Wrap(sp - adj)
    requires Saved(m.mem, sp, regs, rlist, Count(rlist))
    ensures Popped(m, ExecuteAll(m, PopOps(rlist, adj, j)), sp, regs, rlist, j)
  {
    if j > 0 {
      LoadsRestore(m, sp, regs, rlist, adj, j - 1);
      LoadNext(m, ExecuteAll(m, PopOps(rlist, adj, j - 1)), sp, regs, rlist, adj, j - 1);
      ExecuteMore(m, PopOps(rlist, adj, j - 1), Load(ListReg(rlist, j - 1), 2, adj - 4 * j));
    }
  }

  /** A machine in which a function that pushed is about to pop: the stack pointer is where the push
      left it, and the saved registers are still in their slots. Other registers and memory may have
      any contents. */
  ghost predicate ReadyToPop(before: Machine, m: Machine, rlist: nat, spimm: nat)
    requires 4 <= rlist < 16 && spimm < 4
  {
    m.regs(2) == Wrap(before.regs(2) - Adjustment(rlist, spimm)) &&
    Saved(m.mem, before.regs(2), before.regs, rlist, Count(rlist))
  }

  /** Everything the push saved is back, with the stack pointer; memory and all other registers are
      left alone. */
  ghost predicate PopDone(before: Machine, m: Machine, t: Machine, rlist: nat)
    requires 4 <= rlist < 16
  {
    && t.regs(2) == before.regs(2) && t.mem == m.mem
    && (forall k | 0 <= k < Count(rlist) :: Restored(t, before.regs, rlist, k))
    && (forall r: nat | r != 2 && !Listed(rlist, Count(rlist), r) :: t.regs(r) == m.regs(r))
  }

  lemma MoveStackPointer(before: Machine, m: Machine, t: Machine, rlist: nat, adj: nat)
    requires 4 <= rlist < 16 && Popped(m, t, before.regs(2), before.regs, rlist, Count(rlist))
    requires t.regs(2) == Wrap(before.regs(2) - adj)
    ensures var u := Execute(t, AddImm(2, 2, adj)); PopDone(before, m, u, rlist) && u.pc == m.pc
  {
    var u := Execute(t, AddImm(2, 2, adj));
    forall k | 0 <= k < Count(rlist) ensures Restored(u, before.regs, rlist, k) {
      assert Restored(t, before.regs, rlist, k);
      ListRegs(rlist, k);
    }
  }

  lemma PopAllRestores(before: Machine, m: Machine, rlist: nat, spimm: nat)
    requires 4 <= rlist < 16 && spimm < 4 && ReadyToPop(before, m, rlist, spimm)
    ensures var t := ExecuteAll(m, PopAll(rlist, spimm)); PopDone(before, m, t, rlist) && t.pc == m.pc
  {
    var adj := Adjustment(rlist, spimm);
    var loaded := ExecuteAll(m, PopOps(rlist, adj, Count(rlist)));
    FrameHolds(rlist, spimm);
    LoadsRestore(m, before.regs(2), before.regs, rlist, adj, Count(rlist));
    ExecuteMore(m, PopOps(rlist, adj, Count(rlist)), AddImm(2, 2, adj));
    StackPointerUnlisted(rlist, Count(rlist));
    MoveStackPointer(before, m, loaded, rlist, adj);
  }

  /** `cm.pop` undoes `cm.push` with the same fields. */
  lemma PopUndoesPush(before: Machine, m: Machine, rlist: nat, spimm: nat)
    requires 4 <= rlist < 16 && spimm < 4 && ReadyToPop(before, m, rlist, spimm)
    ensures var t := ExecuteAll(m, Expansion(Pop, rlist, spimm, 0, 0)); PopDone(before, m, t, rlist) && t.pc == m.pc
  {
    PopAllRestores(before, m, rlist, spimm);
  }

  /** The return address is in every list. */
  lemma ReturnAddressLast(rlist: nat)
    requires 4 <= rlist < 16
    ensures ListReg(rlist, Count(rlist) - 1) == 1
  {
  }

  lemma ReturnEffect(before: Machine, m: Machine, u: Machine, rlist: nat)
    requires 4 <= rlist < 16 && PopDone(before, m, u, rlist)
    ensures var t := Execute(u, JumpReg(0, 1, 0));
      PopDone(before, m, t, rlist) && t.pc == before.regs(1) - before.regs(1) % 2
  {
    ReturnAddressLast(rlist);
    assert Restored(u, before.regs, rlist, Count(rlist) - 1);
    var t := Execute(u, JumpReg(0, 1, 0));
    assert t.regs == u.regs && t.mem == u.mem;
    forall k | 0 <= k < Count(rlist) ensures Restored(t, before.regs, rlist, k) {
      assert Restored(u, before.regs, rlist, k);
    }
  }

  /** `cm.popret` also returns to the saved return address. */
  lemma PopRetReturns(before: Machine, m: Machine, rlist: nat, spimm: nat)
    requires 4 <= rlist < 16 && spimm < 4 && ReadyToPop(before, m, rlist, spimm)
    ensures var t := ExecuteAll(m, Expansion(PopRet, rlist, spimm, 0, 0));
      PopDone(before, m, t, rlist) && t.pc == before.regs(1) - before.regs(1) % 2
  {
    PopAllRestores(before, m, rlist, spimm);
    ExecuteMore(m, PopAll(rlist, spimm), JumpReg(0, 1, 0));
    ReturnEffect(before, m, ExecuteAll(m, PopAll(rlist, spimm)), rlist);
  }

  lemma ZeroEffect(before: Machine, m: Machine, u: Machine, rlist: nat)
    requires 4 <= rlist < 16 && PopDone(before, m, u, rlist)
    ensures var z := Execute(u, AddImm(10, 0, 0)); PopDone(before, SetReg(m, 10, 0), z, rlist) && z.regs(10) == 0
  {
    var z := Execute(u, AddImm(10, 0, 0));
    forall k | 0 <= k < Count(rlist) ensures Restored(z, before.regs, rlist, k) {
      assert Restored(u, before.regs, rlist, k);
      assert ListReg(rlist, k) != 10;
    }
  }

  /** `cm.popretz` returns zero in a0 as well. */
  lemma PopRetZReturnsZero(before: Machine, m: Machine, rlist: nat, spimm: nat)
    requires 4 <= rlist < 16 && spimm < 4 && ReadyToPop(before, m, rlist, spimm)
    ensures var t := ExecuteAll(m, Expansion(PopRetZ, rlist, spimm, 0, 0));
      && t.regs(10) == 0 && t.pc == before.regs(1) - before.regs(1) % 2
      && PopDone(before, SetReg(m, 10, 0), t, rlist)
  {
    PopAllRestores(before, m, rlist, spimm);
    var u := ExecuteAll(m, PopAll(rlist, spimm));
    var z := Execute(u, AddImm(10, 0, 0));
    ExecuteMore(m, PopAll(rlist, spimm), AddImm(10, 0, 0));
    ExecuteMore(m, PopAll(rlist, spimm) + [AddImm(10, 0, 0)], JumpReg(0, 1, 0));
    assert Expansion(PopRetZ, rlist, spimm, 0, 0) == (PopAll(rlist, spimm) + [AddImm(10, 0, 0)]) + [JumpReg(0, 1, 0)];
    ZeroEffect(before, m, u, rlist);
    ReturnEffect(before, SetReg(m, 10, 0), z, rlist);
  }

  /** Right after the push the machine is ready to pop. */
  lemma PushThenReady(m: Machine, rlist: nat, spimm: nat)
    requires 4 <= rlist < 16 && spimm < 4
    ensures ReadyToPop(m, ExecuteAll(m, Expansion(Push, rlist, spimm, 0, 0)), rlist, spimm)
  {
    PushSaves(m, rlist, spimm);
  }

  // ------------------------------------------------------------------ moves

  lemma SavedRegs(rs: nat)
    requires rs < 8
    ensures SavedReg(rs) == (if rs < 2 then 8 + rs else 16 + rs)
  {
  }

  lemma TwoMoves(m: Machine, d1: nat, s1: nat, d2: nat, s2: nat)
    requires d1 != 0 && d2 != 0 && s1 != 0 && s2 != 0
    ensures var t := ExecuteAll(m, [AddImm(d1, s1, 0), AddImm(d2, s2, 0)]);
      && t.mem == m.mem && t.pc == m.pc && t.regs(d2) == (if s2 == d1 then m.regs(s1) else m.regs(s2))
      && (d1 != d2 ==> t.regs(d1) == m.regs(s1)) && forall r: nat | r != d1 && r != d2 :: t.regs(r) == m.regs(r)
  {
    ExecuteMore(m, [], AddImm(d1, s1, 0));
    ExecuteMore(m, [AddImm(d1, s1, 0)], AddImm(d2, s2, 0));
    assert [AddImm(d1, s1, 0)] + [AddImm(d2, s2, 0)] == [AddImm(d1, s1, 0), AddImm(d2, s2, 0)];
    assert [] + [AddImm(d1, s1, 0)] == [AddImm(d1, s1, 0)];
  }

  /** `cm.mvsa01` puts a0 and a1 into the saved registers, and `cm.mva01s` with the same fields brings
      them back: always if the registers differ, and otherwise, a reserved encoding that is not
      rejected, only if a0 and a1 were equal. */
  lemma MovesUndo(m: Machine, r1s: nat, r2s: nat)
    requires r1s < 8 && r2s < 8
    ensures var t := ExecuteAll(m, Expansion(MvSA, 0, 0, r1s, r2s));
      var u := ExecuteAll(t, Expansion(MvAS, 0, 0, r1s, r2s));
      && t.regs(SavedReg(r2s)) == m.regs(11) && (r1s != r2s ==> t.regs(SavedReg(r1s)) == m.regs(10))
      && (u.regs(10) == m.regs(10) && u.regs(11) == m.regs(11) <==> r1s != r2s || m.regs(10) == m.regs(11))
  {
    SavedRegs(r1s);
    SavedRegs(r2s);
    var t := ExecuteAll(m, Expansion(MvSA, 0, 0, r1s, r2s));
    TwoMoves(m, SavedReg(r1s), 10, SavedReg(r2s), 11);
    TwoMoves(t, 10, SavedReg(r1s), 11, SavedReg(r2s));
  }
}
