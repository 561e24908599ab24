/** The Zcmp part of rtl/ibex_compressed_decoder.sv: the micro-operations' encodings and the state
    machine that issues them. */
module Zcmp {
  import Bits

  // ------------------------------------------------------------------ encodings

  const OPCODE_LOAD: nat := 0x03
  const OPCODE_OP_IMM: nat := 0x13
  const OPCODE_STORE: nat := 0x23
  const OPCODE_JALR: nat := 0x67

  /** The sizes of the fields, from bit 0 up, of the immediate and the store formats. */
  const I_FORMAT: seq<nat> := [0x80, 0x20, 8, 0x20, 0x1000]
  const S_FORMAT: seq<nat> := [0x80, 0x20, 8, 0x20, 0x20, 0x80]

  function Pack(fields: seq<nat>, sizes: seq<nat>): nat
    requires |fields| == |sizes|
  {
    if fields == [] then 0 else fields[0] + sizes[0] * Pack(fields[1..], sizes[1..])
  }

  function Unpack(n: nat, sizes: seq<nat>): (fields: seq<nat>)
    ensures |fields| == |sizes|
    decreases |sizes|
  {
    if sizes == [] then []
    else if sizes[0] == 0 then [0] + Unpack(n, sizes[1..])
    else [n % sizes[0]] + Unpack(n / sizes[0], sizes[1..])
  }

  /** Fields that fit are read back as they were written. */
  lemma {:induction false} UnpackOfPack(fields: seq<nat>, sizes: seq<nat>)
    requires |fields| == |sizes| && forall k | 0 <= k < |fields| :: fields[k] < sizes[k]
    ensures Unpack(Pack(fields, sizes), sizes) == fields
  {
    if fields != [] {
      UnpackOfPack(fields[1..], sizes[1..]);
      Bits.ModIs(Pack(fields, sizes), sizes[0], Pack(fields[1..], sizes[1..]), fields[0]);
    }
  }

  /** An instruction by its fields, in the store or the immediate format; other instructions are
      passed on as they are. */
  datatype Word32 =
    | SType(imm: nat, rs2: nat, rs1: nat, funct3: nat, opcode: nat)
    | IType(imm: nat, rs1: nat, funct3: nat, rd: nat, opcode: nat)
    | Raw(bits: nat)

  function Encode(w: Word32): nat {
    match w {
      case SType(imm, rs2, rs1, funct3, opcode) => Pack([opcode, imm % 0x20, funct3, rs1, rs2, imm / 0x20], S_FORMAT)
      case IType(imm, rs1, funct3, rd, opcode) => Pack([opcode, rd, funct3, rs1, imm], I_FORMAT)
      case Raw(bits) => bits
    }
  }

  /** Two's complement in 12 bits. */
  function Negate12(v: nat): nat
    requires v <= 0x1000
  {
    (0x1000 - v) % 0x1000
  }

  function Signed12(v: nat): int {
    if v >= 0x800 then v - 0x1000 else v
  }

  lemma Negated(v: nat)
    requires 0 < v <= 0x800
    ensures Negate12(v) < 0x1000 && Signed12(Negate12(v)) == 0 - v
  {
  }

  /** The instructions the expansions use. */
  datatype Micro =
    | Store(src: nat, base: nat, offset: int)
    | Load(dest: nat, base: nat, offset: int)
    | AddImm(dest: nat, src: nat, imm: int)
    | JumpReg(dest: nat, base: nat, offset: int)
    | Unknown

  function InterpretS(f: seq<nat>): Micro
    requires |f| == 6
  {
    if f[2] == 2 then Store(f[4], f[3], Signed12(f[5] * 0x20 + f[1])) else Unknown
  }

  function InterpretI(f: seq<nat>): Micro
    requires |f| == 5
  {
    if f[0] == OPCODE_LOAD && f[2] == 2 then Load(f[1], f[3], Signed12(f[4]))
    else if f[0] == OPCODE_OP_IMM && f[2] == 0 then AddImm(f[1], f[3], Signed12(f[4]))
    else if f[0] == OPCODE_JALR && f[2] == 0 then JumpReg(f[1], f[3], Signed12(f[4]))
    else Unknown
  }

  /** What a 32-bit instruction means, as far as the expansions need it. */
  function Decode(instr: nat): Micro {
    if Unpack(instr, S_FORMAT)[0] == OPCODE_STORE then InterpretS(Unpack(instr, S_FORMAT))
    else InterpretI(Unpack(instr, I_FORMAT))
  }

  /** The meaning by the fields. */
  function Meaning(w: Word32): Micro {
    match w {
      case SType(imm, rs2, rs1, funct3, opcode) =>
        if opcode == OPCODE_STORE && funct3 == 2 then Store(rs2, rs1, Signed12(imm)) else Unknown
      case IType(imm, rs1, funct3, rd, opcode) =>
        if opcode == OPCODE_LOAD && funct3 == 2 then Load(rd, rs1, Signed12(imm))
        else if opcode == OPCODE_OP_IMM && funct3 == 0 then AddImm(rd, rs1, Signed12(imm))
        else if opcode == OPCODE_JALR && funct3 == 0 then JumpReg(rd, rs1, Signed12(imm))
        else Unknown
      case Raw(_) => Unknown
    }
  }

  /** The fields fit, and the format goes with the opcode. */
  predicate WellFormed(w: Word32) {
    match w {
      case SType(imm, rs2, rs1, funct3, opcode) =>
        imm < 0x1000 && rs2 < 0x20 && rs1 < 0x20 && funct3 < 8 && opcode == OPCODE_STORE
      case IType(imm, rs1, funct3, rd, opcode) =>
        imm < 0x1000 && rs1 < 0x20 && rd < 0x20 && funct3 < 8 && opcode < 0x80 && opcode != OPCODE_STORE
      case Raw(_) => false
    }
  }

  lemma StoreMeans(imm: nat, rs2: nat, rs1: nat, funct3: nat)
    requires WellFormed(SType(imm, rs2, rs1, funct3, OPCODE_STORE))
    ensures var w := SType(imm, rs2, rs1, funct3, OPCODE_STORE); Decode(Encode(w)) == Meaning(w)
  {
    UnpackOfPack([OPCODE_STORE, imm % 0x20, funct3, rs1, rs2, imm / 0x20], S_FORMAT);
  }

  lemma ImmediateMeans(imm: nat, rs1: nat, funct3: nat, rd: nat, opcode: nat)
    requires WellFormed(IType(imm, rs1, funct3, rd, opcode))
    ensures var w := IType(imm, rs1, funct3, rd, opcode); Decode(Encode(w)) == Meaning(w)
  {
    var n := Encode(IType(imm, rs1, funct3, rd, opcode));
    UnpackOfPack([opcode, rd, funct3, rs1, imm], I_FORMAT);
    assert Unpack(n, S_FORMAT)[0] == n % 0x80 == Unpack(n, I_FORMAT)[0];
  }

  /** An encoding of fields that fit means what the fields say. */
  lemma EncodingMeans(w: Word32)
    requires WellFormed(w)
    ensures Decode(Encode(w)) == Meaning(w)
  {
    match w {
      case SType(imm, rs2, rs1, funct3, _) => StoreMeans(imm, rs2, rs1, funct3);
      case IType(imm, rs1, funct3, rd, opcode) => ImmediateMeans(imm, rs1, funct3, rd, opcode);
    }
  }

  // ------------------------------------------------------------------ the helper functions

  function StackAdjBase(rlist: nat): nat {
    match rlist {
      case 4 | 5 | 6 | 7 => 16
      case 8 | 9 | 10 | 11 => 32
      case 12 | 13 | 14 => 48
      case 15 => 64
      case _ => 0
    }
  }

  function StackAdj(rlist: nat, spimm: nat): nat {
    (StackAdjBase(rlist) + spimm * 16) % 0x80
  }

  function StackAdjWord(rlist: nat, spimm: nat): nat {
    StackAdj(rlist, spimm) / 4
  }

  function TopReg(rlist: nat): nat {
    if 7 <= rlist <= 16 then (11 + rlist) % 0x20
    else if 5 <= rlist <= 6 then 3 + rlist
    else if rlist == 4 then 1
    else 0
  }

  function RlistInit(field: nat): nat {
    if field == 15 then 16 else field
  }

  function PushStoreReg(rlist: nat, spOffset: nat): Word32
    requires spOffset < 0x20
  {
    SType(Negate12(4 * spOffset), TopReg(rlist), 2, 2, OPCODE_STORE)
  }

  function PopLoadReg(rlist: nat, spOffset: nat): Word32
    requires spOffset < 0x20
  {
    IType(4 * spOffset, 2, 2, TopReg(rlist), OPCODE_LOAD)
  }

  function SpAddi(rlist: nat, spimm: nat, decr: bool): Word32 {
    IType(if decr then Negate12(StackAdj(rlist, spimm)) else StackAdj(rlist, spimm), 2, 0, 2, OPCODE_OP_IMM)
  }

  function MvReg(src: nat, dst: nat): Word32 {
    IType(0, src, 0, dst, OPCODE_OP_IMM)
  }

  function ZeroA0(): Word32 {
    MvReg(0, 10)
  }

  function RetRa(): Word32 {
    IType(0, 1, 0, 0, OPCODE_JALR)
  }

  /** The saved registers s0 to s7, by their 3-bit numbers. */
  function SavedReg(rs: nat): nat {
    (if rs / 2 > 0 then 16 else 0) + (if rs / 2 == 0 then 8 else 0) + rs
  }

  function Mvsa01(a01: bool, rs: nat): Word32 {
    MvReg(if a01 then 11 else 10, SavedReg(rs))
  }

  function Mva01s(rs: nat, a01: bool): Word32 {
    MvReg(SavedReg(rs), if a01 then 11 else 10)
  }

  // ------------------------------------------------------------------ instructions

  function Power(k: nat): (p: nat)
    ensures p > 0
  {
    if k == 0 then 1 else 2 * Power(k - 1)
  }

  function Field(instr: nat, lo: nat, width: nat): nat
    requires lo < 16 && width <= 5
  {
    instr / Power(lo) % Power(width)
  }

  datatype Kind = Push | Pop | PopRetZ | PopRet | MvSA | MvAS | Other

  /** The instructions of the Zcmp quadrant, by bits 12 to 8 and 6 to 5. */
  function KindOf(instr: nat): Kind {
    match Field(instr, 8, 5) {
      case 24 => Push
      case 26 => Pop
      case 28 => PopRetZ
      case 30 => PopRet
      case _ =>
        if Field(instr, 10, 3) == 3 then
          match Field(instr, 5, 2) {
            case 1 => MvSA
            case 3 => MvAS
            case _ => Other
          }
        else Other
    }
  }

  /** The operand fields: register list and stack adjustment, or two saved registers. */
  datatype Fields = Fields(kind: Kind, rlist: nat, spimm: nat, r1s: nat, r2s: nat) {
    predicate Bounded() {
      rlist < 16 && spimm < 4 && r1s < 8 && r2s < 8
    }
  }

  function FieldsOf(instr: nat): (f: Fields)
    ensures f.Bounded()
  {
    assert Power(2) == 4 && Power(3) == 8 && Power(4) == 16;
    Fields(KindOf(instr), Field(instr, 4, 4), Field(instr, 2, 2), Field(instr, 7, 3), Field(instr, 2, 3))
  }

  predicate OnStack(kind: Kind) {
    kind.Push? || kind.Pop? || kind.PopRetZ? || kind.PopRet?
  }

  predicate IsMove(kind: Kind) {
    kind.MvSA? || kind.MvAS?
  }

  /** The encodings of the Zc extension: `101 11xx0 rlist spimm 10` and `101 011 r1s x1 r2s 10`. */
  function StackInstr(kind: Kind, rlist: nat, spimm: nat): nat
    requires OnStack(kind)
  {
    var code := match kind { case Push => 24 case Pop => 26 case PopRetZ => 28 case _ => 30 };
    0xa002 + 0x100 * code + 0x10 * rlist + 4 * spimm
  }

  function MoveInstr(kind: Kind, r1s: nat, r2s: nat): nat
    requires IsMove(kind)
  {
    0xac02 + 0x80 * r1s + 0x20 * (if kind.MvSA? then 1 else 3) + 4 * r2s
  }

  lemma Powers()
    ensures Power(2) == 4 && Power(3) == 8 && Power(4) == 0x10 && Power(5) == 0x20
    ensures Power(7) == 0x80 && Power(8) == 0x100 && Power(10) == 0x400
  {
    assert Power(6) == 0x40;
    assert Power(9) == 0x200;
  }

  /** A field with others above and below it. */
  lemma FieldIs(instr: nat, lo: nat, p: nat, width: nat, q: nat, high: nat, v: nat, low: nat)
    requires lo < 16 && width <= 5 && p == Power(lo) && q == Power(width)
    requires v < q && low < p && instr == (high * q + v) * p + low
    ensures Field(instr, lo, width) == v
  {
    Bits.ModIs(instr, p, high * q + v, low);
    Bits.ModIs(high * q + v, q, high, v);
  }

  /** The fields read are those the encoding holds. */
  lemma StackFields(kind: Kind, rlist: nat, spimm: nat)
    requires OnStack(kind) && rlist < 16 && spimm < 4
    ensures var f := FieldsOf(StackInstr(kind, rlist, spimm)); f.kind == kind && f.rlist == rlist && f.spimm == spimm
  {
    Powers();
    var code := match kind { case Push => 24 case Pop => 26 case PopRetZ => 28 case _ => 30 };
    var instr := StackInstr(kind, rlist, spimm);
    FieldIs(instr, 8, 0x100, 5, 0x20, 5, code, 0x10 * rlist + 4 * spimm + 2);
    FieldIs(instr, 4, 0x10, 4, 0x10, 0xa0 + code, rlist, 4 * spimm + 2);
    FieldIs(instr, 2, 4, 2, 4, 0x10 * (0xa0 + code) + rlist, spimm, 2);
  }

  lemma MoveFields(kind: Kind, r1s: nat, r2s: nat)
    requires IsMove(kind) && r1s < 8 && r2s < 8
    ensures var f := FieldsOf(MoveInstr(kind, r1s, r2s)); f.kind == kind && f.r1s == r1s && f.r2s == r2s
  {
    Powers();
    var which := if kind.MvSA? then 1 else 3;
    var instr := MoveInstr(kind, r1s, r2s);
    FieldIs(instr, 8, 0x100, 5, 0x20, 5, 12 + r1s / 2, 0x80 * (r1s % 2) + 0x20 * which + 4 * r2s + 2);
    FieldIs(instr, 10, 0x400, 3, 8, 5, 3, 0x80 * r1s + 0x20 * which + 4 * r2s + 2);
    FieldIs(instr, 7, 0x80, 3, 8, 0x2b, r1s, 0x20 * which + 4 * r2s + 2);
    FieldIs(instr, 5, 0x20, 2, 4, 8 * 0x2b + r1s, which, 4 * r2s + 2);
    FieldIs(instr, 2, 4, 3, 8, 4 * (8 * 0x2b + r1s) + which, r2s, 2);
  }

  // ------------------------------------------------------------------ the state machine

  datatype Fsm =
    | CmIdle | CmPushStoreReg | CmPushDecrSp | CmPopLoadReg | CmPopIncrSp | CmPopZeroA0 | CmPopRetRa | CmMvSecondReg

  datatype Expanded = NotExpanded | Expanding | ExpandedLast

  datatype Input = Input(valid: bool, ready: bool, instr: nat, fields: Fields)

  /** What a cycle gives: the micro-operation, whether it is the last one, and the next state. */
  datatype Output = Output(instr: Word32, expanded: Expanded, illegal: bool, next: State)

  datatype State = State(fsm: Fsm, rlist: nat, spOffset: nat) {

    predicate Bounded() {
      spOffset < 0x20 && rlist < 0x20
    }

    function PushOutput(i: Input): (o: Output)
      requires Bounded() && i.fields.Bounded()
      ensures o.next.Bounded()
    {
      match fsm {
        case CmIdle =>
          var init := RlistInit(i.fields.rlist);
          var o := PushStoreReg(init, 1);
          var go := i.valid && i.ready;
          if init <= 3 then Output(o, Expanding, true, State(CmIdle, init, spOffset))
          else if init == 4 then Output(o, Expanding, false, State(if go then CmPushDecrSp else CmIdle, init, spOffset))
          else Output(o, Expanding, false, State(if go then CmPushStoreReg else CmIdle, init - 1, 2))
        case CmPushStoreReg =>
          Output(PushStoreReg(rlist, spOffset), Expanding, false,
                 if !i.ready then this
                 else
                   State(if rlist == 4 then CmPushDecrSp else CmPushStoreReg,
                         (rlist + 0x1f) % 0x20, (spOffset + 1) % 0x20))
        case CmPushDecrSp =>
          Output(SpAddi(i.fields.rlist, i.fields.spimm, true), if i.ready then ExpandedLast else Expanding, false,
                 if i.ready then this.(fsm := CmIdle) else this)
        case _ => Output(Raw(i.instr), Expanding, false, this.(fsm := CmIdle))
      }
    }

    function PopOutput(i: Input): (o: Output)
      requires Bounded() && i.fields.Bounded()
      ensures o.next.Bounded()
    {
      match fsm {
        case CmIdle =>
          var init := RlistInit(i.fields.rlist);
          var offset := (StackAdjWord(i.fields.rlist, i.fields.spimm) + 0x1f) % 0x20;
          var o := PopLoadReg(init, offset);
          var go := i.valid && i.ready;
          if init <= 3 then Output(o, Expanding, true, State(CmIdle, init, offset))
          else if init == 4 then Output(o, Expanding, false, State(if go then CmPopIncrSp else CmIdle, init, offset))
          else Output(o, Expanding, false, State(if go then CmPopLoadReg else CmIdle, init - 1, (offset + 0x1f) % 0x20))
        case CmPopLoadReg =>
          Output(PopLoadReg(rlist, spOffset), Expanding, false,
                 if !i.ready then this
                 else
                   State(if rlist == 4 then CmPopIncrSp else CmPopLoadReg,
                         (rlist + 0x1f) % 0x20, (spOffset + 0x1f) % 0x20))
        case CmPopIncrSp =>
          var o := SpAddi(i.fields.rlist, i.fields.spimm, false);
          if !i.ready then Output(o, Expanding, false, this)
          else
            match i.fields.kind {
              case PopRetZ => Output(o, Expanding, false, this.(fsm := CmPopZeroA0))
              case PopRet => Output(o, Expanding, false, this.(fsm := CmPopRetRa))
              case _ => Output(o, ExpandedLast, false, this.(fsm := CmIdle))
            }
        case CmPopZeroA0 => Output(ZeroA0(), Expanding, false, if i.ready then this.(fsm := CmPopRetRa) else this)
        case CmPopRetRa =>
          Output(RetRa(), if i.ready then ExpandedLast else Expanding, false,
                 if i.ready then this.(fsm := CmIdle) else this)
        case _ => Output(Raw(i.instr), Expanding, false, this.(fsm := CmIdle))
      }
    }

    function MoveOutput(i: Input): (o: Output)
      requires Bounded() && i.fields.Bounded()
      ensures o.next.Bounded()
    {
      var toSaved := i.fields.kind.MvSA?;
      match fsm {
        case CmIdle =>
          Output(if toSaved then Mvsa01(false, i.fields.r1s) else Mva01s(i.fields.r1s, false), Expanding, false,
                 if i.valid && i.ready then this.(fsm := CmMvSecondReg) else this)
        case CmMvSecondReg =>
          Output(if toSaved then Mvsa01(true, i.fields.r2s) else Mva01s(i.fields.r2s, true),
                 if i.ready then ExpandedLast else Expanding, false, if i.ready then this.(fsm := CmIdle) else this)
        case _ => Output(Raw(i.instr), Expanding, false, this.(fsm := CmIdle))
      }
    }

    /** One cycle for an instruction of the Zcmp quadrant, with its fields. */
    function Step(i: Input): (o: Output)
      requires Bounded() && i.fields.Bounded()
      ensures o.next.Bounded()
    {
      var o := match i.fields.kind {
        case Push => PushOutput(i)
        case Pop | PopRetZ | PopRet => PopOutput(i)
        case MvSA | MvAS => MoveOutput(i)
        case Other => Output(Raw(i.instr), NotExpanded, true, this)
      };
      if i.valid then o else o.(expanded := NotExpanded)
    }
  }

  /** The decoder's registers, updated by the cycles of an expansion. */
  class Registers {
    var fsm: Fsm
    var rlist: nat
    var spOffset: nat

    ghost function Values(): State
      reads this
    {
      State(fsm, rlist, spOffset)
    }

    constructor ()
      ensures Values() == State(CmIdle, 0, 0)
    {
      fsm, rlist, spOffset := CmIdle, 0, 0;
    }

    method PushCycle(i: Input) returns (instr: Word32, last: bool, illegal: bool)
      requires Values().Bounded() && i.fields.Bounded()
      modifies this
      ensures var o := old(Values()).PushOutput(i);
        && Values() == o.next && instr == o.instr && illegal == o.illegal
        && last == o.expanded.ExpandedLast? && !o.expanded.NotExpanded?
    {
      instr, last, illegal := Raw(i.instr), false, false;
      match fsm {
        case CmIdle =>
          rlist := RlistInit(i.fields.rlist);
          instr := PushStoreReg(rlist, 1);
          if rlist <= 3 {
            illegal := true;
          } else if rlist == 4 {
            if i.valid && i.ready {
              fsm := CmPushDecrSp;
            }
          } else {
            rlist, spOffset := rlist - 1, 2;
            if i.valid && i.ready {
              fsm := CmPushStoreReg;
            }
          }
        case CmPushStoreReg =>
          instr := PushStoreReg(rlist, spOffset);
          if i.ready {
            if rlist == 4 {
              fsm := CmPushDecrSp;
            }
            rlist, spOffset := (rlist + 0x1f) % 0x20, (spOffset + 1) % 0x20;
          }
        case CmPushDecrSp =>
          instr := SpAddi(i.fields.rlist, i.fields.spimm, true);
          if i.ready {
            last, fsm := true, CmIdle;
          }
        case _ => fsm := CmIdle;
      }
    }

    method PopCycle(i: Input) returns (instr: Word32, last: bool, illegal: bool)
      requires Values().Bounded() && i.fields.Bounded()
      modifies this
      ensures var o := old(Values()).PopOutput(i);
        && Values() == o.next && instr == o.instr && illegal == o.illegal
        && last == o.expanded.ExpandedLast? && !o.expanded.NotExpanded?
    {
      instr, last, illegal := Raw(i.instr), false, false;
      match fsm {
        case CmIdle =>
          rlist := RlistInit(i.fields.rlist);
          spOffset := (StackAdjWord(i.fields.rlist, i.fields.spimm) + 0x1f) % 0x20;
          instr := PopLoadReg(rlist, spOffset);
          if rlist <= 3 {
            illegal := true;
          } else if rlist == 4 {
            if i.valid && i.ready {
              fsm := CmPopIncrSp;
            }
          } else {
            rlist, spOffset := rlist - 1, (spOffset + 0x1f) % 0x20;
            if i.valid && i.ready {
              fsm := CmPopLoadReg;
            }
          }
        case CmPopLoadReg =>
          instr := PopLoadReg(rlist, spOffset);
          if i.ready {
            if rlist == 4 {
              fsm := CmPopIncrSp;
            }
            rlist, spOffset := (rlist + 0x1f) % 0x20, (spOffset + 0x1f) % 0x20;
          }
        case CmPopIncrSp =>
          instr := SpAddi(i.fields.rlist, i.fields.spimm, false);
          if i.ready {
            match i.fields.kind {
              case PopRetZ => fsm := CmPopZeroA0;
              case PopRet => fsm := CmPopRetRa;
              case _ => last, fsm := true, CmIdle;
            }
          }
        case CmPopZeroA0 =>
          instr := ZeroA0();
          if i.ready {
            fsm := CmPopRetRa;
          }
        case CmPopRetRa =>
          instr := RetRa();
          if i.ready {
            last, fsm := true, CmIdle;
          }
        case _ => fsm := CmIdle;
      }
    }

    method MoveCycle(i: Input) returns (instr: Word32, last: bool)
      requires Values().Bounded() && i.fields.Bounded()
      modifies this
      ensures var o := old(Values()).MoveOutput(i);
        && Values() == o.next && instr == o.instr && !o.illegal
        && last == o.expanded.ExpandedLast? && !o.expanded.NotExpanded?
    {
      instr, last := Raw(i.instr), false;
      var toSaved := i.fields.kind.MvSA?;
      match fsm {
        case CmIdle =>
          instr := if toSaved then Mvsa01(false, i.fields.r1s) else Mva01s(i.fields.r1s, false);
          if i.valid && i.ready {
            fsm := CmMvSecondReg;
          }
        case CmMvSecondReg =>
          instr := if toSaved then Mvsa01(true, i.fields.r2s) else Mva01s(i.fields.r2s, true);
          if i.ready {
            last, fsm := true, CmIdle;
          }
        case _ => fsm := CmIdle;
      }
    }

    method Clock(i: Input) returns (instr: Word32, expanded: Expanded, illegal: bool)
      requires Values().Bounded() && i.fields.Bounded()
      modifies this
      ensures Output(instr, expanded, illegal, Values()) == old(Values()).Step(i)
    {
      var last := false;
      expanded, illegal := Expanding, false;
      match i.fields.kind {
        case Push => instr, last, illegal := PushCycle(i);
        case Pop => instr, last, illegal := PopCycle(i);
        case PopRetZ => instr, last, illegal := PopCycle(i);
        case PopRet => instr, last, illegal := PopCycle(i);
        case MvSA => instr, last := MoveCycle(i);
        case MvAS => instr, last := MoveCycle(i);
        case Other => instr, expanded, illegal := Raw(i.instr), NotExpanded, true;
      }
      if last {
        expanded := ExpandedLast;
      }
      if !i.valid {
        expanded := NotExpanded;
      }
    }
  }
}
