/** What the two halves of an access mean to a memory of bytes. */
module LsuAccess {
  import opened Lsu

  type Memory = nat -> bv8

  /** A transaction the bus has accepted. */
  datatype Txn = Txn(we: bool, word: nat, be: Enables, wdata: Word)

  function Bytes(size: Size): nat {
    match size {
      case WordAccess => 4
      case HalfAccess => 2
      case ByteAccess => 1
    }
  }

  /** The address of byte `k` of an access; the address space wraps. */
  function Place(r: Request, k: nat): nat {
    (r.addr + k) % SPACE
  }

  /** How far an address is behind the access's first byte. */
  function Index(r: Request, x: nat): (k: nat)
    requires r.addr < SPACE && x < SPACE
    ensures k < SPACE && Place(r, k) == x
  {
    if x >= r.addr then x - r.addr else x + SPACE - r.addr
  }

  predicate IsSplit(r: Request) {
    SplitMisaligned(r.size, r.addr % 4)
  }

  /** An access is split exactly when it crosses a word boundary. */
  lemma SplitMeansCrossing(r: Request)
    ensures IsSplit(r) <==> r.addr % 4 + Bytes(r.size) > 4
  {
  }

  function FirstWord(r: Request): nat {
    Aligned(r.addr)
  }

  function SecondWord(r: Request): nat {
    Aligned((r.addr + 4) % SPACE)
  }

  function Half(r: Request, second: bool): Txn {
    Txn(r.we, if second then SecondWord(r) else FirstWord(r),
        ByteEnables(r.size, second, r.addr % 4), Rotate(r.wdata, r.addr % 4))
  }

  /** Whether the transaction enables the byte at the address. */
  predicate Lane(t: Txn, x: nat) {
    t.word <= x < t.word + 4 && t.be.At(x - t.word)
  }

  /** The memory after a write. */
  function Apply(mem: Memory, t: Txn): Memory {
    (x: nat) => if t.word <= x && Lane(t, x) then t.wdata.Byte(x - t.word) else mem(x)
  }

  function WordAt(mem: Memory, word: nat): Word {
    Word(mem(word), mem(word + 1), mem(word + 2), mem(word + 3))
  }

  /** Whether byte `k` belongs to the second half. */
  predicate InSecond(r: Request, k: nat) {
    r.addr % 4 + k >= 4
  }

  lemma HalfLane(r: Request, second: bool, j: nat)
    requires j < 4 && (second ==> IsSplit(r))
    ensures var off, n, t := r.addr % 4, Bytes(r.size), Half(r, second);
      && (t.be.At(j) <==> if second then 4 + j - off < n else off <= j < off + n)
      && (second && j < off ==> t.wdata.Byte(j) == r.wdata.Byte(4 + j - off))
      && (!second && j >= off ==> t.wdata.Byte(j) == r.wdata.Byte(j - off))
  {
    assert j == 0 || j == 1 || j == 2 || j == 3;
    assert r.addr % 4 == 0 || r.addr % 4 == 1 || r.addr % 4 == 2 || r.addr % 4 == 3;
  }

  /** The words of the halves, and that the second may wrap around to address zero. */
  lemma WordsApart(r: Request)
    requires r.addr < SPACE
    ensures FirstWord(r) + 4 <= SPACE && FirstWord(r) % 4 == 0
    ensures SecondWord(r) == if FirstWord(r) + 4 == SPACE then 0 else FirstWord(r) + 4
  {
  }

  lemma LaneIndex(r: Request, second: bool, x: nat)
    requires r.addr < SPACE && x < SPACE && (second ==> IsSplit(r))
    requires var w := Half(r, second).word; w <= x < w + 4
    ensures var j, k, off := x - Half(r, second).word, Index(r, x), r.addr % 4;
      if second then k == 4 + j - off
      else if j >= off then k == j - off
      else k >= SPACE - 4
  {
    WordsApart(r);
  }

  lemma OutsideWord(r: Request, second: bool, x: nat)
    requires r.addr < SPACE && x < SPACE && (second ==> IsSplit(r))
    requires var w := Half(r, second).word; !(w <= x < w + 4)
    ensures Index(r, x) < Bytes(r.size) ==> InSecond(r, Index(r, x)) != second
  {
    WordsApart(r);
  }

  /** A half enables exactly the access's bytes that lie in its word, and carries their data. */
  lemma HalfCovers(r: Request, second: bool, x: nat)
    requires r.addr < SPACE && x < SPACE && (second ==> IsSplit(r))
    ensures var k, t := Index(r, x), Half(r, second);
      && (Lane(t, x) <==> k < Bytes(r.size) && InSecond(r, k) == second)
      && (Lane(t, x) ==> t.wdata.Byte(x - t.word) == r.wdata.Byte(k))
  {
    SplitMeansCrossing(r);
    var off, t := r.addr % 4, Half(r, second);
    if t.word <= x < t.word + 4 {
      LaneIndex(r, second, x);
      HalfLane(r, second, x - t.word);
    } else {
      OutsideWord(r, second, x);
    }
  }

  // ------------------------------------------------------------------ stores

  /** Memory after a request of which the bytes of the first or second half were written or not. */
  function Effect(r: Request, mem: Memory, first: bool, second: bool, x: nat): bv8
    requires r.addr < SPACE && x < SPACE
  {
    var k := Index(r, x);
    if r.we && k < Bytes(r.size) && (if InSecond(r, k) then second else first) then r.wdata.Byte(k) else mem(x)
  }

  ghost predicate Shows(now: Memory, r: Request, mem: Memory, first: bool, second: bool)
    requires r.addr < SPACE
  {
    forall x | 0 <= x < SPACE :: now(x) == Effect(r, mem, first, second, x)
  }

  lemma FirstApplied(now: Memory, r: Request, mem: Memory)
    requires r.addr < SPACE && r.we && Shows(now, r, mem, false, false)
    ensures Shows(Apply(now, Half(r, false)), r, mem, true, false)
  {
    var t := Half(r, false);
    forall x | 0 <= x < SPACE ensures Apply(now, t)(x) == Effect(r, mem, true, false, x) {
      HalfCovers(r, false, x);
    }
  }

  lemma SecondApplied(now: Memory, r: Request, mem: Memory, first: bool)
    requires r.addr < SPACE && r.we && IsSplit(r) && Shows(now, r, mem, first, false)
    ensures Shows(Apply(now, Half(r, true)), r, mem, first, true)
  {
    var t := Half(r, true);
    forall x | 0 <= x < SPACE ensures Apply(now, t)(x) == Effect(r, mem, first, true, x) {
      HalfCovers(r, true, x);
    }
  }

  // ------------------------------------------------------------------ loads

  /** The value loaded: the bytes of the access, extended. */
  function Loaded(r: Request, mem: Memory): Word {
    var b0, b1 := mem(Place(r, 0)), mem(Place(r, 1));
    match r.size {
      case WordAccess => Word(b0, b1, mem(Place(r, 2)), mem(Place(r, 3)))
      case HalfAccess => Word(b0, b1, Extension(b1, r.signExt), Extension(b1, r.signExt))
      case ByteAccess => Word(b0, Extension(b0, r.signExt), Extension(b0, r.signExt), Extension(b0, r.signExt))
    }
  }

  /** The control registers describe the request. */
  predicate Describes(s: State, r: Request) {
    s.offset == r.addr % 4 && s.size == r.size && s.signExt == r.signExt && s.we == r.we
  }

  predicate Keeps(s: State, w: Word) {
    s.rdata == Upper(w.b1, w.b2, w.b3)
  }

  /** The bytes in the first word sit right behind the offset, the others at the start of the second. */
  lemma PlaceInWord(r: Request, k: nat)
    requires r.addr < SPACE && k < 4
    ensures Place(r, k) ==
      if InSecond(r, k) then SecondWord(r) + (r.addr % 4 + k - 4) else FirstWord(r) + (r.addr % 4 + k)
  {
    WordsApart(r);
  }

  /** An aligned load, from one word. */
  lemma LoadsOne(s: State, i: Input, r: Request, mem: Memory)
    requires r.addr < SPACE && Describes(s, r) && !IsSplit(r) && i.rdata == WordAt(mem, FirstWord(r))
    ensures s.Rdata(i) == Loaded(r, mem)
  {
    PlaceInWord(r, 0);
    PlaceInWord(r, 1);
    PlaceInWord(r, 2);
    PlaceInWord(r, 3);
  }

  /** A misaligned load, from the kept part of the first word and the second. */
  lemma LoadsTwo(s: State, i: Input, r: Request, mem: Memory)
    requires r.addr < SPACE && Describes(s, r) && IsSplit(r)
    requires Keeps(s, WordAt(mem, FirstWord(r))) && i.rdata == WordAt(mem, SecondWord(r))
    ensures s.Rdata(i) == Loaded(r, mem)
  {
    PlaceInWord(r, 0);
    PlaceInWord(r, 1);
    PlaceInWord(r, 2);
    PlaceInWord(r, 3);
  }

  // ------------------------------------------------------------------ loads as numbers

  function Number(w: Word): nat {
    w.b0 as nat + 0x100 * (w.b1 as nat + 0x100 * (w.b2 as nat + 0x100 * w.b3 as nat))
  }

  /** The little-endian number of the bytes `k` to `n` of an access. */
  function LittleEndian(r: Request, mem: Memory, k: nat, n: nat): nat
    requires k <= n
    decreases n - k
  {
    if k == n then 0 else mem(Place(r, k)) as nat + 0x100 * LittleEndian(r, mem, k + 1, n)
  }

  function Power256(n: nat): (p: nat)
    ensures p > 0
  {
    if n == 0 then 1 else 0x100 * Power256(n - 1)
  }

  /** The number a load is to deliver: that of its bytes, and below zero, modulo the word, if it is signed and the top
      bit is set. */
  function NumberLoaded(r: Request, mem: Memory): int {
    var n, values := LittleEndian(r, mem, 0, Bytes(r.size)), Power256(Bytes(r.size));
    if r.signExt && 2 * n >= values then SPACE + n - values else n
  }

  lemma ExtensionIs(top: bv8, signExt: bool)
    ensures Extension(top, signExt) as nat == if signExt && top as nat >= 0x80 then 0xff else 0
  {
  }

  lemma BytesNumber(r: Request, mem: Memory)
    ensures LittleEndian(r, mem, 0, 1) == mem(Place(r, 0)) as nat
    ensures LittleEndian(r, mem, 0, 2) == mem(Place(r, 0)) as nat + 0x100 * mem(Place(r, 1)) as nat
    ensures LittleEndian(r, mem, 0, 4) ==
      Number(Word(mem(Place(r, 0)), mem(Place(r, 1)), mem(Place(r, 2)), mem(Place(r, 3))))
  {
    assert LittleEndian(r, mem, 3, 4) == mem(Place(r, 3)) as nat;
    assert LittleEndian(r, mem, 2, 4) == mem(Place(r, 2)) as nat + 0x100 * LittleEndian(r, mem, 3, 4);
    assert LittleEndian(r, mem, 1, 2) == mem(Place(r, 1)) as nat;
  }

  lemma Powers()
    ensures Power256(1) == 0x100 && Power256(2) == 0x1_0000 && Power256(4) == SPACE
  {
    assert Power256(3) == 0x100 * Power256(2);
  }

  lemma JoinedHalf(b0: nat, b1: nat, x: nat, signExt: bool)
    requires b0 < 0x100 && b1 < 0x100 && x == if signExt && b1 >= 0x80 then 0xff else 0
    ensures var n := b0 + 0x100 * b1;
      b0 + 0x100 * (b1 + 0x100 * (x + 0x100 * x)) == if signExt && 2 * n >= 0x1_0000 then SPACE + n - 0x1_0000 else n
  {
  }

  lemma JoinedByte(b: nat, x: nat, signExt: bool)
    requires b < 0x100 && x == if signExt && b >= 0x80 then 0xff else 0
    ensures b + 0x100 * (x + 0x100 * (x + 0x100 * x)) == if signExt && 2 * b >= 0x100 then SPACE + b - 0x100 else b
  {
  }

  lemma HalfIs(b0: bv8, b1: bv8, signExt: bool)
    ensures var n, x := b0 as nat + 0x100 * b1 as nat, Extension(b1, signExt);
      Number(Word(b0, b1, x, x)) == if signExt && 2 * n >= 0x1_0000 then SPACE + n - 0x1_0000 else n
  {
    ExtensionIs(b1, signExt);
    JoinedHalf(b0 as nat, b1 as nat, Extension(b1, signExt) as nat, signExt);
  }

  lemma ByteIs(b: bv8, signExt: bool)
    ensures var n, x := b as nat, Extension(b, signExt);
      Number(Word(b, x, x, x)) == if signExt && 2 * n >= 0x100 then SPACE + n - 0x100 else n
  {
    ExtensionIs(b, signExt);
    JoinedByte(b as nat, Extension(b, signExt) as nat, signExt);
  }

  /** The number to be delivered, by the number of the bytes and the range of the size. */
  lemma NumberBy(r: Request, mem: Memory, n: nat, values: nat)
    requires n == LittleEndian(r, mem, 0, Bytes(r.size)) && values == Power256(Bytes(r.size))
    ensures NumberLoaded(r, mem) == if r.signExt && 2 * n >= values then SPACE + n - values else n
  {
  }

  lemma WordNumber(r: Request, mem: Memory)
    requires r.size == WordAccess
    ensures NumberLoaded(r, mem) == Number(Loaded(r, mem))
  {
    BytesNumber(r, mem);
    Powers();
    NumberBy(r, mem, LittleEndian(r, mem, 0, 4), SPACE);
  }

  lemma HalfNumber(r: Request, mem: Memory, b0: bv8, b1: bv8)
    requires r.size == HalfAccess && b0 == mem(Place(r, 0)) && b1 == mem(Place(r, 1))
    ensures NumberLoaded(r, mem) == Number(Word(b0, b1, Extension(b1, r.signExt), Extension(b1, r.signExt)))
  {
    BytesNumber(r, mem);
    Powers();
    NumberBy(r, mem, b0 as nat + 0x100 * b1 as nat, 0x1_0000);
    HalfIs(b0, b1, r.signExt);
  }

  lemma ByteNumber(r: Request, mem: Memory, b: bv8)
    requires r.size == ByteAccess && b == mem(Place(r, 0))
    ensures var x := Extension(b, r.signExt); NumberLoaded(r, mem) == Number(Word(b, x, x, x))
  {
    BytesNumber(r, mem);
    Powers();
    NumberBy(r, mem, b as nat, 0x100);
    ByteIs(b, r.signExt);
  }

  lemma NumberIs(r: Request, mem: Memory)
    ensures Number(Loaded(r, mem)) == NumberLoaded(r, mem)
  {
    match r.size {
      case WordAccess => WordNumber(r, mem);
      case HalfAccess => HalfNumber(r, mem, mem(Place(r, 0)), mem(Place(r, 1)));
      case ByteAccess => ByteNumber(r, mem, mem(Place(r, 0)));
    }
  }
}
