/** The physical memory protection registers of rtl/ibex_cs_registers.sv: what writes may change, and
    what therefore holds over whole runs. Any number of regions, any granularity. */
module Pmp {
  import opened Bits

  datatype Mode = Off | Tor | Na4 | Napot

  datatype Config = Config(lock: bool, mode: Mode, exec: bool, write: bool, read: bool)

  /** The machine security configuration: rule locking bypass, whitelist policy, lockdown. */
  datatype Mseccfg = Mseccfg(rlb: bool, mmwp: bool, mml: bool)

  /** Write data by bytes, least significant first. */
  datatype Data = Data(b0: bv8, b1: bv8, b2: bv8, b3: bv8) {
    function Byte(k: nat): bv8 {
      if k == 0 then b0 else if k == 1 then b1 else if k == 2 then b2 else b3
    }

    function Value(): nat {
      b0 as nat + 0x100 * b1 as nat + 0x1_0000 * b2 as nat + 0x100_0000 * b3 as nat
    }
  }

  /** A CSR write that is legal, after set and clear operations have been applied. */
  datatype Write = NoWrite | Write(csr: nat, data: Data)

  const CSR_PMPCFG: nat := 0x3a0
  const CSR_PMPADDR: nat := 0x3b0
  const CSR_MSECCFG: nat := 0x747

  /** A locked configuration that lets M-mode execute under lockdown, alone or shared with U-mode. */
  predicate MmlExec(c: Config) {
    c.lock && ((!c.read && !c.write && c.exec) || (!c.read && c.write && !c.exec) ||
               (!c.read && c.write && c.exec) || (c.read && !c.write && c.exec))
  }

  function DecodeMode(b: bv8, granularity: nat): Mode {
    match (b >> 3) & 3 {
      case 0 => Off
      case 1 => Tor
      case 2 => if granularity == 0 then Na4 else Off
      case _ => Napot
    }
  }

  /** The configuration a byte asks for; writable without readable is reserved outside lockdown. */
  function Decode(b: bv8, granularity: nat, mml: bool): Config {
    Config(b & 0x80 != 0, DecodeMode(b, granularity), b & 4 != 0,
           if mml then b & 2 != 0 else b & 2 != 0 && b & 1 != 0, b & 1 != 0)
  }

  function ShiftRight(v: nat, n: nat): nat
    decreases n
  {
    if n == 0 then v else ShiftRight(v / 2, n - 1)
  }

  /** The bits of an address register that the granularity leaves. */
  function AddrBits(data: Data, granularity: nat): nat {
    ShiftRight(data.Value(), if granularity == 0 then 0 else granularity - 1)
  }

  datatype State = State(mseccfg: Mseccfg, cfg: seq<Config>, addr: seq<nat>) {

    predicate Sized() {
      |cfg| == |addr|
    }

    predicate Locked(i: nat)
      requires i < |cfg|
    {
      cfg[i].lock && !mseccfg.rlb
    }

    predicate AnyLocked() {
      exists i | 0 <= i < |cfg| :: Locked(i)
    }

    predicate CfgWrite(w: Write, i: nat, granularity: nat)
      requires i < |cfg|
    {
      && w.Write? && w.csr == CSR_PMPCFG + i / 4
      && !Locked(i)
      && !(mseccfg.mml && !mseccfg.rlb && MmlExec(Decode(w.data.Byte(i % 4), granularity, mseccfg.mml)))
    }

    predicate AddrWrite(w: Write, i: nat)
      requires i < |cfg|
    {
      && w.Write? && w.csr == CSR_PMPADDR + i
      && !Locked(i)
      && (i + 1 < |cfg| ==> !Locked(i + 1) || cfg[i + 1].mode != Tor)
    }

    function NextCfg(w: Write, i: nat, granularity: nat): Config
      requires i < |cfg|
    {
      if CfgWrite(w, i, granularity) then Decode(w.data.Byte(i % 4), granularity, mseccfg.mml) else cfg[i]
    }

    function NextAddr(w: Write, i: nat, granularity: nat): nat
      requires Sized() && i < |cfg|
    {
      if AddrWrite(w, i) then AddrBits(w.data, granularity) else addr[i]
    }

    function NextMseccfg(w: Write): Mseccfg {
      if w.Write? && w.csr == CSR_MSECCFG then
        Mseccfg(!AnyLocked() && w.data.b0 & 4 != 0,
                mseccfg.mmwp || w.data.b0 & 2 != 0, mseccfg.mml || w.data.b0 & 1 != 0)
      else mseccfg
    }

    function Next(w: Write, granularity: nat): (s: State)
      requires Sized()
      ensures s.Sized() && |s.cfg| == |cfg|
    {
      State(NextMseccfg(w),
            seq(|cfg|, i requires 0 <= i < |cfg| => NextCfg(w, i, granularity)),
            seq(|cfg|, i requires 0 <= i < |cfg| => NextAddr(w, i, granularity)))
    }
  }

  // ------------------------------------------------------------------ what a write stores

  /** The rules a byte may ask for that would let M-mode execute under lockdown: locked, and of read, write and execute
      only execute, only write, write and execute, or read and execute. */
  predicate AsksForExec(b: bv8) {
    b >= 0x80 && b % 8 in {4, 2, 6, 5}
  }

  /** The configuration holds the fields of the byte: lock on top, two bits of mode, execute, write and read. */
  ghost predicate HasFields(c: Config, b: bv8, granularity: nat, mml: bool) {
    && (c.lock <==> b >= 0x80) && (c.exec <==> b / 4 % 2 == 1) && (c.read <==> b % 2 == 1)
    && (c.write <==> b / 2 % 2 == 1 && (mml || b % 2 == 1))
    && (c.mode == Off <==> b / 8 % 4 == 0 || (b / 8 % 4 == 2 && granularity > 0))
    && (c.mode == Tor <==> b / 8 % 4 == 1)
    && (c.mode == Na4 <==> b / 8 % 4 == 2 && granularity == 0)
    && (c.mode == Napot <==> b / 8 % 4 == 3)
  }

  lemma DecodeIs(b: bv8, granularity: nat, mml: bool)
    ensures HasFields(Decode(b, granularity, mml), b, granularity, mml)
    ensures mml ==> (MmlExec(Decode(b, granularity, mml)) <==> AsksForExec(b))
  {
  }

  /** A write to the register of an entry's configuration stores the fields of its byte, unless the entry is locked or
      a rule is asked for that lockdown forbids; otherwise nothing changes. */
  lemma ConfigStored(s: State, w: Write, i: nat, granularity: nat)
    requires s.Sized() && i < |s.cfg|
    ensures var c := s.Next(w, granularity).cfg[i];
      if w.Write? && w.csr == 0x3a0 + i / 4
         && (s.mseccfg.rlb || (!s.cfg[i].lock && !(s.mseccfg.mml && AsksForExec(w.data.Byte(i % 4)))))
      then HasFields(c, w.data.Byte(i % 4), granularity, s.mseccfg.mml)
      else c == s.cfg[i]
  {
    if w.Write? {
      DecodeIs(w.data.Byte(i % 4), granularity, s.mseccfg.mml);
    }
  }

  lemma DivideTwice(v: nat, p: nat)
    requires p > 0
    ensures v / 2 / p == v / (2 * p)
  {
    var q, r := v / (2 * p), v % (2 * p);
    assert v == 2 * (q * p) + r;
    ModIs(v / 2, p, q, r / 2);
  }

  lemma {:induction false} ShiftDivides(v: nat, n: nat)
    ensures ShiftRight(v, n) == v / Pow2(n)
  {
    if n > 0 {
      ShiftDivides(v / 2, n - 1);
      DivideTwice(v, Pow2(n - 1));
    }
  }

  /** A write to an entry's address stores the number written, in granules, unless the entry is locked, or is the lower
      end of a locked one in top-of-range mode. */
  lemma AddressStored(s: State, w: Write, i: nat, granularity: nat)
    requires s.Sized() && i < |s.cfg|
    ensures s.Next(w, granularity).addr[i] ==
      if w.Write? && w.csr == 0x3b0 + i
         && (s.mseccfg.rlb
             || (!s.cfg[i].lock && !(i + 1 < |s.cfg| && s.cfg[i + 1].lock && s.cfg[i + 1].mode == Tor)))
      then
        (w.data.Byte(0) as nat + 0x100 * w.data.Byte(1) as nat
         + 0x1_0000 * w.data.Byte(2) as nat + 0x100_0000 * w.data.Byte(3) as nat)
        / Pow2(if granularity == 0 then 0 else granularity - 1)
      else s.addr[i]
  {
    if w.Write? {
      ShiftDivides(w.data.Value(), if granularity == 0 then 0 else granularity - 1);
    }
  }

  /** A write to the security configuration sets the policies it asks for, and the bypass if nothing is locked. */
  lemma PoliciesStored(s: State, w: Write, granularity: nat)
    requires s.Sized()
    ensures var t, asked := s.Next(w, granularity).mseccfg, w.Write? && w.csr == 0x747;
      && (t.mml <==> s.mseccfg.mml || (asked && w.data.b0 % 2 == 1))
      && (t.mmwp <==> s.mseccfg.mmwp || (asked && w.data.b0 / 2 % 2 == 1))
      && (t.rlb <==>
            if asked then
              w.data.b0 / 4 % 2 == 1 && (s.mseccfg.rlb || forall i | 0 <= i < |s.cfg| :: !s.cfg[i].lock)
            else s.mseccfg.rlb)
  {
    assert forall i | 0 <= i < |s.cfg| :: s.Locked(i) == (s.cfg[i].lock && !s.mseccfg.rlb);
  }

  // ------------------------------------------------------------------ runs of writes

  ghost function Run(s: State, writes: seq<Write>, granularity: nat): (r: State)
    requires s.Sized()
    ensures r.Sized() && |r.cfg| == |s.cfg|
    decreases |writes|
  {
    if writes == [] then s
    else Run(s.Next(writes[0], granularity), writes[1..], granularity)
  }

  /** Entry `i` is locked: nothing about it may change any more. */
  ghost predicate Frozen(s: State, t: State, i: nat)
    requires s.Sized() && t.Sized() && i < |s.cfg| == |t.cfg|
  {
    && t.cfg[i] == s.cfg[i] && t.addr[i] == s.addr[i]
    && (i > 0 && s.cfg[i].mode == Tor ==> t.addr[i - 1] == s.addr[i - 1])
  }

  /** Once an entry is locked without the bypass, then after any writes the bypass is still off, the
      entry's configuration and address are as they were, and so is the address below an entry in
      top-of-range mode. */
  lemma {:induction false} LockPersists(s: State, writes: seq<Write>, granularity: nat, i: nat)
    requires s.Sized() && i < |s.cfg| && s.Locked(i)
    ensures var t := Run(s, writes, granularity); t.Locked(i) && Frozen(s, t, i)
    decreases |writes|
  {
    if writes != [] {
      var n := s.Next(writes[0], granularity);
      assert n.cfg[i] == s.cfg[i];
      LockPersists(n, writes[1..], granularity, i);
    }
  }

  /** Lockdown and the whitelist policy cannot be left. */
  lemma {:induction false} PoliciesAreSticky(s: State, writes: seq<Write>, granularity: nat)
    requires s.Sized()
    ensures var t := Run(s, writes, granularity);
      (s.mseccfg.mml ==> t.mseccfg.mml) && (s.mseccfg.mmwp ==> t.mseccfg.mmwp)
    decreases |writes|
  {
    if writes != [] {
      PoliciesAreSticky(s.Next(writes[0], granularity), writes[1..], granularity);
    }
  }

  ghost predicate ExecEntry(s: State, i: nat) {
    i < |s.cfg| && MmlExec(s.cfg[i])
  }

  /** The bypass is off in every state the writes pass through. */
  ghost predicate BypassStaysOff(s: State, writes: seq<Write>, granularity: nat)
    requires s.Sized()
    decreases |writes|
  {
    !s.mseccfg.rlb && (writes == [] || BypassStaysOff(s.Next(writes[0], granularity), writes[1..], granularity))
  }

  /** In lockdown without the bypass, no write adds or removes a rule that lets M-mode execute. */
  lemma {:induction false} ExecRulesConstant(s: State, writes: seq<Write>, granularity: nat)
    requires s.Sized() && s.mseccfg.mml && BypassStaysOff(s, writes, granularity)
    ensures forall i: nat :: ExecEntry(Run(s, writes, granularity), i) == ExecEntry(s, i)
    decreases |writes|
  {
    if writes != [] {
      var n := s.Next(writes[0], granularity);
      ExecRulesConstant(n, writes[1..], granularity);
      forall i: nat ensures ExecEntry(n, i) == ExecEntry(s, i) {
        if i < |s.cfg| {
          assert n.cfg[i] == s.NextCfg(writes[0], i, granularity);
        }
      }
    }
  }

  /** If some entry is locked the bypass cannot come back, so those rules are fixed for good. */
  lemma {:induction false} LockedBypassStaysOff(s: State, writes: seq<Write>, granularity: nat, i: nat)
    requires s.Sized() && i < |s.cfg| && s.Locked(i)
    ensures BypassStaysOff(s, writes, granularity)
    decreases |writes|
  {
    if writes != [] {
      var n := s.Next(writes[0], granularity);
      assert n.cfg[i] == s.cfg[i];
      LockedBypassStaysOff(n, writes[1..], granularity, i);
    }
  }

  /** Without any locked entry the bypass can be switched on again, in one write. */
  lemma BypassReturnsUnlessLocked(s: State, granularity: nat)
    requires s.Sized()
    ensures (exists w: Write :: s.Next(w, granularity).mseccfg.rlb) <==> !s.AnyLocked()
  {
    if !s.AnyLocked() {
      assert s.Next(Write(CSR_MSECCFG, Data(4, 0, 0, 0)), granularity).mseccfg.rlb;
    }
  }

  ghost predicate NoReserved(s: State) {
    !s.mseccfg.mml ==> forall i | 0 <= i < |s.cfg| :: s.cfg[i].write ==> s.cfg[i].read
  }

  /** The reserved combination, writable but not readable, is never stored outside lockdown. */
  lemma {:induction false} ReservedNeverStored(s: State, writes: seq<Write>, granularity: nat)
    requires s.Sized() && NoReserved(s)
    ensures NoReserved(Run(s, writes, granularity))
    decreases |writes|
  {
    if writes != [] {
      ReservedNeverStored(s.Next(writes[0], granularity), writes[1..], granularity);
    }
  }

  /** The reset values of rtl/ibex_pkg.sv satisfy it. */
  lemma ResetIsLegal(regions: nat, addr: seq<nat>)
    requires |addr| == regions
    ensures var off := Config(false, Off, false, false, false);
      var s := State(Mseccfg(false, false, false), seq(regions, _ => off), addr);
      s.Sized() && NoReserved(s)
  {
  }

  // ------------------------------------------------------------------ the registers

  class Registers {
    const granularity: nat
    const cfg: array<Config>
    const addr: array<nat>
    var mseccfg: Mseccfg

    ghost predicate Valid()
      reads this, cfg, addr
    {
      Values().Sized()
    }

    ghost function Values(): State
      reads this, cfg, addr
    {
      State(mseccfg, cfg[..], addr[..])
    }

    constructor (regions: nat, granularity: nat)
      ensures Valid() && fresh(cfg) && fresh(addr) && cfg.Length == regions && this.granularity == granularity
      ensures NoReserved(Values())
    {
      this.granularity := granularity;
      cfg := new Config[regions](_ => Config(false, Off, false, false, false));
      addr := new nat[regions](_ => 0);
      mseccfg := Mseccfg(false, false, false);
    }

    method AnyEntryLocked() returns (any: bool)
      requires Valid()
      ensures any == Values().AnyLocked()
    {
      any := false;
      var i := 0;
      while i < cfg.Length
        invariant i <= cfg.Length && any == exists j | 0 <= j < i :: Values().Locked(j)
      {
        assert Values().Locked(i) == (cfg[i].lock && !mseccfg.rlb);
        any := any || (cfg[i].lock && !mseccfg.rlb);
        i := i + 1;
      }
    }

    /** A write enable for each register, decided from the values before the clock edge. */
    method Clock(w: Write)
      requires Valid()
      modifies this, cfg, addr
      ensures Valid() && Values() == old(Values()).Next(w, granularity)
    {
      var s := State(mseccfg, cfg[..], addr[..]);
      var any := AnyEntryLocked();
      forall i | 0 <= i < addr.Length && s.AddrWrite(w, i) {
        addr[i] := AddrBits(w.data, granularity);
      }
      assert addr[..] == s.Next(w, granularity).addr;
      forall i | 0 <= i < cfg.Length && s.CfgWrite(w, i, granularity) {
        cfg[i] := Decode(w.data.Byte(i % 4), granularity, s.mseccfg.mml);
      }
      assert cfg[..] == s.Next(w, granularity).cfg;
      if w.Write? && w.csr == CSR_MSECCFG {
        mseccfg := Mseccfg(!any && w.data.b0 & 4 != 0,
                           mseccfg.mmwp || w.data.b0 & 2 != 0, mseccfg.mml || w.data.b0 & 1 != 0);
      }
    }
  }
}
