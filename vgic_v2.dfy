/*
 * The emulated GICv2 distributor of xen/arch/arm/vgic-v2.c: the trap
 * handlers for guest loads and stores to the GICD page, the decoding of a
 * guest GICD_SGIR write, and the per-vCPU initialisation of the SGI/PPI
 * targets.  Register layout as in section 4.1.2 of the ARM Generic
 * Interrupt Controller Architecture Specification v2.0.
 */
module VgicV2 {
  import opened VgicRank
  import opened GicRegs
  import GicV2

  /**
   * The domain's virtual distributor as the handlers see it: arch.vgic.ctlr,
   * max_vcpus, arch.vgic.nr_lines and the ranks vgic_rank_offset can return.
   */
  datatype Dist = Dist(ctlr: bv32, maxVcpus: bv32, nrLines: bv32, ranks: map<int, Rank>)

  /* ---------------------------------------------------------------------- */
  /* GICD_TYPER                                                             */

  /**
   * The TYPER value as vgic-v2.c computes it: max_vcpus in CPUNumber, a
   * field the architecture defines as the number of CPU interfaces minus
   * one, and nr_lines / 32 in ITLinesNumber.
   */
  function TyperAsWritten(maxVcpus: bv32, nrLines: bv32): bv32
  {
    ((maxVcpus << 5) & GICD_TYPE_CPUS) | ((nrLines >> 5) & GICD_TYPE_LINES)
  }

  /**
   * TYPER with CPUNumber = max_vcpus - 1.  nr_lines counts the SPIs only
   * (DOMAIN_NR_RANKS covers it, the private rank is apart), so nr_lines / 32
   * already is ITLinesNumber = lines / 32 - 1.
   */
  function Typer(maxVcpus: bv32, nrLines: bv32): bv32
  {
    (((maxVcpus - 1) << 5) & GICD_TYPE_CPUS) | ((nrLines >> 5) & GICD_TYPE_LINES)
  }

  /**
   * As written, a guest decodes the line count right (the SPIs plus the 32
   * private interrupts) and one CPU interface too many, wrapping to a single
   * interface at eight vCPUs.
   */
  lemma {:induction false} TyperAsWrittenDecodes(maxVcpus: bv32, nrLines: bv32)
    requires 1 <= maxVcpus <= 8
    requires nrLines <= 992 && nrLines % 32 == 0
    ensures GicV2.GicCpus(TyperAsWritten(maxVcpus, nrLines)) == (maxVcpus as nat) % 8 + 1
    ensures GicV2.NrLines(TyperAsWritten(maxVcpus, nrLines)) == nrLines as nat + 32
  {
    var t := TyperAsWritten(maxVcpus, nrLines);
    CpuField(maxVcpus, nrLines >> 5);
    LinesField(maxVcpus << 5, nrLines);
    assert (t & GICD_TYPE_CPUS) >> 5 == maxVcpus % 8;
  }

  /** The corrected TYPER decodes, as a GICv2 driver decodes it, to the domain's vCPUs and lines. */
  lemma {:induction false} TyperRoundTrip(maxVcpus: bv32, nrLines: bv32)
    requires 1 <= maxVcpus <= 8
    requires nrLines <= 992 && nrLines % 32 == 0
    ensures GicV2.GicCpus(Typer(maxVcpus, nrLines)) == maxVcpus as nat
    ensures GicV2.NrLines(Typer(maxVcpus, nrLines)) == nrLines as nat + 32
  {
    var t := Typer(maxVcpus, nrLines);
    CpuField(maxVcpus - 1, nrLines >> 5);
    LinesField((maxVcpus - 1) << 5, nrLines);
    assert (t & GICD_TYPE_CPUS) >> 5 == maxVcpus - 1;
  }

  /** The CPUNumber field of a TYPER built from c: the low three bits of c. */
  lemma CpuField(c: bv32, lines: bv32)
    ensures ((((c << 5) & GICD_TYPE_CPUS) | (lines & GICD_TYPE_LINES)) & GICD_TYPE_CPUS) >> 5 == c % 8
  {
  }

  /** The ITLinesNumber field of a TYPER built from nr_lines, and the line count it decodes to. */
  lemma LinesField(cpus: bv32, nrLines: bv32)
    requires nrLines <= 992 && nrLines % 32 == 0
    ensures var t := (cpus & GICD_TYPE_CPUS) | ((nrLines >> 5) & GICD_TYPE_LINES);
      GicV2.NrLines(t) == nrLines as nat + 32
  {
    var t := (cpus & GICD_TYPE_CPUS) | ((nrLines >> 5) & GICD_TYPE_LINES);
    assert t & GICD_TYPE_LINES == nrLines >> 5;
    assert ((nrLines >> 5) as nat) * 32 == nrLines as nat;
  }

  /**
   * A one-vCPU domain (nr_lines is 0 for every domain, gic-v2.c) loads
   * 0x20 from GICD_TYPER, which a guest decodes as two CPU interfaces.
   */
  lemma TyperAsWrittenOverstates(d: Dist, rankOf: RankOffset, sign: bool)
    requires d.maxVcpus == 1 && d.nrLines == 0
    ensures DistRead(d, rankOf, Dabt(DABT_WORD, sign), GICD_TYPER) == ReadDone(0x20)
    ensures GicV2.GicCpus(0x20) == 2 && GicV2.NrLines(0x20) == 32
    ensures GicV2.GicCpus(Typer(d.maxVcpus, d.nrLines)) == 1
  {
    assert TyperAsWritten(1, 0) == 0x20;
    TyperRoundTrip(1, 0);
  }

  /* ---------------------------------------------------------------------- */
  /* Rank-backed register banks                                             */

  /** The distributor register banks whose state lives in the ranks. */
  datatype Bank =
    | Isenabler | Icenabler | Ispendr | Icpendr | Isactiver | Icactiver
    | Itargetsr | Ipriorityr | Icfgr | Cpendsgir | Spendsgir

  /** Offset of the first and of the last register of a bank. */
  function BankBase(bank: Bank): int
  {
    match bank
    case Isenabler => GICD_ISENABLER
    case Icenabler => GICD_ICENABLER
    case Ispendr => GICD_ISPENDR
    case Icpendr => GICD_ICPENDR
    case Isactiver => GICD_ISACTIVER
    case Icactiver => GICD_ICACTIVER
    case Itargetsr => GICD_ITARGETSR
    case Ipriorityr => GICD_IPRIORITYR
    case Icfgr => GICD_ICFGR
    case Cpendsgir => GICD_CPENDSGIR
    case Spendsgir => GICD_SPENDSGIR
  }

  function BankLast(bank: Bank): int
  {
    match bank
    case Isenabler => GICD_ISENABLERN
    case Icenabler => GICD_ICENABLERN
    case Ispendr => GICD_ISPENDRN
    case Icpendr => GICD_ICPENDRN
    case Isactiver => GICD_ISACTIVERN
    case Icactiver => GICD_ICACTIVERN
    case Itargetsr => GICD_ITARGETSRN
    case Ipriorityr => GICD_IPRIORITYRN
    case Icfgr => GICD_ICFGRN
    case Cpendsgir => GICD_CPENDSGIRN
    case Spendsgir => GICD_SPENDSGIRN
  }

  predicate InBank(bank: Bank, reg: int)
  {
    BankBase(bank) <= reg <= BankLast(bank)
  }

  /** Bits per interrupt, the b passed to vgic_rank_offset. */
  function BankBits(bank: Bank): int
  {
    match bank
    case Itargetsr | Ipriorityr => 8
    case Icfgr => 2
    case _ => 1
  }

  /** The banks whose handlers also accept a byte access. */
  predicate ByteWide(bank: Bank)
  {
    bank.Ispendr? || bank.Icpendr? || bank.Itargetsr? || bank.Ipriorityr? || bank.Cpendsgir? || bank.Spendsgir?
  }

  /** The offset of reg within its bank, as the unsigned n of REG_RANK_INDEX. */
  function BankOffset(bank: Bank, reg: int): bv32
    requires InBank(bank, reg)
  {
    (reg - BankBase(bank)) as bv32
  }

  /** The word of an 8-bit-per-interrupt register, narrowed to the addressed byte for a byte access. */
  function ByteOrWordOf(words: Words8, dabt: Dabt, n: bv32, reg: int): bv32
  {
    var w := words[RankIndex(8, n, DABT_WORD)];
    if dabt.size == DABT_BYTE then ByteRead(w, dabt.sign, reg) else w
  }

  /** What a load from reg in bank reads from the rank. */
  function BankRead(bank: Bank, rk: Rank, dabt: Dabt, reg: int): bv32
    requires InBank(bank, reg)
  {
    var n := BankOffset(bank, reg);
    match bank
    case Isenabler | Icenabler => rk.ienable
    case Ispendr | Icpendr => ByteRead(rk.ipend, dabt.sign, reg)
    case Isactiver | Icactiver => rk.iactive
    case Itargetsr => ByteOrWordOf(rk.itargets, dabt, n, reg)
    case Ipriorityr => ByteOrWordOf(rk.ipriority, dabt, n, reg)
    case Icfgr => rk.icfg[RankIndex(2, n, DABT_WORD)]
    case Cpendsgir | Spendsgir => ByteRead(rk.pendsgi, dabt.sign, reg)
  }

  /** A word store replaces the word, a byte store (vgic_byte_write) only the addressed byte lane. */
  function StoreByteOrWord(words: Words8, dabt: Dabt, n: bv32, reg: int, value: bv32): Words8
  {
    var i := RankIndex(8, n, DABT_WORD);
    if dabt.size == DABT_WORD then words[i := value] else words[i := ByteWrite(words[i], value, reg)]
  }

  /** The banks a store updates. */
  predicate Stored(bank: Bank)
  {
    bank.Isenabler? || bank.Icenabler? || bank.Isactiver? || bank.Icactiver?
    || bank.Itargetsr? || bank.Ipriorityr? || bank.Icfgr?
  }

  /** The rank after a store of w to reg in bank, and what is handed on to enable or disable interrupts. */
  function BankWrite(bank: Bank, rk: Rank, dabt: Dabt, reg: int, w: bv32): (Rank, Effect)
    requires InBank(bank, reg) && Stored(bank)
  {
    var n := BankOffset(bank, reg);
    match bank
    case Isenabler => (rk.(ienable := rk.ienable | w), EnableIrqs(w & !rk.ienable, (reg - GICD_ISENABLER) / 4))
    case Icenabler => (rk.(ienable := rk.ienable & !w), DisableIrqs(w & rk.ienable, (reg - GICD_ICENABLER) / 4))
    case Isactiver | Icactiver => (rk.(iactive := rk.iactive & !w), NoEffect)
    case Itargetsr => (rk.(itargets := StoreByteOrWord(rk.itargets, dabt, n, reg, w)), NoEffect)
    case Ipriorityr => (rk.(ipriority := StoreByteOrWord(rk.ipriority, dabt, n, reg, w)), NoEffect)
    case Icfgr => (rk.(icfg := rk.icfg[RankIndex(2, n, DABT_WORD) := w]), NoEffect)
  }

  /** The rank vgic_rank_offset returns for an access to reg in bank, if any. */
  function BankRank(d: Dist, rankOf: RankOffset, bank: Bank, reg: int): Option<int>
  {
    LookupRank(d.ranks, rankOf, BankBits(bank), reg - BankBase(bank), DABT_WORD)
  }

  /** The bank whose offset range holds reg, if any (the ranges do not overlap). */
  function BankOf(reg: int): (b: Option<Bank>)
    ensures b.Some? ==> InBank(b.value, reg)
  {
    if InBank(Isenabler, reg) then Some(Isenabler)
    else if InBank(Icenabler, reg) then Some(Icenabler)
    else if InBank(Ispendr, reg) then Some(Ispendr)
    else if InBank(Icpendr, reg) then Some(Icpendr)
    else if InBank(Isactiver, reg) then Some(Isactiver)
    else if InBank(Icactiver, reg) then Some(Icactiver)
    else if InBank(Itargetsr, reg) then Some(Itargetsr)
    else if InBank(Ipriorityr, reg) then Some(Ipriorityr)
    else if InBank(Icfgr, reg) then Some(Icfgr)
    else if InBank(Cpendsgir, reg) then Some(Cpendsgir)
    else if InBank(Spendsgir, reg) then Some(Spendsgir)
    else None
  }

  /* ---------------------------------------------------------------------- */
  /* vgic_v2_distr_mmio_read                                                */

  /** read_as_zero: only a word access is accepted. */
  function ReadAsZero(dabt: Dabt): ReadResult
  {
    if dabt.size != DABT_WORD then ReadCrash else ReadDone(0)
  }

  /** A register that only allows word accesses and reads as value. */
  function ReadWord(dabt: Dabt, value: bv32): ReadResult
  {
    if dabt.size != DABT_WORD then ReadCrash else ReadDone(Zx(value))
  }

  /** A rank-backed register: check the width, look up the rank (read as zero when there is none), read. */
  function RankRead(d: Dist, rankOf: RankOffset, dabt: Dabt, bank: Bank, reg: int): ReadResult
    requires InBank(bank, reg)
  {
    if !(dabt.size == DABT_WORD || (ByteWide(bank) && dabt.size == DABT_BYTE)) then ReadCrash
    else match BankRank(d, rankOf, bank, reg)
      case None => ReadAsZero(dabt)
      case Some(id) => ReadDone(Zx(BankRead(bank, d.ranks[id], dabt, reg)))
  }

  /** Offsets the read handler treats as read-as-zero (implementation defined, reserved, security). */
  predicate ReadAsZeroRange(reg: int)
  {
    || 0x020 <= reg <= 0x03c
    || GICD_IGROUPR <= reg <= GICD_IGROUPRN
    || GICD_NSACR <= reg <= GICD_NSACRN
    || 0xfd0 <= reg <= 0xfe4
    || 0xfec <= reg <= 0xffc
    || 0x00c <= reg <= 0x01c || 0x040 <= reg <= 0x07c || reg == 0x7fc || reg == 0xbfc
    || 0xf04 <= reg <= 0xf0c || 0xf30 <= reg <= 0xfcc
  }

  /** vgic_v2_distr_mmio_read for a load from offset reg of the distributor page. */
  function DistRead(d: Dist, rankOf: RankOffset, dabt: Dabt, reg: int): ReadResult
  {
    if reg == GICD_CTLR then ReadWord(dabt, d.ctlr)
    else if reg == GICD_TYPER then ReadWord(dabt, TyperAsWritten(d.maxVcpus, d.nrLines))
    else if reg == GICD_IIDR then ReadWord(dabt, 0x0000_043b)
    else if ReadAsZeroRange(reg) then ReadAsZero(dabt)
    else if BankOf(reg).Some? then RankRead(d, rankOf, dabt, BankOf(reg).value, reg)
    else if reg == GICD_SGIR then ReadWord(dabt, 0xdead_beef)
    else if reg == GICD_ICPIDR2 then (if dabt.size != DABT_WORD then ReadCrash else ReadUnhandled)
    else ReadUnhandled
  }

  /* ---------------------------------------------------------------------- */
  /* vgic_v2_distr_mmio_write                                               */

  /** write_ignore: only a word access is accepted. */
  function WriteIgnore(d: Dist, dabt: Dabt): WriteResult<Dist>
  {
    if dabt.size != DABT_WORD then WriteCrash else WriteDone(d, NoEffect)
  }

  /** A rank-backed register: check the width, look up the rank (write ignored when there is none), store. */
  function RankWrite(d: Dist, rankOf: RankOffset, dabt: Dabt, bank: Bank, reg: int, w: bv32): WriteResult<Dist>
    requires InBank(bank, reg) && Stored(bank)
  {
    if !(dabt.size == DABT_WORD || (ByteWide(bank) && dabt.size == DABT_BYTE)) then WriteCrash
    else match BankRank(d, rankOf, bank, reg)
      case None => WriteIgnore(d, dabt)
      case Some(id) =>
        var (rk, effect) := BankWrite(bank, d.ranks[id], dabt, reg, w);
        WriteDone(d.(ranks := d.ranks[id := rk]), effect)
  }

  /** Offsets the write handler ignores. */
  predicate WriteIgnoreRange(reg: int)
  {
    || reg == GICD_TYPER || reg == GICD_IIDR
    || 0x020 <= reg <= 0x03c
    || GICD_IGROUPR <= reg <= GICD_IGROUPRN
    || GICD_ITARGETSR <= reg <= GICD_ITARGETSR + 7
    || reg == GICD_ICFGR || reg == GICD_ICFGR + 1
    || GICD_NSACR <= reg <= GICD_NSACRN
    || 0xfd0 <= reg <= 0xfe4 || reg == GICD_ICPIDR2 || 0xfec <= reg <= 0xffc
    || 0x00c <= reg <= 0x01c || 0x040 <= reg <= 0x07c || reg == 0x7fc || reg == 0xbfc
    || 0xf04 <= reg <= 0xf0c || 0xf30 <= reg <= 0xfcc
  }

  /** Pending-state registers whose writes the handler does not emulate. */
  predicate UnhandledPendingRange(reg: int)
  {
    InBank(Ispendr, reg) || InBank(Icpendr, reg) || InBank(Cpendsgir, reg) || InBank(Spendsgir, reg)
  }

  /** vgic_v2_distr_mmio_write for a store of register value r to offset reg. */
  function DistWrite(d: Dist, rankOf: RankOffset, dabt: Dabt, reg: int, r: bv64): WriteResult<Dist>
  {
    var w := Lo32(r);
    if reg == GICD_CTLR then
      (if dabt.size != DABT_WORD then WriteCrash else WriteDone(d.(ctlr := w & GICD_CTL_ENABLE), NoEffect))
    else if WriteIgnoreRange(reg) then WriteIgnore(d, dabt)
    else if UnhandledPendingRange(reg) then (if !ByteOrWord(dabt) then WriteCrash else WriteUnhandled)
    else if BankOf(reg).Some? then RankWrite(d, rankOf, dabt, BankOf(reg).value, reg, w)
    else if reg == GICD_SGIR then
      (if dabt.size != DABT_WORD then WriteCrash else WriteDone(d, SendSgi(r)))
    else WriteUnhandled
  }

  /* ---------------------------------------------------------------------- */
  /* Properties of the handlers                                             */

  /** Every offset the handlers decode: all case labels of both switches. */
  predicate Decoded(reg: int)
  {
    || reg == GICD_CTLR || reg == GICD_TYPER || reg == GICD_IIDR || ReadAsZeroRange(reg)
    || InBank(Isenabler, reg) || InBank(Icenabler, reg) || InBank(Ispendr, reg) || InBank(Icpendr, reg)
    || InBank(Isactiver, reg) || InBank(Icactiver, reg) || InBank(Itargetsr, reg) || InBank(Ipriorityr, reg)
    || InBank(Icfgr, reg) || reg == GICD_SGIR || InBank(Cpendsgir, reg) || InBank(Spendsgir, reg)
    || reg == GICD_ICPIDR2
  }

  /** Offsets of banks that hold a byte per interrupt or are byte-addressable pending state. */
  predicate ByteAccessible(reg: int)
  {
    || InBank(Ispendr, reg) || InBank(Icpendr, reg) || InBank(Itargetsr, reg) || InBank(Ipriorityr, reg)
    || InBank(Cpendsgir, reg) || InBank(Spendsgir, reg)
  }

  /**
   * Width rules: a decoded offset accessed with a half-word or doubleword
   * crashes the domain, for loads and for stores.
   */
  lemma WideAccessCrashes(d: Dist, rankOf: RankOffset, dabt: Dabt, reg: int, r: bv64)
    requires Decoded(reg) && !ByteOrWord(dabt)
    ensures DistRead(d, rankOf, dabt, reg) == ReadCrash
    ensures DistWrite(d, rankOf, dabt, reg, r) == WriteCrash
  {
  }

  /** A byte access to a decoded register that does not take bytes crashes the domain. */
  lemma ByteAccessCrashes(d: Dist, rankOf: RankOffset, dabt: Dabt, reg: int, r: bv64)
    requires Decoded(reg) && !ByteAccessible(reg) && dabt.size == DABT_BYTE
    ensures DistRead(d, rankOf, dabt, reg) == ReadCrash
    ensures DistWrite(d, rankOf, dabt, reg, r) == WriteCrash
  {
  }

  /** An offset no case decodes is unhandled whatever the width. */
  lemma UndecodedUnhandled(d: Dist, rankOf: RankOffset, dabt: Dabt, reg: int, r: bv64)
    requires !Decoded(reg)
    ensures DistRead(d, rankOf, dabt, reg) == ReadUnhandled
    ensures DistWrite(d, rankOf, dabt, reg, r) == WriteUnhandled
  {
  }

  /** The read-as-zero and write-ignored offsets accept a word and nothing else. */
  lemma IgnoredRegisters(d: Dist, rankOf: RankOffset, dabt: Dabt, reg: int, r: bv64)
    ensures ReadAsZeroRange(reg) ==>
      DistRead(d, rankOf, dabt, reg) == if dabt.size == DABT_WORD then ReadDone(0) else ReadCrash
    ensures WriteIgnoreRange(reg) ==>
      DistWrite(d, rankOf, dabt, reg, r) == if dabt.size == DABT_WORD then WriteDone(d, NoEffect) else WriteCrash
  {
  }

  /** CTLR keeps only the enable bit of a store and reads back what it keeps. */
  lemma CtlrRoundTrip(d: Dist, rankOf: RankOffset, sign: bool, r: bv64)
    ensures DistWrite(d, rankOf, Dabt(DABT_WORD, sign), GICD_CTLR, r) ==
      WriteDone(d.(ctlr := Lo32(r) & GICD_CTL_ENABLE), NoEffect)
    ensures DistRead(d.(ctlr := Lo32(r) & GICD_CTL_ENABLE), rankOf, Dabt(DABT_WORD, sign), GICD_CTLR) ==
      ReadDone(r & 1)
  {
  }

  /** TYPER and IIDR are read-only: fixed reads, ignored word writes; SGIR reads as a marker value. */
  lemma IdentificationRegisters(d: Dist, rankOf: RankOffset, sign: bool, r: bv64)
    ensures DistRead(d, rankOf, Dabt(DABT_WORD, sign), GICD_TYPER) == ReadDone(Zx(TyperAsWritten(d.maxVcpus, d.nrLines)))
    ensures DistRead(d, rankOf, Dabt(DABT_WORD, sign), GICD_IIDR) == ReadDone(0x43b)
    ensures DistWrite(d, rankOf, Dabt(DABT_WORD, sign), GICD_TYPER, r) == WriteDone(d, NoEffect)
    ensures DistWrite(d, rankOf, Dabt(DABT_WORD, sign), GICD_IIDR, r) == WriteDone(d, NoEffect)
    ensures DistRead(d, rankOf, Dabt(DABT_WORD, sign), GICD_SGIR) == ReadDone(0xdead_beef)
  {
  }

  /** Stores to a rank-backed register reach RankWrite (ITARGETSR words 0-1 and ICFGR0-1 are ignored before). */
  lemma WriteDispatch(d: Dist, rankOf: RankOffset, dabt: Dabt, bank: Bank, reg: int, r: bv64)
    requires InBank(bank, reg) && Stored(bank)
    requires bank.Itargetsr? ==> reg >= GICD_ITARGETSR + 8
    requires bank.Icfgr? ==> reg >= GICD_ICFGR + 2
    ensures DistWrite(d, rankOf, dabt, reg, r) == RankWrite(d, rankOf, dabt, bank, reg, Lo32(r))
  {
    WriteDecodesBank(bank, reg);
  }

  /** The offset decoding behind WriteDispatch. */
  lemma WriteDecodesBank(bank: Bank, reg: int)
    requires InBank(bank, reg) && Stored(bank)
    requires bank.Itargetsr? ==> reg >= GICD_ITARGETSR + 8
    requires bank.Icfgr? ==> reg >= GICD_ICFGR + 2
    ensures reg != GICD_CTLR && !WriteIgnoreRange(reg) && !UnhandledPendingRange(reg) && BankOf(reg) == Some(bank)
  {
  }

  /** Loads from a rank-backed register reach RankRead. */
  lemma ReadDispatch(d: Dist, rankOf: RankOffset, dabt: Dabt, bank: Bank, reg: int)
    requires InBank(bank, reg)
    ensures DistRead(d, rankOf, dabt, reg) == RankRead(d, rankOf, dabt, bank, reg)
  {
    ReadDecodesBank(bank, reg);
  }

  /** The offset decoding behind ReadDispatch. */
  lemma ReadDecodesBank(bank: Bank, reg: int)
    requires InBank(bank, reg)
    ensures reg != GICD_CTLR && reg != GICD_TYPER && reg != GICD_IIDR && !ReadAsZeroRange(reg)
    ensures BankOf(reg) == Some(bank)
  {
  }

  /** With an accepted width and a rank, a store replaces the rank by BankWrite's. */
  lemma RankWriteStores(d: Dist, rankOf: RankOffset, dabt: Dabt, bank: Bank, reg: int, w: bv32)
    requires InBank(bank, reg) && Stored(bank) && BankRank(d, rankOf, bank, reg).Some?
    requires dabt.size == DABT_WORD || (ByteWide(bank) && dabt.size == DABT_BYTE)
    ensures var id := BankRank(d, rankOf, bank, reg).value;
      var res := BankWrite(bank, d.ranks[id], dabt, reg, w);
      RankWrite(d, rankOf, dabt, bank, reg, w) == WriteDone(d.(ranks := d.ranks[id := res.0]), res.1)
  {
  }

  /** With an accepted width and a rank, a load returns BankRead's value. */
  lemma RankReadLoads(d: Dist, rankOf: RankOffset, dabt: Dabt, bank: Bank, reg: int)
    requires InBank(bank, reg) && BankRank(d, rankOf, bank, reg).Some?
    requires dabt.size == DABT_WORD || (ByteWide(bank) && dabt.size == DABT_BYTE)
    ensures RankRead(d, rankOf, dabt, bank, reg) ==
      ReadDone(Zx(BankRead(bank, d.ranks[BankRank(d, rankOf, bank, reg).value], dabt, reg)))
  {
  }

  /** A store to a rank-backed register with an accepted width and a rank replaces that rank by BankWrite's. */
  lemma RankStore(d: Dist, rankOf: RankOffset, dabt: Dabt, bank: Bank, reg: int, r: bv64, id: int)
    requires InBank(bank, reg) && Stored(bank) && BankRank(d, rankOf, bank, reg) == Some(id)
    requires bank.Itargetsr? ==> reg >= GICD_ITARGETSR + 8
    requires bank.Icfgr? ==> reg >= GICD_ICFGR + 2
    requires dabt.size == DABT_WORD || (ByteWide(bank) && dabt.size == DABT_BYTE)
    ensures DistWrite(d, rankOf, dabt, reg, r) ==
      WriteDone(d.(ranks := d.ranks[id := BankWrite(bank, d.ranks[id], dabt, reg, Lo32(r)).0]),
                BankWrite(bank, d.ranks[id], dabt, reg, Lo32(r)).1)
  {
    WriteDispatch(d, rankOf, dabt, bank, reg, r);
    RankWriteStores(d, rankOf, dabt, bank, reg, Lo32(r));
  }

  /**
   * ISENABLER ORs the stored word into ienable and enables exactly the bits
   * that were off; register n of the bank is (reg - GICD_ISENABLER) / 4.
   */
  lemma EnableSetRegister(d: Dist, rankOf: RankOffset, sign: bool, k: int, r: bv64, id: int)
    requires 0 <= k <= 0x7c && BankRank(d, rankOf, Isenabler, GICD_ISENABLER + k) == Some(id)
    ensures DistWrite(d, rankOf, Dabt(DABT_WORD, sign), GICD_ISENABLER + k, r) ==
      WriteDone(d.(ranks := d.ranks[id := d.ranks[id].(ienable := d.ranks[id].ienable | Lo32(r))]), EnableIrqs(Lo32(r) & !d.ranks[id].ienable, k / 4))
  {
    RankStore(d, rankOf, Dabt(DABT_WORD, sign), Isenabler, GICD_ISENABLER + k, r, id);
    IsenablerWrite(d.ranks[id], Dabt(DABT_WORD, sign), k, Lo32(r));
  }

  lemma IsenablerWrite(rk: Rank, dabt: Dabt, k: int, w: bv32)
    requires 0 <= k <= 0x7c
    ensures BankWrite(Isenabler, rk, dabt, GICD_ISENABLER + k, w).0 == rk.(ienable := rk.ienable | w)
    ensures BankWrite(Isenabler, rk, dabt, GICD_ISENABLER + k, w).1 == EnableIrqs(w & !rk.ienable, k / 4)
  {
  }

  /** ICENABLER clears the stored bits of ienable and disables the stored bits that were on. */
  lemma EnableClearRegister(d: Dist, rankOf: RankOffset, sign: bool, k: int, r: bv64, id: int)
    requires 0 <= k <= 0x7c && BankRank(d, rankOf, Icenabler, GICD_ICENABLER + k) == Some(id)
    ensures DistWrite(d, rankOf, Dabt(DABT_WORD, sign), GICD_ICENABLER + k, r) ==
      WriteDone(d.(ranks := d.ranks[id := d.ranks[id].(ienable := d.ranks[id].ienable & !Lo32(r))]), DisableIrqs(Lo32(r) & d.ranks[id].ienable, k / 4))
  {
    RankStore(d, rankOf, Dabt(DABT_WORD, sign), Icenabler, GICD_ICENABLER + k, r, id);
    IcenablerWrite(d.ranks[id], Dabt(DABT_WORD, sign), k, Lo32(r));
  }

  lemma IcenablerWrite(rk: Rank, dabt: Dabt, k: int, w: bv32)
    requires 0 <= k <= 0x7c
    ensures BankWrite(Icenabler, rk, dabt, GICD_ICENABLER + k, w).0 == rk.(ienable := rk.ienable & !w)
    ensures BankWrite(Icenabler, rk, dabt, GICD_ICENABLER + k, w).1 == DisableIrqs(w & rk.ienable, k / 4)
  {
  }

  /** Both enable banks read ienable: the set and the clear view of a register agree. */
  lemma EnableBanksRead(d: Dist, rankOf: RankOffset, sign: bool, k: int)
    requires 0 <= k <= 0x7c
    ensures DistRead(d, rankOf, Dabt(DABT_WORD, sign), GICD_ISENABLER + k) ==
            DistRead(d, rankOf, Dabt(DABT_WORD, sign), GICD_ICENABLER + k)
    ensures BankRank(d, rankOf, Isenabler, GICD_ISENABLER + k).Some? ==>
      var id := BankRank(d, rankOf, Isenabler, GICD_ISENABLER + k).value;
      DistRead(d, rankOf, Dabt(DABT_WORD, sign), GICD_ISENABLER + k) == ReadDone(Zx(d.ranks[id].ienable))
  {
    var dabt := Dabt(DABT_WORD, sign);
    ReadDispatch(d, rankOf, dabt, Isenabler, GICD_ISENABLER + k);
    ReadDispatch(d, rankOf, dabt, Icenabler, GICD_ICENABLER + k);
  }

  /**
   * Both active banks read iactive, and a store to either clears the
   * stored bits: the guest cannot set an interrupt active.
   */
  lemma ActiveBanksAgree(d: Dist, rankOf: RankOffset, sign: bool, k: int, r: bv64)
    requires 0 <= k <= 0x7c
    ensures DistRead(d, rankOf, Dabt(DABT_WORD, sign), GICD_ISACTIVER + k) ==
            DistRead(d, rankOf, Dabt(DABT_WORD, sign), GICD_ICACTIVER + k)
    ensures DistWrite(d, rankOf, Dabt(DABT_WORD, sign), GICD_ISACTIVER + k, r) ==
            DistWrite(d, rankOf, Dabt(DABT_WORD, sign), GICD_ICACTIVER + k, r)
  {
    var dabt := Dabt(DABT_WORD, sign);
    ReadDispatch(d, rankOf, dabt, Isactiver, GICD_ISACTIVER + k);
    ReadDispatch(d, rankOf, dabt, Icactiver, GICD_ICACTIVER + k);
    WriteDispatch(d, rankOf, dabt, Isactiver, GICD_ISACTIVER + k, r);
    WriteDispatch(d, rankOf, dabt, Icactiver, GICD_ICACTIVER + k, r);
  }

  /** A word store to ISACTIVER clears the stored bits of iactive. */
  lemma ActiveClear(d: Dist, rankOf: RankOffset, sign: bool, k: int, r: bv64, id: int)
    requires 0 <= k <= 0x7c && BankRank(d, rankOf, Isactiver, GICD_ISACTIVER + k) == Some(id)
    ensures DistWrite(d, rankOf, Dabt(DABT_WORD, sign), GICD_ISACTIVER + k, r) ==
      WriteDone(d.(ranks := d.ranks[id := d.ranks[id].(iactive := d.ranks[id].iactive & !Lo32(r))]), NoEffect)
  {
    RankStore(d, rankOf, Dabt(DABT_WORD, sign), Isactiver, GICD_ISACTIVER + k, r, id);
  }

  /** Stores to the pending-state banks are not emulated: a byte or word store is unhandled. */
  lemma PendingWritesUnhandled(d: Dist, rankOf: RankOffset, dabt: Dabt, reg: int, r: bv64)
    requires UnhandledPendingRange(reg)
    ensures DistWrite(d, rankOf, dabt, reg, r) == if ByteOrWord(dabt) then WriteUnhandled else WriteCrash
  {
  }

  /** The words of an 8-bit-per-interrupt bank, and the rank with those words replaced. */
  function ByteBank(bank: Bank, rk: Rank): Words8
    requires bank.Itargetsr? || bank.Ipriorityr?
  {
    if bank.Itargetsr? then rk.itargets else rk.ipriority
  }

  function WithByteBank(bank: Bank, rk: Rank, words: Words8): Rank
    requires bank.Itargetsr? || bank.Ipriorityr?
  {
    if bank.Itargetsr? then rk.(itargets := words) else rk.(ipriority := words)
  }

  /** The word of an 8-bit-per-interrupt bank after a byte or word store of w at reg. */
  function StoredWord(old_: bv32, dabt: Dabt, reg: int, w: bv32): bv32
  {
    if dabt.size == DABT_WORD then w else ByteWrite(old_, w, reg)
  }

  /** A byte or word store to ITARGETSR (words 2 and up) or IPRIORITYR replaces one word of the rank. */
  lemma ByteBankStore(d: Dist, rankOf: RankOffset, bank: Bank, dabt: Dabt, reg: int, k: int, r: bv64)
    requires bank.Itargetsr? || bank.Ipriorityr?
    requires (if bank.Itargetsr? then 8 else 0) <= k <= 0x3f8 && reg == BankBase(bank) + k && ByteOrWord(dabt)
    requires BankRank(d, rankOf, bank, reg).Some?
    ensures var id := BankRank(d, rankOf, bank, reg).value;
      var i := RankIndex(8, k as bv32, DABT_WORD); var words := ByteBank(bank, d.ranks[id]);
      DistWrite(d, rankOf, dabt, reg, r) ==
        WriteDone(d.(ranks := d.ranks[id := WithByteBank(bank, d.ranks[id], words[i := StoredWord(words[i], dabt, reg, Lo32(r))])]), NoEffect)
  {
    assert BankOffset(bank, reg) == k as bv32;
    WriteDispatch(d, rankOf, dabt, bank, reg, r);
    RankWriteStores(d, rankOf, dabt, bank, reg, Lo32(r));
  }

  /** A byte or word load from ITARGETSR or IPRIORITYR reads one word of the rank, narrowed for a byte. */
  lemma ByteBankLoad(d: Dist, rankOf: RankOffset, bank: Bank, dabt: Dabt, reg: int, k: int)
    requires bank.Itargetsr? || bank.Ipriorityr?
    requires 0 <= k <= 0x3f8 && reg == BankBase(bank) + k && ByteOrWord(dabt)
    requires BankRank(d, rankOf, bank, reg).Some?
    ensures var id := BankRank(d, rankOf, bank, reg).value;
      var w := ByteBank(bank, d.ranks[id])[RankIndex(8, k as bv32, DABT_WORD)];
      DistRead(d, rankOf, dabt, reg) == ReadDone(Zx(if dabt.size == DABT_BYTE then ByteRead(w, dabt.sign, reg) else w))
  {
    assert BankOffset(bank, reg) == k as bv32;
    ReadDispatch(d, rankOf, dabt, bank, reg);
    RankReadLoads(d, rankOf, dabt, bank, reg);
  }

  /**
   * Round trip through an 8-bit-per-interrupt bank: a word store reads back
   * as the word; a byte store reads back, unsigned, as the lane of the
   * stored register value at the byte's position, since vgic_byte_write
   * masks that value instead of shifting its low byte into the lane.
   */
  lemma ByteBankRoundTrip(d: Dist, rankOf: RankOffset, bank: Bank, dabt: Dabt, reg: int, k: int, r: bv64)
    requires bank.Itargetsr? || bank.Ipriorityr?
    requires (if bank.Itargetsr? then 8 else 0) <= k <= 0x3f8 && reg == BankBase(bank) + k
    requires ByteOrWord(dabt) && !dabt.sign
    requires BankRank(d, rankOf, bank, reg).Some?
    ensures var res := DistWrite(d, rankOf, dabt, reg, r);
      && res.WriteDone?
      && DistRead(res.state, rankOf, dabt, reg) ==
           ReadDone(if dabt.size == DABT_WORD then r & 0xffff_ffff else Zx(Lane(Lo32(r), reg % 4)))
  {
    var id := BankRank(d, rankOf, bank, reg).value;
    var i := RankIndex(8, k as bv32, DABT_WORD);
    var words := ByteBank(bank, d.ranks[id]);
    var stored := StoredWord(words[i], dabt, reg, Lo32(r));
    var d' := d.(ranks := d.ranks[id := WithByteBank(bank, d.ranks[id], words[i := stored])]);
    ByteBankStore(d, rankOf, bank, dabt, reg, k, r);
    assert BankRank(d', rankOf, bank, reg) == BankRank(d, rankOf, bank, reg);
    assert ByteBank(bank, d'.ranks[id])[i] == stored;
    ByteBankLoad(d', rankOf, bank, dabt, reg, k);
    LowByteOfStore(r);
    if dabt.size == DABT_BYTE {
      assert stored == ByteWrite(words[i], Lo32(r), reg);
      ByteWriteThenRead(words[i], Lo32(r), reg);
      ByteReadUnsigned(Lo32(r), reg);
    }
  }

  /**
   * IPRIORITYR: a byte store reads back as the lane of the stored value at
   * the byte's position and leaves the other three priorities of the word
   * as they were.
   */
  lemma PriorityRoundTrip(d: Dist, rankOf: RankOffset, k: int, r: bv64, j: nat)
    requires 0 <= k <= 0x3f8 && BankRank(d, rankOf, Ipriorityr, GICD_IPRIORITYR + k).Some? && j < 4
    ensures var reg := GICD_IPRIORITYR + k; var id := BankRank(d, rankOf, Ipriorityr, reg).value;
      var i := RankIndex(8, k as bv32, DABT_WORD);
      var res := DistWrite(d, rankOf, Dabt(DABT_BYTE, false), reg, r);
      && res.WriteDone?
      && DistRead(res.state, rankOf, Dabt(DABT_BYTE, false), reg) == ReadDone(Zx(Lane(Lo32(r), reg % 4)))
      && (j != reg % 4 ==> Lane(res.state.ranks[id].ipriority[i], j) == Lane(d.ranks[id].ipriority[i], j))
  {
    var reg := GICD_IPRIORITYR + k; var id := BankRank(d, rankOf, Ipriorityr, reg).value;
    var i := RankIndex(8, k as bv32, DABT_WORD);
    ByteBankRoundTrip(d, rankOf, Ipriorityr, Dabt(DABT_BYTE, false), reg, k, r);
    ByteBankStore(d, rankOf, Ipriorityr, Dabt(DABT_BYTE, false), reg, k, r);
    ByteWriteLanes(d.ranks[id].ipriority[i], Lo32(r), reg, j);
  }

  /**
   * A guest's byte store to the second priority of an IPRIORITYR word
   * (0xA0, say) reads back 0 whatever the byte: the value arrives in the
   * low byte of the register and vgic_byte_write keeps lane 1 of it.
   */
  lemma PriorityByteStoreLost(d: Dist, rankOf: RankOffset, k: int, r: bv64)
    requires 0 <= k <= 0x3f8 && k % 4 == 1 && BankRank(d, rankOf, Ipriorityr, GICD_IPRIORITYR + k).Some?
    requires r <= 0xff
    ensures var res := DistWrite(d, rankOf, Dabt(DABT_BYTE, false), GICD_IPRIORITYR + k, r);
      res.WriteDone? && DistRead(res.state, rankOf, Dabt(DABT_BYTE, false), GICD_IPRIORITYR + k) == ReadDone(0)
  {
    SecondLaneOffset(k);
    SecondLaneOfByte(r, GICD_IPRIORITYR + k);
    ByteBankRoundTrip(d, rankOf, Ipriorityr, Dabt(DABT_BYTE, false), GICD_IPRIORITYR + k, k, r);
  }

  lemma SecondLaneOffset(k: int)
    requires k % 4 == 1
    ensures (GICD_IPRIORITYR + k) % 4 == 1
  {
  }

  lemma SecondLaneOfByte(r: bv64, reg: int)
    requires r <= 0xff && reg % 4 == 1
    ensures Zx(Lane(Lo32(r), reg % 4)) == 0
  {
  }

  /** ITARGETSR words 2 and up (words 0 and 1 are read-only): the same byte round trip. */
  lemma TargetsRoundTrip(d: Dist, rankOf: RankOffset, k: int, r: bv64, j: nat)
    requires 8 <= k <= 0x3f8 && BankRank(d, rankOf, Itargetsr, GICD_ITARGETSR + k).Some? && j < 4
    ensures var reg := GICD_ITARGETSR + k; var id := BankRank(d, rankOf, Itargetsr, reg).value;
      var i := RankIndex(8, k as bv32, DABT_WORD);
      var res := DistWrite(d, rankOf, Dabt(DABT_BYTE, false), reg, r);
      && res.WriteDone?
      && DistRead(res.state, rankOf, Dabt(DABT_BYTE, false), reg) == ReadDone(Zx(Lane(Lo32(r), reg % 4)))
      && (j != reg % 4 ==> Lane(res.state.ranks[id].itargets[i], j) == Lane(d.ranks[id].itargets[i], j))
  {
    var reg := GICD_ITARGETSR + k; var id := BankRank(d, rankOf, Itargetsr, reg).value;
    var i := RankIndex(8, k as bv32, DABT_WORD);
    ByteBankRoundTrip(d, rankOf, Itargetsr, Dabt(DABT_BYTE, false), reg, k, r);
    ByteBankStore(d, rankOf, Itargetsr, Dabt(DABT_BYTE, false), reg, k, r);
    ByteWriteLanes(d.ranks[id].itargets[i], Lo32(r), reg, j);
  }

  lemma LowByteOfStore(r: bv64)
    ensures Zx(Lo32(r)) == r & 0xffff_ffff
    ensures Zx(Lo32(r) & 0xff) == r & 0xff
  {
  }

  /* ---------------------------------------------------------------------- */
  /* vgic_v2_to_sgi                                                         */

  /** What a GICD_SGIR write asks for: the target filter, the SGI and the CPU target list. */
  datatype SgiRequest = SgiRequest(mode: GicV2.SgiMode, virq: bv32, vcpuMask: bv32)

  /** vgic_v2_to_sgi as written: the reserved filter value 3 reaches BUG(). */
  datatype SgiDecodeAsWritten = SgiDecoded(req: SgiRequest) | SgiBug

  function SgirFilter(sgir: bv64): bv32
  {
    (Lo32(sgir) & GICD_SGI_TARGET_LIST_MASK) >> 24
  }

  function SgirFields(sgir: bv64, mode: GicV2.SgiMode): SgiRequest
  {
    SgiRequest(mode, Lo32(sgir) & GICD_SGI_INTID_MASK, (Lo32(sgir) & GICD_SGI_TARGET_MASK) >> 16)
  }

  function ToSgiAsWritten(sgir: bv64): SgiDecodeAsWritten
  {
    var irqmode := SgirFilter(sgir);
    if irqmode == GICD_SGI_TARGET_LIST_VAL then SgiDecoded(SgirFields(sgir, GicV2.TargetList))
    else if irqmode == GICD_SGI_TARGET_OTHERS_VAL then SgiDecoded(SgirFields(sgir, GicV2.TargetOthers))
    else if irqmode == GICD_SGI_TARGET_SELF_VAL then SgiDecoded(SgirFields(sgir, GicV2.TargetSelf))
    else SgiBug
  }

  /** A guest store of 0x0300_0000 to GICD_SGIR brings down the hypervisor as written. */
  lemma ToSgiReservedFilterBugs()
    ensures ToSgiAsWritten(0x0300_0000) == SgiBug
  {
  }

  /**
   * vgic_v2_to_sgi with the reserved filter rejected: None is an
   * unhandled write (return 0) instead of BUG().
   */
  function ToSgi(sgir: bv64): Option<SgiRequest>
  {
    var irqmode := SgirFilter(sgir);
    if irqmode == GICD_SGI_TARGET_LIST_VAL then Some(SgirFields(sgir, GicV2.TargetList))
    else if irqmode == GICD_SGI_TARGET_OTHERS_VAL then Some(SgirFields(sgir, GicV2.TargetOthers))
    else if irqmode == GICD_SGI_TARGET_SELF_VAL then Some(SgirFields(sgir, GicV2.TargetSelf))
    else None
  }

  /** Only the reserved filter is rejected, and the decoded fields fit their widths. */
  lemma ToSgiTotal(sgir: bv64)
    ensures ToSgi(sgir).None? <==> SgirFilter(sgir) == 3
    ensures ToSgi(sgir).Some? ==> ToSgi(sgir).value.virq < 16 && ToSgi(sgir).value.vcpuMask <= 0xff
    ensures ToSgi(sgir).Some? ==> ToSgiAsWritten(sgir) == SgiDecoded(ToSgi(sgir).value)
  {
  }

  /** Decoding what the GICv2 driver writes to GICD_SGIR recovers the request. */
  lemma ToSgiDecodesSgir(mode: GicV2.SgiMode, sgi: bv32, cpuMask: bv32)
    requires sgi < 16 && cpuMask <= 0xff
    ensures ToSgi(Zx(GicV2.SgirValue(mode, sgi, cpuMask))) ==
      Some(SgiRequest(mode, sgi, if mode.TargetList? then cpuMask else 0))
  {
    GicV2.SgirFields(mode, sgi, cpuMask);
    Lo32Zx(GicV2.SgirValue(mode, sgi, cpuMask));
  }

  /* ---------------------------------------------------------------------- */
  /* vgic_v2_vcpu_init                                                      */

  /** The ITARGETSR word of an SGI/PPI: every byte lane targets only vCPU vcpuId. */
  function PrivateTargets(vcpuId: nat): bv32
    requires vcpuId < 8
  {
    (1 << vcpuId) | (1 << (vcpuId + 8)) | (1 << (vcpuId + 16)) | (1 << (vcpuId + 24))
  }

  lemma {:induction false} PrivateTargetsLanes(vcpuId: nat, j: nat)
    requires vcpuId < 8 && j < 4
    ensures Lane(PrivateTargets(vcpuId), j) == 1 << vcpuId
  {
    match vcpuId
    case 0 => assert PrivateTargets(0) == 0x0101_0101;
    case 1 => assert PrivateTargets(1) == 0x0202_0202;
    case 2 => assert PrivateTargets(2) == 0x0404_0404;
    case 3 => assert PrivateTargets(3) == 0x0808_0808;
    case 4 => assert PrivateTargets(4) == 0x1010_1010;
    case 5 => assert PrivateTargets(5) == 0x2020_2020;
    case 6 => assert PrivateTargets(6) == 0x4040_4040;
    case 7 => assert PrivateTargets(7) == 0x8080_8080;
  }

  /** vgic_v2_vcpu_init: the eight target words of the private rank. */
  method VcpuInit(priv: Rank, vcpuId: nat) returns (r: Rank)
    requires vcpuId < 8
    ensures r == priv.(itargets := r.itargets)
    ensures forall i :: 0 <= i < 8 ==> r.itargets[i] == PrivateTargets(vcpuId)
  {
    var targets: seq<bv32> := priv.itargets;
    var i := 0;
    while i < 8
      invariant 0 <= i <= 8 && |targets| == 8
      invariant forall k :: 0 <= k < i ==> targets[k] == PrivateTargets(vcpuId)
    {
      targets := targets[i := PrivateTargets(vcpuId)];
      i := i + 1;
    }
    r := priv.(itargets := targets);
  }

  /* ---------------------------------------------------------------------- */
  /* The distributor state updated in place                                 */

  /** arch.vgic of a domain, with the ranks the handlers reach. */
  class Distributor {
    var ctlr: bv32
    const maxVcpus: bv32
    const nrLines: bv32
    var ranks: map<int, Rank>

    function State(): Dist
      reads this
    {
      Dist(ctlr, maxVcpus, nrLines, ranks)
    }

    constructor (maxVcpus: bv32, nrLines: bv32, ranks: map<int, Rank>)
      ensures State() == Dist(0, maxVcpus, nrLines, ranks)
    {
      this.ctlr := 0;
      this.maxVcpus := maxVcpus;
      this.nrLines := nrLines;
      this.ranks := ranks;
    }

    /** The read handler: returns 1 with *r, 0, or crashes the domain; nothing changes. */
    method MmioRead(rankOf: RankOffset, dabt: Dabt, reg: int) returns (res: ReadResult)
      ensures res == DistRead(State(), rankOf, dabt, reg)
    {
      res := DistRead(State(), rankOf, dabt, reg);
    }

    /** The write handler: on success the domain's ctlr and ranks take their new values. */
    method MmioWrite(rankOf: RankOffset, dabt: Dabt, reg: int, r: bv64) returns (res: WriteResult<Dist>)
      modifies this
      ensures res == DistWrite(old(State()), rankOf, dabt, reg, r)
      ensures State() == if res.WriteDone? then res.state else old(State())
    {
      res := DistWrite(State(), rankOf, dabt, reg, r);
      if res.WriteDone? {
        ctlr := res.state.ctlr;
        ranks := res.state.ranks;
        assert res.state.maxVcpus == maxVcpus && res.state.nrLines == nrLines;
      }
    }
  }
}
