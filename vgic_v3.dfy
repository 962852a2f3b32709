/*
 * The emulated GICv3 distributor and redistributor of xen/arch/arm/vgic-v3.c:
 * the trap handlers for guest loads and stores to the GICD region and to a
 * vCPU's redistributor (its RD_base and SGI_base 64 KiB frames), the
 * handler both share for the registers whose offsets coincide, and the
 * per-vCPU initialisation of the SGI/PPI routes.  Register layout as in
 * sections 8.9 and 8.11 of the GICv3 and GICv4 Architecture Specification.
 */
module VgicV3 {
  import opened VgicRank
  import opened GicRegs
  import VgicV2
  import GicV2

  /**
   * The identification values GICV3_GICD_IIDR_VAL, GICV3_GICD_PIDR0..4,
   * GICV3_GICR_IIDR_VAL, GICV3_GICR_PIDR0..4 and GICR_SYNCR_NOT_BUSY of
   * gic_v3_defs.h, which is not part of this model: the handlers return them
   * unchanged, so they are carried as data.
   */
  datatype IdValues = IdValues(
    gicdIidr: bv32, gicdPidr0: bv32, gicdPidr1: bv32, gicdPidr2: bv32, gicdPidr4: bv32,
    gicrIidr: bv32, gicrPidr0: bv32, gicrPidr1: bv32, gicrPidr2: bv32, gicrPidr4: bv32,
    syncrNotBusy: bv32)

  /**
   * The domain's virtual GICv3 as the handlers see it: arch.vgic.ctlr,
   * max_vcpus, arch.vgic.nr_lines, the ranks vgic_rank_offset can return
   * and the identification values.
   */
  datatype Dist = Dist(ctlr: bv32, maxVcpus: bv32, nrLines: bv32, ranks: map<int, Rank>, ids: IdValues)

  /** A register that takes one access size: any other crashes the domain. */
  function ReadSized(dabt: Dabt, size: nat, value: bv64): ReadResult
  {
    if dabt.size != size then ReadCrash else ReadDone(value)
  }

  /**
   * A store changes at most ctlr and the ranks: the domain's sizes and the
   * identification values stay as they were.
   */
  predicate KeepsConfig(d: Dist, res: WriteResult<Dist>)
  {
    res.WriteDone? ==> res.state.maxVcpus == d.maxVcpus && res.state.nrLines == d.nrLines && res.state.ids == d.ids
  }

  /** write_ignore (size DABT_WORD) and write_ignore_64 (size DABT_DOUBLE_WORD). */
  function IgnoreSized(d: Dist, dabt: Dabt, size: nat): (res: WriteResult<Dist>)
    ensures KeepsConfig(d, res)
  {
    if dabt.size != size then WriteCrash else WriteDone(d, NoEffect)
  }

  /* ---------------------------------------------------------------------- */
  /* Affinity values                                                        */

  /**
   * MPIDR_AFFINITY_LEVEL(mpidr, level): Aff0, Aff1 and Aff2 are bits 7:0,
   * 15:8 and 23:16 of MPIDR_EL1, Aff3 is bits 39:32.
   */
  function Aff(mpidr: bv64, level: nat): bv64
    requires level < 4
  {
    match level
    case 0 => mpidr & 0xff
    case 1 => (mpidr >> 8) & 0xff
    case 2 => (mpidr >> 16) & 0xff
    case 3 => (mpidr >> 32) & 0xff
  }

  /** GICR_TYPER: the vCPU's affinity in bits 63:32, everything else zero. */
  function GicrTyper(vmpidr: bv64): bv64
  {
    (Aff(vmpidr, 3) << 56) | (Aff(vmpidr, 2) << 48) | (Aff(vmpidr, 1) << 40) | (Aff(vmpidr, 0) << 32)
  }

  /** Affinity_Value of GICR_TYPER: Aff0 at bit 32 up to Aff3 at bit 56. */
  function TyperAff(typer: bv64, level: nat): bv64
    requires level < 4
  {
    match level
    case 0 => (typer >> 32) & 0xff
    case 1 => (typer >> 40) & 0xff
    case 2 => (typer >> 48) & 0xff
    case 3 => (typer >> 56) & 0xff
  }

  /** A guest reading GICR_TYPER finds each affinity level of its vCPU, and zero below bit 32. */
  lemma GicrTyperAffinity(vmpidr: bv64, level: nat)
    requires level < 4
    ensures TyperAff(GicrTyper(vmpidr), level) == Aff(vmpidr, level)
  {
    var t := GicrTyper(vmpidr);
    match level
    case 0 => assert (t >> 32) & 0xff == vmpidr & 0xff;
    case 1 => assert (t >> 40) & 0xff == (vmpidr >> 8) & 0xff;
    case 2 => assert (t >> 48) & 0xff == (vmpidr >> 16) & 0xff;
    case 3 => assert (t >> 56) & 0xff == (vmpidr >> 32) & 0xff;
  }

  lemma GicrTyperLowHalf(vmpidr: bv64)
    ensures GicrTyper(vmpidr) & 0xffff_ffff == 0
  {
  }

  /**
   * The route vgicv3_vcpu_init gives the SGIs and PPIs: the affinity levels
   * at their GICD_IROUTER positions (which are those of MPIDR_EL1), with
   * Interrupt_Routing_Mode clear.
   */
  function VcpuAffinity(vmpidr: bv64): bv64
  {
    (Aff(vmpidr, 3) << 32) | (Aff(vmpidr, 2) << 16) | (Aff(vmpidr, 1) << 8) | Aff(vmpidr, 0)
  }

  /** The route is MPIDR_EL1 with everything but the four affinity fields masked off. */
  lemma VcpuAffinityIsMpidrAffinity(vmpidr: bv64)
    ensures VcpuAffinity(vmpidr) == vmpidr & 0xff_00ff_ffff
  {
  }

  /** Decoding the route as GICD_IROUTER gives back the vCPU's affinity, level by level. */
  lemma VcpuAffinityLevels(vmpidr: bv64, level: nat)
    requires level < 4
    ensures Aff(VcpuAffinity(vmpidr), level) == Aff(vmpidr, level)
  {
    VcpuAffinityIsMpidrAffinity(vmpidr);
    var a := vmpidr & 0xff_00ff_ffff;
    match level
    case 0 => assert a & 0xff == vmpidr & 0xff;
    case 1 => assert (a >> 8) & 0xff == (vmpidr >> 8) & 0xff;
    case 2 => assert (a >> 16) & 0xff == (vmpidr >> 16) & 0xff;
    case 3 => assert (a >> 32) & 0xff == (vmpidr >> 32) & 0xff;
  }

  /* ---------------------------------------------------------------------- */
  /* Redistributor RD_base frame                                            */

  /** RD-frame registers that are read as zero with a word access. */
  predicate RdReadAsZero(reg: int)
  {
    reg == GICR_CTLR || reg == GICR_STATUSR || reg == GICR_WAKER
    || reg == GICR_PIDR3 || GICR_PIDR5 <= reg <= GICR_PIDR7
  }

  /** The LPI registers: read as zero and write ignored with a doubleword access. */
  predicate LpiRegister(reg: int)
  {
    reg == GICR_SETLPIR || reg == GICR_CLRLPIR || reg == GICR_PROPBASER || reg == GICR_PENDBASER
    || reg == GICR_INVLPIR || reg == GICR_INVALLR || reg == GICR_MOVLPIR || reg == GICR_MOVALLR
  }

  /** The identification registers of the RD frame and their values. */
  function RdIdValue(ids: IdValues, reg: int): Option<bv32>
  {
    if reg == GICR_IIDR then Some(ids.gicrIidr)
    else if reg == GICR_SYNCR then Some(ids.syncrNotBusy)
    else if reg == GICR_PIDR0 then Some(ids.gicrPidr0)
    else if reg == GICR_PIDR1 then Some(ids.gicrPidr1)
    else if reg == GICR_PIDR2 then Some(ids.gicrPidr2)
    else if reg == GICR_PIDR4 then Some(ids.gicrPidr4)
    else None
  }

  /** __vgic_v3_rdistr_rd_mmio_read for a load from offset reg of the RD frame. */
  function RdRead(ids: IdValues, vmpidr: bv64, dabt: Dabt, reg: int): ReadResult
  {
    if RdReadAsZero(reg) then ReadSized(dabt, DABT_WORD, 0)
    else if reg == GICR_TYPER then ReadSized(dabt, DABT_DOUBLE_WORD, GicrTyper(vmpidr))
    else if LpiRegister(reg) then ReadSized(dabt, DABT_DOUBLE_WORD, 0)
    else if RdIdValue(ids, reg).Some? then ReadSized(dabt, DABT_WORD, Zx(RdIdValue(ids, reg).value))
    else ReadUnhandled
  }

  /** RD-frame registers whose stores are ignored with a word access (PIDR7 up to PIDR0 only). */
  predicate RdWordIgnored(reg: int)
  {
    reg == GICR_CTLR || reg == GICR_IIDR || reg == GICR_STATUSR || reg == GICR_WAKER
    || reg == GICR_SYNCR || GICR_PIDR7 <= reg <= GICR_PIDR0
  }

  /** RD-frame registers whose stores are ignored with a doubleword access. */
  predicate RdDwordIgnored(reg: int)
  {
    reg == GICR_TYPER || LpiRegister(reg)
  }

  /** __vgic_v3_rdistr_rd_mmio_write for a store to offset reg of the RD frame. */
  function RdWrite(d: Dist, dabt: Dabt, reg: int): (res: WriteResult<Dist>)
    ensures KeepsConfig(d, res)
  {
    if RdWordIgnored(reg) then IgnoreSized(d, dabt, DABT_WORD)
    else if RdDwordIgnored(reg) then IgnoreSized(d, dabt, DABT_DOUBLE_WORD)
    else WriteUnhandled
  }

  /**
   * Nothing in the RD frame is writable: a store succeeds exactly when the
   * register is known and the access has its width, and changes nothing.
   */
  lemma RdWritesChangeNothing(d: Dist, dabt: Dabt, reg: int)
    ensures RdWrite(d, dabt, reg).WriteDone? <==>
      (RdWordIgnored(reg) && dabt.size == DABT_WORD) || (RdDwordIgnored(reg) && dabt.size == DABT_DOUBLE_WORD)
    ensures RdWrite(d, dabt, reg).WriteDone? ==> RdWrite(d, dabt, reg) == WriteDone(d, NoEffect)
    ensures RdWrite(d, dabt, reg).WriteCrash? <==>
      (RdWordIgnored(reg) && dabt.size != DABT_WORD) || (RdDwordIgnored(reg) && dabt.size != DABT_DOUBLE_WORD)
  {
  }

  /** GICR_TYPER takes only a doubleword load and returns the vCPU's affinity. */
  lemma RdTyperRead(ids: IdValues, vmpidr: bv64, dabt: Dabt)
    ensures RdRead(ids, vmpidr, dabt, GICR_TYPER) ==
      if dabt.size == DABT_DOUBLE_WORD then ReadDone(GicrTyper(vmpidr)) else ReadCrash
  {
  }

  /** Loads from the LPI registers read zero with a doubleword access and crash with any other. */
  lemma RdLpiRegistersReadZero(ids: IdValues, vmpidr: bv64, dabt: Dabt, reg: int)
    requires LpiRegister(reg)
    ensures RdRead(ids, vmpidr, dabt, reg) == if dabt.size == DABT_DOUBLE_WORD then ReadDone(0) else ReadCrash
  {
  }

  /**
   * The identification registers the RD-frame store handler leaves out
   * (PIDR1 to PIDR5 lie outside the PIDR7 .. PIDR0 range) are readable but
   * a store to them is unhandled.
   */
  lemma RdIdentificationStoresUnhandled(d: Dist, vmpidr: bv64, dabt: Dabt)
    requires dabt.size == DABT_WORD
    ensures RdRead(d.ids, vmpidr, dabt, GICR_PIDR2) == ReadDone(Zx(d.ids.gicrPidr2))
    ensures RdWrite(d, dabt, GICR_PIDR2) == WriteUnhandled
    ensures RdWrite(d, dabt, GICR_PIDR4) == WriteUnhandled
    ensures RdWrite(d, dabt, GICR_PIDR0) == WriteDone(d, NoEffect)
  {
  }

  /* ---------------------------------------------------------------------- */
  /* Registers common to the distributor and the SGI frame                  */

  /** The register banks __vgic_v3_distr_common_mmio_read/write decode. */
  datatype Bank =
    | Igroupr | Isenabler | Icenabler | Ispendr | Icpendr | Isactiver | Icactiver | Ipriorityr | Icfgr

  function BankBase(bank: Bank): int
  {
    match bank
    case Igroupr => GICD_IGROUPR
    case Isenabler => GICD_ISENABLER
    case Icenabler => GICD_ICENABLER
    case Ispendr => GICD_ISPENDR
    case Icpendr => GICD_ICPENDR
    case Isactiver => GICD_ISACTIVER
    case Icactiver => GICD_ICACTIVER
    case Ipriorityr => GICD_IPRIORITYR
    case Icfgr => GICD_ICFGR
  }

  function BankLast(bank: Bank): int
  {
    match bank
    case Igroupr => GICD_IGROUPRN
    case Isenabler => GICD_ISENABLERN
    case Icenabler => GICD_ICENABLERN
    case Ispendr => GICD_ISPENDRN
    case Icpendr => GICD_ICPENDRN
    case Isactiver => GICD_ISACTIVERN
    case Icactiver => GICD_ICACTIVERN
    case Ipriorityr => GICD_IPRIORITYRN
    case Icfgr => GICD_ICFGRN
  }

  predicate InBank(bank: Bank, reg: int)
  {
    BankBase(bank) <= reg <= BankLast(bank)
  }

  /** The bank whose offset range holds reg, if any (the ranges do not overlap). */
  function BankOf(reg: int): (b: Option<Bank>)
    ensures b.Some? ==> InBank(b.value, reg)
  {
    if InBank(Igroupr, reg) then Some(Igroupr)
    else if InBank(Isenabler, reg) then Some(Isenabler)
    else if InBank(Icenabler, reg) then Some(Icenabler)
    else if InBank(Ispendr, reg) then Some(Ispendr)
    else if InBank(Icpendr, reg) then Some(Icpendr)
    else if InBank(Isactiver, reg) then Some(Isactiver)
    else if InBank(Icactiver, reg) then Some(Icactiver)
    else if InBank(Ipriorityr, reg) then Some(Ipriorityr)
    else if InBank(Icfgr, reg) then Some(Icfgr)
    else None
  }

  /** Bits per interrupt, the b passed to vgic_rank_offset. */
  function BankBits(bank: Bank): int
  {
    match bank
    case Ipriorityr => 8
    case Icfgr => 2
    case _ => 1
  }

  /** The rank vgic_rank_offset returns for an access to reg in bank, if any. */
  function BankRank(d: Dist, rankOf: RankOffset, bank: Bank, reg: int): Option<int>
  {
    LookupRank(d.ranks, rankOf, BankBits(bank), reg - BankBase(bank), DABT_WORD)
  }

  /** The banks whose loads also accept a byte access. */
  predicate ByteReadable(bank: Bank)
  {
    bank.Ispendr? || bank.Icpendr? || bank.Ipriorityr?
  }

  /** What a load from reg in bank reads from the rank. */
  function BankRead(bank: Bank, rk: Rank, dabt: Dabt, reg: int): bv32
    requires InBank(bank, reg) && !bank.Igroupr?
  {
    var n := (reg - BankBase(bank)) as bv32;
    match bank
    case Isenabler | Icenabler => rk.ienable
    case Ispendr | Icpendr => ByteRead(rk.ipend, dabt.sign, reg)
    case Isactiver | Icactiver => rk.iactive
    case Ipriorityr => VgicV2.ByteOrWordOf(rk.ipriority, dabt, n, reg)
    case Icfgr => rk.icfg[RankIndex(2, n, DABT_WORD)]
  }

  /** __vgic_v3_distr_common_mmio_read for reg in bank. */
  function CommonRead(d: Dist, rankOf: RankOffset, dabt: Dabt, bank: Bank, reg: int): ReadResult
    requires InBank(bank, reg)
  {
    if bank.Igroupr? then ReadSized(dabt, DABT_WORD, 0)
    else if !(dabt.size == DABT_WORD || (ByteReadable(bank) && dabt.size == DABT_BYTE)) then ReadCrash
    else match BankRank(d, rankOf, bank, reg)
      case None => ReadSized(dabt, DABT_WORD, 0)
      case Some(id) => ReadDone(Zx(BankRead(bank, d.ranks[id], dabt, reg)))
  }

  /** The rank after a store of w to reg in bank, and what is handed on to enable or disable interrupts. */
  function BankWrite(bank: Bank, rk: Rank, dabt: Dabt, reg: int, w: bv32): (Rank, Effect)
    requires InBank(bank, reg) && !bank.Igroupr?
  {
    var n := (reg - BankBase(bank)) as bv32;
    match bank
    case Isenabler => (rk.(ienable := rk.ienable | w), EnableIrqs(w & !rk.ienable, (reg - GICD_ISENABLER) / 4))
    case Icenabler => (rk.(ienable := rk.ienable & !w), DisableIrqs(w & rk.ienable, (reg - GICD_ICENABLER) / 4))
    case Ispendr => (rk.(ipend := w), NoEffect)
    case Icpendr => (rk.(ipend := rk.ipend & !w), NoEffect)
    case Isactiver | Icactiver => (rk.(iactive := rk.iactive & !w), NoEffect)
    case Ipriorityr => (rk.(ipriority := VgicV2.StoreByteOrWord(rk.ipriority, dabt, n, reg, w)), NoEffect)
    case Icfgr => (rk.(icfg := rk.icfg[RankIndex(2, n, DABT_WORD) := w]), NoEffect)
  }

  /** A rank-backed store: width check, rank lookup (ignored when there is none), store. */
  function RankWrite(d: Dist, rankOf: RankOffset, dabt: Dabt, bank: Bank, reg: int, w: bv32): (res: WriteResult<Dist>)
    requires InBank(bank, reg) && !bank.Igroupr?
    ensures KeepsConfig(d, res)
  {
    if !(dabt.size == DABT_WORD || (bank.Ipriorityr? && dabt.size == DABT_BYTE)) then WriteCrash
    else match BankRank(d, rankOf, bank, reg)
      case None => IgnoreSized(d, dabt, DABT_WORD)
      case Some(id) =>
        WriteDone(d.(ranks := d.ranks[id := BankWrite(bank, d.ranks[id], dabt, reg, w).0]),
                  BankWrite(bank, d.ranks[id], dabt, reg, w).1)
  }

  /**
   * __vgic_v3_distr_common_mmio_write for reg in bank: ICFGR0 is ignored,
   * the three offsets after it are unhandled, ICFGR1 onwards is stored.
   */
  function CommonWrite(d: Dist, rankOf: RankOffset, dabt: Dabt, bank: Bank, reg: int, r: bv64): (res: WriteResult<Dist>)
    requires InBank(bank, reg)
    ensures KeepsConfig(d, res)
  {
    if bank.Igroupr? || (bank.Icfgr? && reg == GICD_ICFGR) then IgnoreSized(d, dabt, DABT_WORD)
    else if bank.Icfgr? && reg < GICD_ICFGR + 4 then WriteUnhandled
    else RankWrite(d, rankOf, dabt, bank, reg, Lo32(r))
  }

  /* ---------------------------------------------------------------------- */
  /* Redistributor SGI_base frame                                           */

  /** The SGI-frame loads handed to the common handler, and the bank they fall in. */
  function SgiReadBank(reg: int): (b: Option<Bank>)
    ensures b.Some? ==> InBank(b.value, reg)
  {
    if reg == GICR_IGROUPR0 then Some(Igroupr)
    else if reg == GICR_ISENABLER0 then Some(Isenabler)
    else if reg == GICR_ICENABLER0 then Some(Icenabler)
    else if reg == GICR_ISACTIVER0 then Some(Isactiver)
    else if reg == GICR_ICACTIVER0 then Some(Icactiver)
    else if GICR_IPRIORITYR0 <= reg <= GICR_IPRIORITYR7 then Some(Ipriorityr)
    else if GICR_ICFGR0 <= reg <= GICR_ICFGR1 then Some(Icfgr)
    else None
  }

  /** The SGI-frame stores handed to the common handler: the same, with ICFGR1 alone. */
  function SgiWriteBank(reg: int): (b: Option<Bank>)
    ensures b.Some? ==> InBank(b.value, reg)
  {
    if reg == GICR_ICFGR0 then None
    else SgiReadBank(reg)
  }

  /** GICR_ISPENDR0 and GICR_ICPENDR0 loads: the software-tracked SGI pending word. */
  function PendSgiRead(d: Dist, rankOf: RankOffset, dabt: Dabt, n: int): ReadResult
  {
    if dabt.size != DABT_WORD then ReadCrash
    else match LookupRank(d.ranks, rankOf, 1, n, DABT_WORD)
      case None => ReadDone(0)
      case Some(id) => ReadDone(Zx(d.ranks[id].pendsgi))
  }

  /**
   * GICR_ISPENDR0 (setBits) and GICR_ICPENDR0 (clear) stores: OR the written bits
   * into pendsgi or clear them, the rank being looked up at offset n.
   */
  function PendSgiWrite(d: Dist, rankOf: RankOffset, dabt: Dabt, n: int, setBits: bool, r: bv64): (res: WriteResult<Dist>)
    ensures KeepsConfig(d, res)
  {
    if dabt.size != DABT_WORD then WriteCrash
    else match LookupRank(d.ranks, rankOf, 1, n, DABT_WORD)
      case None => WriteDone(d, NoEffect)
      case Some(id) =>
        var rk := d.ranks[id];
        var p := if setBits then rk.pendsgi | Lo32(r) else rk.pendsgi & !Lo32(r);
        WriteDone(d.(ranks := d.ranks[id := rk.(pendsgi := p)]), NoEffect)
  }

  /** vgic_v3_rdistr_sgi_mmio_read for a load from offset reg of the SGI frame. */
  function SgiRead(d: Dist, rankOf: RankOffset, dabt: Dabt, reg: int): ReadResult
  {
    if reg == GICR_IGRPMODR0 then ReadSized(dabt, DABT_WORD, 0)
    else if SgiReadBank(reg).Some? then CommonRead(d, rankOf, dabt, SgiReadBank(reg).value, reg)
    else if reg == GICR_ISPENDR0 then PendSgiRead(d, rankOf, dabt, reg - GICR_ISPENDR0)
    else if reg == GICR_ICPENDR0 then PendSgiRead(d, rankOf, dabt, reg - GICR_ICPENDR0)
    else if reg == GICR_NSACR then (if dabt.size != DABT_WORD then ReadCrash else ReadKept)
    else ReadUnhandled
  }

  /**
   * The offset at which the GICR_ISPENDR0 and GICR_ICPENDR0 stores look up
   * their rank: gicr_reg - GICR_ISACTIVER0, on the 32-bit unsigned gicr_reg.
   */
  function PendSgiStoreOffset(reg: int): int
  {
    (reg - GICR_ISACTIVER0) % 0x1_0000_0000
  }

  /**
   * vgic_v3_rdistr_sgi_mmio_write for a store to offset reg of the SGI
   * frame.  The pending-SGI stores look up their rank at PendSgiStoreOffset,
   * where the loads use the register's own offset 0.
   */
  function SgiWrite(d: Dist, rankOf: RankOffset, dabt: Dabt, reg: int, r: bv64): (res: WriteResult<Dist>)
    ensures KeepsConfig(d, res)
  {
    if reg == GICR_IGRPMODR0 || reg == GICR_NSACR then IgnoreSized(d, dabt, DABT_WORD)
    else if SgiWriteBank(reg).Some? then CommonWrite(d, rankOf, dabt, SgiWriteBank(reg).value, reg, r)
    else if reg == GICR_ISPENDR0 then PendSgiWrite(d, rankOf, dabt, PendSgiStoreOffset(reg), true, r)
    else if reg == GICR_ICPENDR0 then PendSgiWrite(d, rankOf, dabt, PendSgiStoreOffset(reg), false, r)
    else WriteUnhandled
  }

  /** The store handler with the pending-SGI rank looked up at offset 0, as the loads do. */
  function SgiWriteCorrected(d: Dist, rankOf: RankOffset, dabt: Dabt, reg: int, r: bv64): (res: WriteResult<Dist>)
    ensures KeepsConfig(d, res)
  {
    if reg == GICR_ISPENDR0 then PendSgiWrite(d, rankOf, dabt, reg - GICR_ISPENDR0, true, r)
    else if reg == GICR_ICPENDR0 then PendSgiWrite(d, rankOf, dabt, reg - GICR_ICPENDR0, false, r)
    else SgiWrite(d, rankOf, dabt, reg, r)
  }

  /**
   * A vgic_rank_offset for a one-rank domain: register offsets 0..3 of a
   * one-bit-per-interrupt bank name the private rank 0, every other offset
   * is out of range.
   */
  function PrivateRankOnly(b: int, n: int, s: int): Option<int>
  {
    if b == 1 && 0 <= n < 4 && s == DABT_WORD then Some(0) else None
  }

  /**
   * With that lookup, which refuses the offset 0xffffff00, a guest setting
   * SGI 0 pending through GICR_ISPENDR0 is ignored: the rank is looked up
   * at that wrapped offset.
   */
  lemma PendSgiLookupAsWritten(d: Dist, sign: bool)
    requires 0 in d.ranks
    ensures SgiWrite(d, PrivateRankOnly, Dabt(DABT_WORD, sign), GICR_ISPENDR0, 1) == WriteDone(d, NoEffect)
  {
    PendSgiSet(d, PrivateRankOnly, Dabt(DABT_WORD, sign), 1);
    assert PendSgiStoreOffset(GICR_ISPENDR0) == 0xffff_ff00;
  }

  /** The corrected handler records the same store in the private rank. */
  lemma PendSgiLookupCorrected(d: Dist, sign: bool)
    requires 0 in d.ranks
    ensures SgiWriteCorrected(d, PrivateRankOnly, Dabt(DABT_WORD, sign), GICR_ISPENDR0, 1) ==
      WriteDone(d.(ranks := d.ranks[0 := d.ranks[0].(pendsgi := d.ranks[0].pendsgi | 1)]), NoEffect)
  {
    assert LookupRank(d.ranks, PrivateRankOnly, 1, 0, DABT_WORD) == Some(0);
  }

  /**
   * A GICR_ISPENDR0 store takes only a word; it ORs the written SGIs into
   * pendsgi of the rank found at PendSgiStoreOffset, keeping the other SGIs,
   * and is ignored when there is no rank there.
   */
  lemma PendSgiSet(d: Dist, rankOf: RankOffset, dabt: Dabt, r: bv64)
    ensures var key := LookupRank(d.ranks, rankOf, 1, PendSgiStoreOffset(GICR_ISPENDR0), DABT_WORD);
      SgiWrite(d, rankOf, dabt, GICR_ISPENDR0, r) ==
        if dabt.size != DABT_WORD then WriteCrash
        else if key.None? then WriteDone(d, NoEffect)
        else WriteDone(d.(ranks := d.ranks[key.value := d.ranks[key.value].(pendsgi := d.ranks[key.value].pendsgi | Lo32(r))]), NoEffect)
  {
    assert SgiWriteBank(GICR_ISPENDR0).None?;
  }

  /** A GICR_ICPENDR0 store clears the written SGIs of that rank and keeps the others. */
  lemma PendSgiClear(d: Dist, rankOf: RankOffset, dabt: Dabt, r: bv64)
    ensures var key := LookupRank(d.ranks, rankOf, 1, PendSgiStoreOffset(GICR_ICPENDR0), DABT_WORD);
      SgiWrite(d, rankOf, dabt, GICR_ICPENDR0, r) ==
        if dabt.size != DABT_WORD then WriteCrash
        else if key.None? then WriteDone(d, NoEffect)
        else WriteDone(d.(ranks := d.ranks[key.value := d.ranks[key.value].(pendsgi := d.ranks[key.value].pendsgi & !Lo32(r))]), NoEffect)
  {
    assert SgiWriteBank(GICR_ICPENDR0).None?;
  }

  /** GICR_NSACR: a word load succeeds and leaves the register as it was; a store is ignored. */
  lemma NsacrKeepsRegister(d: Dist, rankOf: RankOffset, dabt: Dabt, r: bv64)
    ensures SgiRead(d, rankOf, dabt, GICR_NSACR) == if dabt.size == DABT_WORD then ReadKept else ReadCrash
    ensures SgiWrite(d, rankOf, dabt, GICR_NSACR, r) == IgnoreSized(d, dabt, DABT_WORD)
  {
  }

  /* ---------------------------------------------------------------------- */
  /* Redistributor region                                                   */

  /** The offset within the vCPU's redistributor: gpa & (rdist_stride - 1), on 32 bits. */
  function RdistOffset(gpa: bv64, stride: bv32): bv32
  {
    Lo32(gpa) & (stride - 1)
  }

  /** vgic_v3_rdistr_mmio_read: the first 64 KiB are the RD frame, the next 64 KiB the SGI frame. */
  function RdistRead(d: Dist, rankOf: RankOffset, vmpidr: bv64, stride: bv32, gpa: bv64, dabt: Dabt): ReadResult
  {
    var offset := RdistOffset(gpa, stride);
    if offset < 0x10000 then RdRead(d.ids, vmpidr, dabt, offset as int)
    else if offset < 0x20000 then SgiRead(d, rankOf, dabt, (offset - 0x10000) as int)
    else ReadUnhandled
  }

  /** vgic_v3_rdistr_mmio_write, with the same split. */
  function RdistWrite(d: Dist, rankOf: RankOffset, stride: bv32, gpa: bv64, dabt: Dabt, r: bv64): (res: WriteResult<Dist>)
    ensures KeepsConfig(d, res)
  {
    var offset := RdistOffset(gpa, stride);
    if offset < 0x10000 then RdWrite(d, dabt, offset as int)
    else if offset < 0x20000 then SgiWrite(d, rankOf, dabt, (offset - 0x10000) as int, r)
    else WriteUnhandled
  }

  /** Addresses one 128 KiB stride apart reach the same register of the next redistributor. */
  lemma RdistPeriodic(gpa: bv64)
    ensures RdistOffset(gpa + 0x20000, 0x20000) == RdistOffset(gpa, 0x20000)
  {
    Lo32Stride(gpa);
    MaskStride(Lo32(gpa + 0x20000), Lo32(gpa));
  }

  lemma Lo32Stride(gpa: bv64)
    ensures Lo32(gpa + 0x20000) == Lo32(gpa) + 0x20000
  {
  }

  lemma MaskStride(x: bv32, y: bv32)
    requires x == y + 0x20000
    ensures x & 0x1ffff == y & 0x1ffff
  {
  }

  /* ---------------------------------------------------------------------- */
  /* Distributor: GICD_IROUTER                                              */

  predicate IrouterSpi(reg: int)
  {
    GICD_IROUTER32 <= reg <= GICD_IROUTERN
  }

  /**
   * The irouter entry of the interrupt whose IROUTER is at reg, as written:
   * REG_RANK_INDEX(64, reg - GICD_IROUTER, DABT_DOUBLE_WORD), which keeps
   * six bits of the interrupt number.
   */
  function IrouterIndex(reg: int): bv32
    requires IrouterSpi(reg)
  {
    RankIndex(64, (reg - GICD_IROUTER) as bv32, DABT_DOUBLE_WORD)
  }

  /** The index counting the 32 routes of a rank: the interrupt number modulo 32. */
  function IrouterIndexCorrected(reg: int): bv32
    requires IrouterSpi(reg)
  {
    RankIndex(32, (reg - GICD_IROUTER) as bv32, DABT_DOUBLE_WORD)
  }

  /**
   * The corrected index counts the routes of a rank from 0 to 31: the first
   * and last SPI routes of the second rank, and the first of the third.
   */
  lemma IrouterIndexWithinRank()
    ensures IrouterIndexCorrected(GICD_IROUTER32) == 0
    ensures IrouterIndexCorrected(GICD_IROUTER32 + 8 * 31) == 31
    ensures IrouterIndexCorrected(GICD_IROUTER32 + 8 * 32) == 0
  {
  }

  /** As written, the route of interrupt 32 is entry 32 of a 32-entry array. */
  lemma IrouterIndexOverruns()
    ensures IrouterIndex(GICD_IROUTER32) == 32
  {
  }

  /**
   * GICD_IROUTER<n> loads for n >= 32: doubleword only.  With no rank the
   * load goes to read_as_zero, which wants a word and so crashes the domain
   * on the doubleword it was given; with a rank it reads irouter at
   * IrouterIndex, past the 32 routes for half of the interrupts.
   */
  function IrouterRead(d: Dist, rankOf: RankOffset, dabt: Dabt, reg: int): ReadResult
    requires IrouterSpi(reg)
  {
    if dabt.size != DABT_DOUBLE_WORD then ReadCrash
    else match LookupRank(d.ranks, rankOf, 64, reg - GICD_IROUTER, DABT_DOUBLE_WORD)
      case None => ReadSized(dabt, DABT_WORD, 0)
      case Some(id) =>
        if IrouterIndex(reg) < 32 then ReadDone(d.ranks[id].irouter[IrouterIndex(reg)])
        else ReadOutOfBounds
  }

  /** The load corrected: zero when there is no rank (read_as_zero_64), the route at IrouterIndexCorrected. */
  function IrouterReadCorrected(d: Dist, rankOf: RankOffset, dabt: Dabt, reg: int): ReadResult
    requires IrouterSpi(reg)
  {
    if dabt.size != DABT_DOUBLE_WORD then ReadCrash
    else match LookupRank(d.ranks, rankOf, 64, reg - GICD_IROUTER, DABT_DOUBLE_WORD)
      case None => ReadDone(0)
      case Some(id) => ReadDone(d.ranks[id].irouter[IrouterIndexCorrected(reg)])
  }

  /**
   * GICD_IROUTER<n> stores for n >= 32: doubleword only; a nonzero route
   * (another vCPU) is ignored, a zero route is stored at IrouterIndex.
   */
  function IrouterWrite(d: Dist, rankOf: RankOffset, dabt: Dabt, reg: int, r: bv64): (res: WriteResult<Dist>)
    requires IrouterSpi(reg)
    ensures KeepsConfig(d, res)
  {
    if dabt.size != DABT_DOUBLE_WORD then WriteCrash
    else match LookupRank(d.ranks, rankOf, 64, reg - GICD_IROUTER, DABT_DOUBLE_WORD)
      case None => WriteDone(d, NoEffect)
      case Some(id) =>
        if r != 0 then WriteDone(d, NoEffect)
        else if IrouterIndex(reg) < 32 then
          WriteDone(d.(ranks := d.ranks[id := d.ranks[id].(irouter := d.ranks[id].irouter[IrouterIndex(reg) := r])]), NoEffect)
        else WriteOutOfBounds
  }

  /** The store corrected: the route is stored at IrouterIndexCorrected. */
  function IrouterWriteCorrected(d: Dist, rankOf: RankOffset, dabt: Dabt, reg: int, r: bv64): (res: WriteResult<Dist>)
    requires IrouterSpi(reg)
    ensures KeepsConfig(d, res)
  {
    if dabt.size != DABT_DOUBLE_WORD then WriteCrash
    else match LookupRank(d.ranks, rankOf, 64, reg - GICD_IROUTER, DABT_DOUBLE_WORD)
      case None => WriteDone(d, NoEffect)
      case Some(id) =>
        if r != 0 then WriteDone(d, NoEffect)
        else WriteDone(d.(ranks := d.ranks[id := d.ranks[id].(irouter := d.ranks[id].irouter[IrouterIndexCorrected(reg) := r])]), NoEffect)
  }

  /* ---------------------------------------------------------------------- */
  /* Distributor                                                            */

  /** Offsets the distributor load handler reads as zero with a word access. */
  predicate DistReadAsZeroRange(reg: int)
  {
    || reg == GICD_STATUSR
    || 0x020 <= reg <= 0x03c || 0xc000 <= reg <= 0xffcc
    || GICD_NSACR <= reg <= GICD_NSACRN || reg == GICD_SGIR
    || GICD_CPENDSGIR <= reg <= GICD_CPENDSGIRN || GICD_SPENDSGIR <= reg <= GICD_SPENDSGIRN
    || reg == GICD_PIDR3 || GICD_PIDR5 <= reg <= GICD_PIDR7
    || reg == 0x00c || reg == 0x044 || reg == 0x04c || 0x05c <= reg <= 0x07c
    || 0xf30 <= reg <= 0x5fcc || 0x8000 <= reg <= 0xbfcc
  }

  /** The distributor's identification registers and their values. */
  function DistIdValue(d: Dist, reg: int): Option<bv32>
  {
    if reg == GICD_IIDR then Some(d.ids.gicdIidr)
    else if reg == GICD_PIDR0 then Some(d.ids.gicdPidr0)
    else if reg == GICD_PIDR1 then Some(d.ids.gicdPidr1)
    else if reg == GICD_PIDR2 then Some(d.ids.gicdPidr2)
    else if reg == GICD_PIDR4 then Some(d.ids.gicdPidr4)
    else None
  }

  /**
   * vgic_v3_distr_mmio_read for a load from offset reg of the distributor.
   * The common handler takes every bank but ICACTIVER, which no case lists.
   */
  function DistRead(d: Dist, rankOf: RankOffset, dabt: Dabt, reg: int): ReadResult
  {
    if reg == GICD_CTLR then ReadSized(dabt, DABT_WORD, Zx(d.ctlr))
    else if reg == GICD_TYPER then ReadSized(dabt, DABT_WORD, Zx(VgicV2.TyperAsWritten(d.maxVcpus, d.nrLines)))
    else if DistReadAsZeroRange(reg) then ReadSized(dabt, DABT_WORD, 0)
    else if BankOf(reg).Some? && !BankOf(reg).value.Icactiver? then CommonRead(d, rankOf, dabt, BankOf(reg).value, reg)
    else if GICD_IROUTER <= reg <= GICD_IROUTER31 then ReadSized(dabt, DABT_DOUBLE_WORD, 0)
    else if IrouterSpi(reg) then IrouterRead(d, rankOf, dabt, reg)
    else if DistIdValue(d, reg).Some? then ReadSized(dabt, DABT_WORD, Zx(DistIdValue(d, reg).value))
    else ReadUnhandled
  }

  /**
   * The load handler with three corrections: CPUNumber holds max_vcpus - 1,
   * the ICACTIVER bank goes to the common handler like ISACTIVER, and the
   * IROUTER load is IrouterReadCorrected.
   */
  function DistReadCorrected(d: Dist, rankOf: RankOffset, dabt: Dabt, reg: int): ReadResult
  {
    if reg == GICD_TYPER then ReadSized(dabt, DABT_WORD, Zx(VgicV2.Typer(d.maxVcpus, d.nrLines)))
    else if InBank(Icactiver, reg) then CommonRead(d, rankOf, dabt, Icactiver, reg)
    else if IrouterSpi(reg) then IrouterReadCorrected(d, rankOf, dabt, reg)
    else DistRead(d, rankOf, dabt, reg)
  }

  /** Offsets the distributor store handler ignores with a word access. */
  predicate DistWriteIgnoreRange(reg: int)
  {
    || reg == GICD_TYPER || reg == GICD_IIDR || reg == GICD_STATUSR
    || reg == GICD_SETSPI_NSR || reg == GICD_CLRSPI_NSR || reg == GICD_SETSPI_SR || reg == GICD_CLRSPI_SR
    || 0x020 <= reg <= 0x03c || 0xc000 <= reg <= 0xffcc
    || GICD_NSACR <= reg <= GICD_NSACRN || reg == GICD_SGIR
    || GICD_PIDR7 <= reg <= GICD_PIDR0
    || reg == 0x00c || reg == 0x044 || reg == 0x04c || 0x05c <= reg <= 0x07c
    || 0xf30 <= reg <= 0x5fcc || 0x8000 <= reg <= 0xbfcc
  }

  /** vgic_v3_distr_mmio_write for a store of r to offset reg. */
  function DistWrite(d: Dist, rankOf: RankOffset, dabt: Dabt, reg: int, r: bv64): (res: WriteResult<Dist>)
    ensures KeepsConfig(d, res)
  {
    if reg == GICD_CTLR then
      (if dabt.size != DABT_WORD then WriteCrash else WriteDone(d.(ctlr := Lo32(r) & GICD_CTL_ENABLE), NoEffect))
    else if DistWriteIgnoreRange(reg) then IgnoreSized(d, dabt, DABT_WORD)
    else if BankOf(reg).Some? then CommonWrite(d, rankOf, dabt, BankOf(reg).value, reg, r)
    else if GICD_IROUTER <= reg <= GICD_IROUTER31 then IgnoreSized(d, dabt, DABT_DOUBLE_WORD)
    else if IrouterSpi(reg) then IrouterWrite(d, rankOf, dabt, reg, r)
    else if GICD_CPENDSGIR <= reg <= GICD_CPENDSGIRN || GICD_SPENDSGIR <= reg <= GICD_SPENDSGIRN then
      (if dabt.size != DABT_WORD then WriteCrash else WriteUnhandled)
    else WriteUnhandled
  }

  /** The store handler with the IROUTER store of IrouterWriteCorrected. */
  function DistWriteCorrected(d: Dist, rankOf: RankOffset, dabt: Dabt, reg: int, r: bv64): (res: WriteResult<Dist>)
    ensures KeepsConfig(d, res)
  {
    if IrouterSpi(reg) then IrouterWriteCorrected(d, rankOf, dabt, reg, r)
    else DistWrite(d, rankOf, dabt, reg, r)
  }

  /* ---------------------------------------------------------------------- */
  /* Properties of the distributor                                          */

  /** The offset decoding behind DistReadDispatch: no earlier case of the load handler takes a bank offset. */
  lemma DistReadDecodesBank(bank: Bank, reg: int)
    requires InBank(bank, reg)
    ensures reg != GICD_CTLR && reg != GICD_TYPER && !DistReadAsZeroRange(reg)
    ensures BankOf(reg) == Some(bank)
  {
  }

  /** Loads from a register bank other than ICACTIVER reach the common handler. */
  lemma DistReadDispatch(d: Dist, rankOf: RankOffset, dabt: Dabt, bank: Bank, reg: int)
    requires InBank(bank, reg) && !bank.Icactiver?
    ensures DistRead(d, rankOf, dabt, reg) == CommonRead(d, rankOf, dabt, bank, reg)
  {
    DistReadDecodesBank(bank, reg);
  }

  /** The offset decoding behind DistWriteDispatch. */
  lemma DistWriteDecodesBank(bank: Bank, reg: int)
    requires InBank(bank, reg)
    ensures reg != GICD_CTLR && !DistWriteIgnoreRange(reg) && BankOf(reg) == Some(bank)
  {
  }

  /** Stores to a register bank reach the common handler. */
  lemma DistWriteDispatch(d: Dist, rankOf: RankOffset, dabt: Dabt, bank: Bank, reg: int, r: bv64)
    requires InBank(bank, reg)
    ensures DistWrite(d, rankOf, dabt, reg, r) == CommonWrite(d, rankOf, dabt, bank, reg, r)
  {
    DistWriteDecodesBank(bank, reg);
  }

  /**
   * The registers the SGI frame shares with the distributor (the SGI and
   * PPI words of each bank) load through the common handler in the SGI
   * frame, so the same as from the distributor, except GICR_ICACTIVER0,
   * which the distributor leaves unhandled.
   */
  lemma SgiFrameLoadsAsDistributor(d: Dist, rankOf: RankOffset, dabt: Dabt, reg: int)
    requires SgiReadBank(reg).Some?
    ensures SgiRead(d, rankOf, dabt, reg) == CommonRead(d, rankOf, dabt, SgiReadBank(reg).value, reg)
    ensures !SgiReadBank(reg).value.Icactiver? ==> SgiRead(d, rankOf, dabt, reg) == DistRead(d, rankOf, dabt, reg)
    ensures SgiReadBank(reg).value.Icactiver? ==>
      DistRead(d, rankOf, dabt, reg) == ReadUnhandled && SgiRead(d, rankOf, dabt, reg) == DistReadCorrected(d, rankOf, dabt, reg)
  {
    if SgiReadBank(reg).value.Icactiver? {
      IcactiverLoadAsWritten(d, rankOf, dabt, 0);
    } else {
      DistReadDispatch(d, rankOf, dabt, SgiReadBank(reg).value, reg);
    }
  }

  /** ... and store the same, ICFGR0 aside (ignored by the distributor, unhandled in the SGI frame). */
  lemma SgiFrameStoresAsDistributor(d: Dist, rankOf: RankOffset, dabt: Dabt, reg: int, r: bv64)
    requires SgiWriteBank(reg).Some?
    ensures SgiWrite(d, rankOf, dabt, reg, r) == DistWrite(d, rankOf, dabt, reg, r)
  {
    DistWriteDispatch(d, rankOf, dabt, SgiWriteBank(reg).value, reg, r);
  }

  /** The SGI frame leaves ICFGR0 to the distributor: a store to it there is unhandled. */
  lemma SgiFrameIcfgr0(d: Dist, rankOf: RankOffset, dabt: Dabt, r: bv64)
    ensures SgiWrite(d, rankOf, dabt, GICR_ICFGR0, r) == WriteUnhandled
    ensures DistWrite(d, rankOf, dabt, GICD_ICFGR, r) == IgnoreSized(d, dabt, DABT_WORD)
  {
    DistWriteDispatch(d, rankOf, dabt, Icfgr, GICD_ICFGR, r);
  }

  /** With an accepted width and a rank, a store to a bank replaces the rank by BankWrite's. */
  lemma CommonStore(d: Dist, rankOf: RankOffset, dabt: Dabt, bank: Bank, reg: int, r: bv64, id: int)
    requires InBank(bank, reg) && !bank.Igroupr? && (bank.Icfgr? ==> reg >= GICD_ICFGR + 4)
    requires dabt.size == DABT_WORD || (bank.Ipriorityr? && dabt.size == DABT_BYTE)
    requires BankRank(d, rankOf, bank, reg) == Some(id)
    ensures DistWrite(d, rankOf, dabt, reg, r) ==
      WriteDone(d.(ranks := d.ranks[id := BankWrite(bank, d.ranks[id], dabt, reg, Lo32(r)).0]),
                BankWrite(bank, d.ranks[id], dabt, reg, Lo32(r)).1)
  {
    DistWriteDispatch(d, rankOf, dabt, bank, reg, r);
  }

  /**
   * ISENABLER ORs the stored word into ienable and enables exactly the bits
   * that were off, in register (reg - GICD_ISENABLER) / 4.
   */
  lemma EnableSetRegister(d: Dist, rankOf: RankOffset, sign: bool, k: int, r: bv64, id: int)
    requires 0 <= k <= 0x7c && BankRank(d, rankOf, Isenabler, GICD_ISENABLER + k) == Some(id)
    ensures DistWrite(d, rankOf, Dabt(DABT_WORD, sign), GICD_ISENABLER + k, r) ==
      WriteDone(d.(ranks := d.ranks[id := d.ranks[id].(ienable := d.ranks[id].ienable | Lo32(r))]),
                EnableIrqs(Lo32(r) & !d.ranks[id].ienable, k / 4))
  {
    CommonStore(d, rankOf, Dabt(DABT_WORD, sign), Isenabler, GICD_ISENABLER + k, r, id);
    IsenablerWrite(d.ranks[id], Dabt(DABT_WORD, sign), k, Lo32(r));
  }

  lemma IsenablerWrite(rk: Rank, dabt: Dabt, k: int, w: bv32)
    requires 0 <= k <= 0x7c
    ensures BankWrite(Isenabler, rk, dabt, GICD_ISENABLER + k, w).0 == rk.(ienable := rk.ienable | w)
    ensures BankWrite(Isenabler, rk, dabt, GICD_ISENABLER + k, w).1 == EnableIrqs(w & !rk.ienable, k / 4)
  {
  }

  /** ICENABLER clears the stored bits of ienable and disables the stored bits that were on. */
  lemma EnableClearRegister(d: Dist, rankOf: RankOffset, sign: bool, k: int, r: bv64, id: int)
    requires 0 <= k <= 0x7c && BankRank(d, rankOf, Icenabler, GICD_ICENABLER + k) == Some(id)
    ensures DistWrite(d, rankOf, Dabt(DABT_WORD, sign), GICD_ICENABLER + k, r) ==
      WriteDone(d.(ranks := d.ranks[id := d.ranks[id].(ienable := d.ranks[id].ienable & !Lo32(r))]),
                DisableIrqs(Lo32(r) & d.ranks[id].ienable, k / 4))
  {
    CommonStore(d, rankOf, Dabt(DABT_WORD, sign), Icenabler, GICD_ICENABLER + k, r, id);
    IcenablerWrite(d.ranks[id], Dabt(DABT_WORD, sign), k, Lo32(r));
  }

  lemma IcenablerWrite(rk: Rank, dabt: Dabt, k: int, w: bv32)
    requires 0 <= k <= 0x7c
    ensures BankWrite(Icenabler, rk, dabt, GICD_ICENABLER + k, w).0 == rk.(ienable := rk.ienable & !w)
    ensures BankWrite(Icenabler, rk, dabt, GICD_ICENABLER + k, w).1 == DisableIrqs(w & rk.ienable, k / 4)
  {
  }

  /** Both enable banks load ienable, so the set and the clear view of a register agree. */
  lemma EnableBanksRead(d: Dist, rankOf: RankOffset, sign: bool, k: int)
    requires 0 <= k <= 0x7c
    ensures DistRead(d, rankOf, Dabt(DABT_WORD, sign), GICD_ISENABLER + k) ==
            DistRead(d, rankOf, Dabt(DABT_WORD, sign), GICD_ICENABLER + k)
  {
    DistReadDispatch(d, rankOf, Dabt(DABT_WORD, sign), Isenabler, GICD_ISENABLER + k);
    DistReadDispatch(d, rankOf, Dabt(DABT_WORD, sign), Icenabler, GICD_ICENABLER + k);
  }

  /**
   * ISPENDR replaces ipend by the stored word rather than setting the stored
   * bits (the set-enable bank ORs), ICPENDR clears the stored bits.
   */
  lemma PendingRegisters(d: Dist, rankOf: RankOffset, sign: bool, k: int, r: bv64, id: int)
    requires 0 <= k <= 0x7c
    requires BankRank(d, rankOf, Ispendr, GICD_ISPENDR + k) == Some(id)
    ensures DistWrite(d, rankOf, Dabt(DABT_WORD, sign), GICD_ISPENDR + k, r) ==
      WriteDone(d.(ranks := d.ranks[id := d.ranks[id].(ipend := Lo32(r))]), NoEffect)
    ensures BankRank(d, rankOf, Icpendr, GICD_ICPENDR + k) == Some(id)
    ensures DistWrite(d, rankOf, Dabt(DABT_WORD, sign), GICD_ICPENDR + k, r) ==
      WriteDone(d.(ranks := d.ranks[id := d.ranks[id].(ipend := d.ranks[id].ipend & !Lo32(r))]), NoEffect)
  {
    CommonStore(d, rankOf, Dabt(DABT_WORD, sign), Ispendr, GICD_ISPENDR + k, r, id);
    CommonStore(d, rankOf, Dabt(DABT_WORD, sign), Icpendr, GICD_ICPENDR + k, r, id);
  }

  /**
   * Writing 1 to bit 1 of ISPENDR0 with bit 0 already recorded pending
   * leaves bit 0 clear: the store does not keep the bits written as zero.
   */
  lemma PendingSetForgetsOthers(d: Dist, rankOf: RankOffset, sign: bool, id: int)
    requires BankRank(d, rankOf, Ispendr, GICD_ISPENDR) == Some(id) && d.ranks[id].ipend == 1
    ensures var res := DistWrite(d, rankOf, Dabt(DABT_WORD, sign), GICD_ISPENDR, 2);
      res.WriteDone? && res.state.ranks[id].ipend & 1 == 0
  {
    PendingRegisters(d, rankOf, sign, 0, 2, id);
  }

  /**
   * Corrected, both active banks load iactive; the ISACTIVER load is the
   * same as written.
   */
  lemma ActiveBanksRead(d: Dist, rankOf: RankOffset, sign: bool, k: int)
    requires 0 <= k <= 0x7c
    ensures DistReadCorrected(d, rankOf, Dabt(DABT_WORD, sign), GICD_ISACTIVER + k) ==
            DistReadCorrected(d, rankOf, Dabt(DABT_WORD, sign), GICD_ICACTIVER + k)
    ensures DistReadCorrected(d, rankOf, Dabt(DABT_WORD, sign), GICD_ISACTIVER + k) ==
            DistRead(d, rankOf, Dabt(DABT_WORD, sign), GICD_ISACTIVER + k)
  {
    DistReadDispatch(d, rankOf, Dabt(DABT_WORD, sign), Isactiver, GICD_ISACTIVER + k);
    ActiveCommonRead(d, rankOf, Dabt(DABT_WORD, sign), k);
  }

  lemma ActiveCommonRead(d: Dist, rankOf: RankOffset, dabt: Dabt, k: int)
    requires 0 <= k <= 0x7c
    ensures CommonRead(d, rankOf, dabt, Isactiver, GICD_ISACTIVER + k) ==
            CommonRead(d, rankOf, dabt, Icactiver, GICD_ICACTIVER + k)
  {
    assert BankRank(d, rankOf, Isactiver, GICD_ISACTIVER + k) == BankRank(d, rankOf, Icactiver, GICD_ICACTIVER + k);
  }

  /** A store to either active bank clears the stored bits: the guest cannot set an interrupt active. */
  lemma ActiveBanksWrite(d: Dist, rankOf: RankOffset, sign: bool, k: int, r: bv64)
    requires 0 <= k <= 0x7c
    ensures DistWrite(d, rankOf, Dabt(DABT_WORD, sign), GICD_ISACTIVER + k, r) ==
            DistWrite(d, rankOf, Dabt(DABT_WORD, sign), GICD_ICACTIVER + k, r)
  {
    DistWriteDispatch(d, rankOf, Dabt(DABT_WORD, sign), Isactiver, GICD_ISACTIVER + k, r);
    DistWriteDispatch(d, rankOf, Dabt(DABT_WORD, sign), Icactiver, GICD_ICACTIVER + k, r);
    ActiveCommonWrite(d, rankOf, Dabt(DABT_WORD, sign), k, r);
  }

  lemma ActiveCommonWrite(d: Dist, rankOf: RankOffset, dabt: Dabt, k: int, r: bv64)
    requires 0 <= k <= 0x7c
    ensures CommonWrite(d, rankOf, dabt, Isactiver, GICD_ISACTIVER + k, r) ==
            CommonWrite(d, rankOf, dabt, Icactiver, GICD_ICACTIVER + k, r)
  {
    assert BankRank(d, rankOf, Isactiver, GICD_ISACTIVER + k) == BankRank(d, rankOf, Icactiver, GICD_ICACTIVER + k);
  }

  /** A word store to ISACTIVER clears the stored bits of iactive. */
  lemma ActiveClear(d: Dist, rankOf: RankOffset, sign: bool, k: int, r: bv64, id: int)
    requires 0 <= k <= 0x7c && BankRank(d, rankOf, Isactiver, GICD_ISACTIVER + k) == Some(id)
    ensures DistWrite(d, rankOf, Dabt(DABT_WORD, sign), GICD_ISACTIVER + k, r) ==
      WriteDone(d.(ranks := d.ranks[id := d.ranks[id].(iactive := d.ranks[id].iactive & !Lo32(r))]), NoEffect)
  {
    CommonStore(d, rankOf, Dabt(DABT_WORD, sign), Isactiver, GICD_ISACTIVER + k, r, id);
  }

  /**
   * A load from ICACTIVER is unhandled whatever its width, although a word
   * load from ISACTIVER succeeds and the corrected handler loads ICACTIVER
   * through the common handler.
   */
  lemma IcactiverLoadAsWritten(d: Dist, rankOf: RankOffset, dabt: Dabt, k: int)
    requires 0 <= k <= 0x7c
    ensures DistRead(d, rankOf, dabt, GICD_ICACTIVER + k) == ReadUnhandled
    ensures DistReadCorrected(d, rankOf, dabt, GICD_ICACTIVER + k) == CommonRead(d, rankOf, dabt, Icactiver, GICD_ICACTIVER + k)
    ensures dabt.size == DABT_WORD ==> DistRead(d, rankOf, dabt, GICD_ISACTIVER + k).ReadDone?
  {
    DistReadDecodesBank(Icactiver, GICD_ICACTIVER + k);
    DistReadDispatch(d, rankOf, dabt, Isactiver, GICD_ISACTIVER + k);
  }

  /** CTLR keeps only the enable bit of a store and reads back what it keeps. */
  lemma CtlrRoundTrip(d: Dist, rankOf: RankOffset, sign: bool, r: bv64)
    ensures DistWrite(d, rankOf, Dabt(DABT_WORD, sign), GICD_CTLR, r) ==
      WriteDone(d.(ctlr := Lo32(r) & GICD_CTL_ENABLE), NoEffect)
    ensures DistRead(d.(ctlr := Lo32(r) & GICD_CTL_ENABLE), rankOf, Dabt(DABT_WORD, sign), GICD_CTLR) ==
      ReadDone(r & 1)
  {
  }

  /**
   * TYPER as written decodes to one CPU interface more than the domain has
   * vCPUs (wrapping at eight); corrected, to the vCPU count.  Both decode
   * to the domain's lines: its SPIs and the 32 private interrupts.
   */
  lemma TyperFinding(d: Dist, rankOf: RankOffset, sign: bool)
    requires 1 <= d.maxVcpus <= 8 && d.nrLines <= 992 && d.nrLines % 32 == 0
    ensures DistRead(d, rankOf, Dabt(DABT_WORD, sign), GICD_TYPER) == ReadDone(Zx(VgicV2.TyperAsWritten(d.maxVcpus, d.nrLines)))
    ensures DistReadCorrected(d, rankOf, Dabt(DABT_WORD, sign), GICD_TYPER) == ReadDone(Zx(VgicV2.Typer(d.maxVcpus, d.nrLines)))
    ensures GicV2.GicCpus(VgicV2.TyperAsWritten(d.maxVcpus, d.nrLines)) == (d.maxVcpus as nat) % 8 + 1
    ensures GicV2.GicCpus(VgicV2.Typer(d.maxVcpus, d.nrLines)) == d.maxVcpus as nat
    ensures GicV2.NrLines(VgicV2.TyperAsWritten(d.maxVcpus, d.nrLines)) == d.nrLines as nat + 32
    ensures GicV2.NrLines(VgicV2.Typer(d.maxVcpus, d.nrLines)) == d.nrLines as nat + 32
  {
    VgicV2.TyperRoundTrip(d.maxVcpus, d.nrLines);
    VgicV2.TyperAsWrittenDecodes(d.maxVcpus, d.nrLines);
  }

  /** The load handlers agree away from the three corrected cases. */
  lemma DistReadCorrections(d: Dist, rankOf: RankOffset, dabt: Dabt, reg: int)
    requires reg != GICD_TYPER && !InBank(Icactiver, reg) && !IrouterSpi(reg)
    ensures DistReadCorrected(d, rankOf, dabt, reg) == DistRead(d, rankOf, dabt, reg)
  {
  }

  /**
   * The store handlers agree away from GICD_IROUTER<n>, n >= 32, and there
   * too for the interrupts whose as-written index stays within the rank.
   */
  lemma DistWriteCorrections(d: Dist, rankOf: RankOffset, dabt: Dabt, reg: int, r: bv64)
    requires IrouterSpi(reg) ==> IrouterIndex(reg) < 32
    ensures DistWriteCorrected(d, rankOf, dabt, reg, r) == DistWrite(d, rankOf, dabt, reg, r)
  {
    if IrouterSpi(reg) {
      IrouterDecodes(reg);
      IrouterIndexAgrees(reg);
    }
  }

  /** Below 32, the as-written index is the corrected one. */
  lemma IrouterIndexAgrees(reg: int)
    requires IrouterSpi(reg) && IrouterIndex(reg) < 32
    ensures IrouterIndex(reg) == IrouterIndexCorrected(reg)
  {
    var q := ShrAccess((reg - GICD_IROUTER) as bv32, DABT_DOUBLE_WORD);
    assert q & 63 < 32 ==> q & 63 == q & 31;
  }

  /** The offset decoding behind the IROUTER lemmas: no other case takes GICD_IROUTER<n>, n >= 32. */
  lemma IrouterDecodes(reg: int)
    requires IrouterSpi(reg)
    ensures reg != GICD_CTLR && reg != GICD_TYPER && !DistReadAsZeroRange(reg) && !DistWriteIgnoreRange(reg)
    ensures BankOf(reg).None? && !(GICD_IROUTER <= reg <= GICD_IROUTER31)
  {
  }

  /** GICD_IROUTER<n> for n >= 32 accepts only doubleword accesses. */
  lemma IrouterWidth(d: Dist, rankOf: RankOffset, dabt: Dabt, reg: int, r: bv64)
    requires IrouterSpi(reg) && dabt.size != DABT_DOUBLE_WORD
    ensures DistRead(d, rankOf, dabt, reg) == ReadCrash
    ensures DistWrite(d, rankOf, dabt, reg, r) == WriteCrash
  {
    IrouterDecodes(reg);
  }

  /** The SGI and PPI routes GICD_IROUTER0..31 are reserved: zero on a doubleword load, stores ignored. */
  lemma PrivateRoutesReserved(d: Dist, rankOf: RankOffset, dabt: Dabt, reg: int, r: bv64)
    requires GICD_IROUTER <= reg <= GICD_IROUTER31
    ensures DistRead(d, rankOf, dabt, reg) == if dabt.size == DABT_DOUBLE_WORD then ReadDone(0) else ReadCrash
    ensures DistWrite(d, rankOf, dabt, reg, r) == if dabt.size == DABT_DOUBLE_WORD then WriteDone(d, NoEffect) else WriteCrash
  {
  }

  /**
   * A route to vCPU 0 (the value 0) of an interrupt whose index stays within
   * the rank is stored in its entry, nothing else changes, and a load reads
   * it back.
   */
  lemma IrouterRoundTrip(d: Dist, rankOf: RankOffset, sign: bool, reg: int, id: int)
    requires IrouterSpi(reg) && LookupRank(d.ranks, rankOf, 64, reg - GICD_IROUTER, DABT_DOUBLE_WORD) == Some(id)
    requires IrouterIndex(reg) < 32
    ensures DistWrite(d, rankOf, Dabt(DABT_DOUBLE_WORD, sign), reg, 0) ==
      WriteDone(d.(ranks := d.ranks[id := d.ranks[id].(irouter := d.ranks[id].irouter[IrouterIndex(reg) := 0])]), NoEffect)
    ensures var d' := d.(ranks := d.ranks[id := d.ranks[id].(irouter := d.ranks[id].irouter[IrouterIndex(reg) := 0])]);
      DistRead(d', rankOf, Dabt(DABT_DOUBLE_WORD, sign), reg) == ReadDone(0)
  {
    IrouterDecodes(reg);
  }

  /** A route to any other vCPU is ignored: delivery of SPIs to secondary vCPUs is not supported. */
  lemma IrouterOtherVcpuIgnored(d: Dist, rankOf: RankOffset, sign: bool, reg: int, r: bv64)
    requires IrouterSpi(reg) && r != 0
    ensures DistWrite(d, rankOf, Dabt(DABT_DOUBLE_WORD, sign), reg, r) == WriteDone(d, NoEffect)
  {
    IrouterDecodes(reg);
  }

  /**
   * With no rank behind GICD_IROUTER<n> (n >= 32), a doubleword load
   * crashes the domain (read_as_zero wants a word); corrected, it reads zero.
   */
  lemma IrouterNoRankLoad(d: Dist, rankOf: RankOffset, sign: bool, reg: int)
    requires IrouterSpi(reg) && LookupRank(d.ranks, rankOf, 64, reg - GICD_IROUTER, DABT_DOUBLE_WORD).None?
    ensures DistRead(d, rankOf, Dabt(DABT_DOUBLE_WORD, sign), reg) == ReadCrash
    ensures DistReadCorrected(d, rankOf, Dabt(DABT_DOUBLE_WORD, sign), reg) == ReadDone(0)
  {
    IrouterDecodes(reg);
  }

  /**
   * A vgic_rank_offset for the routes of SPIs 32-63: IROUTER offsets
   * 0x100 .. 0x1ff with a doubleword access name rank 1.
   */
  function SecondRankRoutes(b: int, n: int, s: int): Option<int>
  {
    if b == 64 && 0x100 <= n < 0x200 && s == DABT_DOUBLE_WORD then Some(1) else None
  }

  /**
   * The route of SPI 32 as written lies past the rank's 32 routes, for the
   * load and for the store; corrected, it is route 0 of the rank and reads
   * back what was stored.
   */
  lemma IrouterOverrun(d: Dist, sign: bool)
    requires 1 in d.ranks
    ensures DistRead(d, SecondRankRoutes, Dabt(DABT_DOUBLE_WORD, sign), GICD_IROUTER32) == ReadOutOfBounds
    ensures DistWrite(d, SecondRankRoutes, Dabt(DABT_DOUBLE_WORD, sign), GICD_IROUTER32, 0) == WriteOutOfBounds
    ensures var d' := d.(ranks := d.ranks[1 := d.ranks[1].(irouter := d.ranks[1].irouter[0 := 0])]);
      && DistWriteCorrected(d, SecondRankRoutes, Dabt(DABT_DOUBLE_WORD, sign), GICD_IROUTER32, 0) == WriteDone(d', NoEffect)
      && DistReadCorrected(d', SecondRankRoutes, Dabt(DABT_DOUBLE_WORD, sign), GICD_IROUTER32) == ReadDone(0)
  {
    IrouterIndexOverruns();
    IrouterIndexWithinRank();
    IrouterDecodes(GICD_IROUTER32);
  }

  /* ---------------------------------------------------------------------- */
  /* vgicv3_vcpu_init                                                       */

  /** vgicv3_vcpu_init: every SGI and PPI of the private rank is routed to the vCPU itself. */
  method VcpuInit(priv: Rank, vmpidr: bv64) returns (r: Rank)
    ensures r == priv.(irouter := r.irouter)
    ensures forall i :: 0 <= i < 32 ==> r.irouter[i] == VcpuAffinity(vmpidr)
  {
    var affinity := VcpuAffinity(vmpidr);
    var routes: seq<bv64> := priv.irouter;
    var i := 0;
    while i < 32
      invariant 0 <= i <= 32 && |routes| == 32
      invariant forall k :: 0 <= k < i ==> routes[k] == affinity
    {
      routes := routes[i := affinity];
      i := i + 1;
    }
    r := priv.(irouter := routes);
  }

  /* ---------------------------------------------------------------------- */
  /* The domain's virtual GICv3 updated in place                            */

  /** arch.vgic of a domain, with the ranks the handlers reach. */
  class Distributor {
    var ctlr: bv32
    const maxVcpus: bv32
    const nrLines: bv32
    var ranks: map<int, Rank>
    const ids: IdValues

    function State(): Dist
      reads this
    {
      Dist(ctlr, maxVcpus, nrLines, ranks, ids)
    }

    constructor (maxVcpus: bv32, nrLines: bv32, ranks: map<int, Rank>, ids: IdValues)
      ensures State() == Dist(0, maxVcpus, nrLines, ranks, ids)
    {
      this.ctlr := 0;
      this.maxVcpus := maxVcpus;
      this.nrLines := nrLines;
      this.ranks := ranks;
      this.ids := ids;
    }

    /** Applies the outcome of a store: on success ctlr and the ranks take their new values. */
    method Apply(res: WriteResult<Dist>)
      requires KeepsConfig(State(), res)
      modifies this
      ensures State() == if res.WriteDone? then res.state else old(State())
    {
      if res.WriteDone? {
        ctlr := res.state.ctlr;
        ranks := res.state.ranks;
      }
    }

    /**
     * The distributor load handler: returns 1 with *r, 0, crashes the
     * domain, or reads past a rank's routes; nothing changes.
     */
    method DistMmioRead(rankOf: RankOffset, dabt: Dabt, reg: int) returns (res: ReadResult)
      ensures res == DistRead(State(), rankOf, dabt, reg)
    {
      res := DistRead(State(), rankOf, dabt, reg);
    }

    /** The distributor store handler. */
    method DistMmioWrite(rankOf: RankOffset, dabt: Dabt, reg: int, r: bv64) returns (res: WriteResult<Dist>)
      modifies this
      ensures res == DistWrite(old(State()), rankOf, dabt, reg, r)
      ensures State() == if res.WriteDone? then res.state else old(State())
    {
      res := DistWrite(State(), rankOf, dabt, reg, r);
      Apply(res);
    }

    /** The redistributor load handler of the vCPU with MPIDR vmpidr. */
    method RdistMmioRead(rankOf: RankOffset, vmpidr: bv64, stride: bv32, gpa: bv64, dabt: Dabt) returns (res: ReadResult)
      ensures res == RdistRead(State(), rankOf, vmpidr, stride, gpa, dabt)
    {
      res := RdistRead(State(), rankOf, vmpidr, stride, gpa, dabt);
    }

    /** The redistributor store handler. */
    method RdistMmioWrite(rankOf: RankOffset, stride: bv32, gpa: bv64, dabt: Dabt, r: bv64) returns (res: WriteResult<Dist>)
      modifies this
      ensures res == RdistWrite(old(State()), rankOf, stride, gpa, dabt, r)
      ensures State() == if res.WriteDone? then res.state else old(State())
    {
      res := RdistWrite(State(), rankOf, stride, gpa, dabt, r);
      Apply(res);
    }
  }
}
