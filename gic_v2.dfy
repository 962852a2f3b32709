/*
 * The GICv2 hardware driver of xen/arch/arm/gic-v2.c: the encoding of the
 * virtual interface list registers (GICH_LRn), the read-modify-write of
 * GICH_HCR and of the distributor configuration registers, SGI generation
 * through GICD_SGIR, and the per-vCPU save and restore of the virtual
 * interface, following section 4.3 and section 5.3 of the ARM Generic
 * Interrupt Controller Architecture Specification v2.0.
 */
module GicV2 {
  import opened VgicRank
  import opened GicRegs

  /* GICH_LRn fields */
  const LR_VIRTUAL_MASK: bv32 := 0x3ff
  const LR_PHYSICAL_MASK: bv32 := 0x3ff
  const LR_PHYSICAL_SHIFT: bv32 := 10
  const LR_STATE_MASK: bv32 := 0x3
  const LR_STATE_SHIFT: bv32 := 28
  const LR_PRIORITY_SHIFT: bv32 := 23
  const LR_PRIORITY_MASK: bv32 := 0x1f
  const LR_HW_SHIFT: bv32 := 31
  const LR_HW_MASK: bv32 := 0x1
  const LR_GRP_SHIFT: bv32 := 30
  const LR_GRP_MASK: bv32 := 0x1
  const LR_HW: bv32 := 1 << 31
  const VTR_NRLRGS: bv32 := 0x3f
  const VMCR_PRIORITY_MASK: bv32 := 0x1f
  const VMCR_PRIORITY_SHIFT: bv32 := 27
  /* NR_GIC_CPU_IF: CPU interfaces per GICv2 */
  const NR_GIC_CPU_IF: nat := 8

  /* Device-tree interrupt trigger types */
  const DT_IRQ_TYPE_EDGE_BOTH: bv32 := 0x3
  const DT_IRQ_TYPE_LEVEL_MASK: bv32 := 0xc

  /** The bits of GICH_LRn that the driver reads and writes (bits 22..20 are not among them). */
  const LR_USED_BITS: bv32 := 0xff8f_ffff

  /** struct gic_lr */
  datatype LrFields = LrFields(pirq: bv32, virq: bv32, priority: bv32, state: bv32, hwStatus: bv32, grp: bv32)

  /** gicv2_read_lr: decode a GICH_LRn value; each field fits its width. */
  function ReadLr(lrv: bv32): (f: LrFields)
    ensures f.pirq <= 0x3ff && f.virq <= 0x3ff && f.priority <= 0x1f
    ensures f.state <= 3 && f.hwStatus <= 1 && f.grp <= 1
  {
    LrFields((lrv >> LR_PHYSICAL_SHIFT) & LR_PHYSICAL_MASK,
             lrv & LR_VIRTUAL_MASK,
             (lrv >> LR_PRIORITY_SHIFT) & LR_PRIORITY_MASK,
             (lrv >> LR_STATE_SHIFT) & LR_STATE_MASK,
             (lrv >> LR_HW_SHIFT) & LR_HW_MASK,
             (lrv >> LR_GRP_SHIFT) & LR_GRP_MASK)
  }

  /** gicv2_write_lr: encode the fields, each masked to its width. */
  function WriteLr(f: LrFields): bv32
  {
    ((f.pirq & LR_PHYSICAL_MASK) << LR_PHYSICAL_SHIFT)
    | (f.virq & LR_VIRTUAL_MASK)
    | ((f.priority & LR_PRIORITY_MASK) << LR_PRIORITY_SHIFT)
    | ((f.state & LR_STATE_MASK) << LR_STATE_SHIFT)
    | ((f.hwStatus & LR_HW_MASK) << LR_HW_SHIFT)
    | ((f.grp & LR_GRP_MASK) << LR_GRP_SHIFT)
  }

  /** Every field cut to the width it has in GICH_LRn. */
  function MaskFields(f: LrFields): LrFields
  {
    LrFields(f.pirq & LR_PHYSICAL_MASK, f.virq & LR_VIRTUAL_MASK, f.priority & LR_PRIORITY_MASK,
             f.state & LR_STATE_MASK, f.hwStatus & LR_HW_MASK, f.grp & LR_GRP_MASK)
  }

  /** Reading back a written LR recovers every field cut to its width: the fields are disjoint. */
  lemma ReadAfterWriteLr(f: LrFields)
    ensures ReadLr(WriteLr(f)) == MaskFields(f)
  {
  }

  /** Writing back a read LR reproduces the register except for the bits no field covers. */
  lemma WriteAfterReadLr(lrv: bv32)
    ensures WriteLr(ReadLr(lrv)) == lrv & LR_USED_BITS
  {
  }

  /**
   * gicv2_update_lr: the LR value for virtual IRQ virq with guest priority
   * guestPri (GIC_PRI_TO_GUEST of the record's priority) and state; a
   * record with a physical descriptor gets the HW bit and its physical ID.
   */
  function UpdateLrValue(virq: bv32, guestPri: bv32, desc: Option<bv32>, state: bv32): bv32
  {
    var v := ((state & LR_STATE_MASK) << LR_STATE_SHIFT)
             | ((guestPri & LR_PRIORITY_MASK) << LR_PRIORITY_SHIFT)
             | (virq & LR_VIRTUAL_MASK);
    if desc.Some? then v | LR_HW | ((desc.value & LR_PHYSICAL_MASK) << LR_PHYSICAL_SHIFT) else v
  }

  /** What gicv2_update_lr installs, as gicv2_read_lr decodes it. */
  lemma UpdateLrFields(virq: bv32, guestPri: bv32, desc: Option<bv32>, state: bv32)
    ensures ReadLr(UpdateLrValue(virq, guestPri, desc, state)) ==
      LrFields(if desc.Some? then desc.value & LR_PHYSICAL_MASK else 0, virq & LR_VIRTUAL_MASK,
               guestPri & LR_PRIORITY_MASK, state & LR_STATE_MASK, if desc.Some? then 1 else 0, 0)
  {
    var f := LrFields(if desc.Some? then desc.value else 0, virq, guestPri, state, if desc.Some? then 1 else 0, 0);
    UpdateLrIsWrite(virq, guestPri, desc, state);
    ReadAfterWriteLr(f);
  }

  /** The value gicv2_update_lr builds is the gicv2_write_lr encoding of its fields. */
  lemma UpdateLrIsWrite(virq: bv32, guestPri: bv32, desc: Option<bv32>, state: bv32)
    ensures UpdateLrValue(virq, guestPri, desc, state) ==
      WriteLr(LrFields(if desc.Some? then desc.value else 0, virq, guestPri, state, if desc.Some? then 1 else 0, 0))
  {
    if desc.Some? {
      assert (1 & LR_HW_MASK) << LR_HW_SHIFT == LR_HW;
    }
  }

  /** gicv2_hcr_status: set (status) or clear the bits of flag in GICH_HCR. */
  function HcrStatus(hcr: bv32, flag: bv32, status: bool): bv32
  {
    if status then hcr | flag else hcr & !flag
  }

  /** The bits of flag take the value status, every other bit of HCR is kept. */
  lemma HcrStatusBits(hcr: bv32, flag: bv32, status: bool)
    ensures HcrStatus(hcr, flag, status) & flag == (if status then flag else 0)
    ensures HcrStatus(hcr, flag, status) & !flag == hcr & !flag
  {
  }

  /** gicv2_read_vmcr_priority: the VMCR priority mask field, bits 31..27. */
  function VmcrPriority(vmcr: bv32): bv32
  {
    (vmcr >> VMCR_PRIORITY_SHIFT) & VMCR_PRIORITY_MASK
  }

  /**
   * GICH_VMCR after the guest writes pmr to GICV_PMR: VMPriMask, bits 31:27,
   * holds bits 7:3 of the priority mask and the other fields are kept.
   */
  function VmcrWithPmr(vmcr: bv32, pmr: bv32): bv32
  {
    (vmcr & 0x07ff_ffff) | (((pmr >> 3) & 0x1f) << 27)
  }

  /**
   * gicv2_read_vmcr_priority gives back the five implemented bits of the
   * guest's priority mask, and the test gic_events_need_delivery makes with
   * it (a guest priority at or above it, numerically, is not delivered)
   * masks exactly the priorities the mask masks.
   */
  lemma {:induction false} VmcrMaskMatchesPmr(vmcr: bv32, pmr: bv32, g: bv32)
    requires pmr <= 0xff && pmr & 7 == 0 && g <= 0x1f
    ensures VmcrPriority(VmcrWithPmr(vmcr, pmr)) == pmr >> 3
    ensures g >= VmcrPriority(VmcrWithPmr(vmcr, pmr)) <==> g << 3 >= pmr
  {
    PmrField(vmcr, pmr >> 3);
    ShiftedCompare(g, pmr);
  }

  lemma PmrField(vmcr: bv32, m: bv32)
    requires m <= 0x1f
    ensures (((vmcr & 0x07ff_ffff) | ((m & 0x1f) << 27)) >> 27) & 0x1f == m
  {
  }

  lemma ShiftedCompare(g: bv32, pmr: bv32)
    requires pmr <= 0xff && pmr & 7 == 0 && g <= 0x1f
    ensures g >= pmr >> 3 <==> g << 3 >= pmr
  {
  }

  /** gicv2_hyp_init: nr_lrs = (GICH_VTR & 0x3f) + 1. */
  function NrLrs(vtr: bv32): nat
  {
    ((vtr & VTR_NRLRGS) as nat) + 1
  }

  /** gicv2_dist_init: nr_lines = 32 * (ITLinesNumber + 1). */
  function NrLines(typer: bv32): nat
  {
    32 * (((typer & GICD_TYPE_LINES) as nat) + 1)
  }

  /** gicv2_dist_init: gic_cpus = 1 + CPUNumber. */
  function GicCpus(typer: bv32): nat
  {
    1 + (((typer & GICD_TYPE_CPUS) >> 5) as nat)
  }

  /** The derived counts lie in their architectural ranges and fit the LR mask and the ID space. */
  lemma DerivedCountsInRange(vtr: bv32, typer: bv32)
    ensures 1 <= NrLrs(vtr) <= 64
    ensures 32 <= NrLines(typer) <= 1024 && NrLines(typer) % 32 == 0
    ensures 1 <= GicCpus(typer) <= NR_GIC_CPU_IF
  {
    assert vtr & VTR_NRLRGS <= 0x3f;
    assert typer & GICD_TYPE_LINES <= 0x1f;
    assert (typer & GICD_TYPE_CPUS) >> 5 <= 7;
  }

  /* ---------------------------------------------------------------------- */
  /* gicv2_cpu_mask                                                         */

  /** A CPU the loop of gicv2_cpu_mask visits: in the mask and possible. */
  predicate Selected(cpus: seq<bool>, possible: seq<bool>, j: int)
    requires |possible| == |cpus|
  {
    0 <= j < |cpus| && cpus[j] && possible[j]
  }

  /**
   * The OR of gic_cpu_id over the CPUs below k that are in the mask and
   * possible; ids[c] is per_cpu(gic_cpu_id, c), an 8-bit interface mask.
   */
  function CpuMaskUpTo(cpus: seq<bool>, possible: seq<bool>, ids: seq<bv8>, k: nat): bv8
    requires |possible| == |cpus| == |ids| && k <= |cpus|
  {
    if k == 0 then 0
    else CpuMaskUpTo(cpus, possible, ids, k - 1) | (if cpus[k - 1] && possible[k - 1] then ids[k - 1] else 0)
  }

  /** a | r == r: every bit of a is set in r. */
  predicate Covers(r: bv8, a: bv8)
  {
    a | r == r
  }

  lemma OrKeepsCover(r: bv8, a: bv8, x: bv8)
    requires Covers(r, a)
    ensures Covers(r | x, a) && Covers(r | x, x)
  {
  }

  lemma OrCoveredBy(r: bv8, x: bv8, m: bv8)
    requires Covers(m, r) && Covers(m, x)
    ensures Covers(m, r | x)
  {
  }

  /** Every selected CPU's interface bits are in the mask. */
  lemma {:induction false} CpuMaskCovers(cpus: seq<bool>, possible: seq<bool>, ids: seq<bv8>, k: nat)
    requires |possible| == |cpus| == |ids| && k <= |cpus|
    ensures forall j :: 0 <= j < k && Selected(cpus, possible, j) ==> Covers(CpuMaskUpTo(cpus, possible, ids, k), ids[j])
  {
    if k > 0 {
      CpuMaskCovers(cpus, possible, ids, k - 1);
      var r0 := CpuMaskUpTo(cpus, possible, ids, k - 1);
      var x: bv8 := if cpus[k - 1] && possible[k - 1] then ids[k - 1] else 0;
      assert CpuMaskUpTo(cpus, possible, ids, k) == r0 | x;
      forall j | 0 <= j < k && Selected(cpus, possible, j)
        ensures Covers(r0 | x, ids[j])
      {
        if j < k - 1 {
          OrKeepsCover(r0, ids[j], x);
        } else {
          OrKeepsCover(r0, 0, x);
        }
      }
    }
  }

  /** ... and nothing else: any mask holding every selected interface's bits holds the result. */
  lemma {:induction false} CpuMaskLeast(cpus: seq<bool>, possible: seq<bool>, ids: seq<bv8>, k: nat, m: bv8)
    requires |possible| == |cpus| == |ids| && k <= |cpus|
    requires forall j :: 0 <= j < k && Selected(cpus, possible, j) ==> Covers(m, ids[j])
    ensures Covers(m, CpuMaskUpTo(cpus, possible, ids, k))
  {
    if k > 0 {
      CpuMaskLeast(cpus, possible, ids, k - 1, m);
      var r0 := CpuMaskUpTo(cpus, possible, ids, k - 1);
      var x: bv8 := if cpus[k - 1] && possible[k - 1] then ids[k - 1] else 0;
      assert Covers(m, x) by {
        if !Selected(cpus, possible, k - 1) {
          assert x == 0;
        }
      }
      OrCoveredBy(r0, x, m);
    }
  }

  /**
   * gicv2_cpu_mask: the for_each_cpu loop over cpumask ∩ cpu_possible_map.
   * Every CPU visited must have a GICv2 CPU interface (ASSERT(cpu < 8)).
   * The result is an unsigned int holding an 8-bit mask.
   */
  method CpuMask(cpus: seq<bool>, possible: seq<bool>, ids: seq<bv8>) returns (mask: bv32)
    requires |possible| == |cpus| == |ids|
    requires forall j :: Selected(cpus, possible, j) ==> j < NR_GIC_CPU_IF
    ensures mask == CpuMaskUpTo(cpus, possible, ids, |cpus|) as bv32
  {
    var m: bv8 := 0;
    var cpu := 0;
    while cpu < |cpus|
      invariant 0 <= cpu <= |cpus|
      invariant m == CpuMaskUpTo(cpus, possible, ids, cpu)
    {
      if cpus[cpu] && possible[cpu] {
        m := m | ids[cpu];
      } else {
        m := m | 0;
      }
      cpu := cpu + 1;
    }
    mask := m as bv32;
  }

  /* ---------------------------------------------------------------------- */
  /* gicv2_set_irq_properties                                               */

  /** Bit 2 * (irq % 16) + 1 of GICD_ICFGR(irq / 16): the edge-triggered bit of irq. */
  function EdgeBit(irq: nat): bv32
  {
    2 << (2 * (irq % 16))
  }

  /** The new ICFGR word: level clears the edge bit, edge sets it, anything else keeps it. */
  function Icfg(cfg: bv32, irq: nat, irqType: bv32): bv32
  {
    if irqType & DT_IRQ_TYPE_LEVEL_MASK != 0 then cfg & !EdgeBit(irq)
    else if irqType & DT_IRQ_TYPE_EDGE_BOTH != 0 then cfg | EdgeBit(irq)
    else cfg
  }

  /** Only the edge bit of irq can change, and it ends up as the trigger type says. */
  lemma IcfgBits(cfg: bv32, irq: nat, irqType: bv32)
    ensures Icfg(cfg, irq, irqType) & !EdgeBit(irq) == cfg & !EdgeBit(irq)
    ensures irqType & DT_IRQ_TYPE_LEVEL_MASK != 0 ==> Icfg(cfg, irq, irqType) & EdgeBit(irq) == 0
    ensures irqType & DT_IRQ_TYPE_LEVEL_MASK == 0 && irqType & DT_IRQ_TYPE_EDGE_BOTH != 0 ==>
      Icfg(cfg, irq, irqType) & EdgeBit(irq) == EdgeBit(irq)
    ensures irqType & (DT_IRQ_TYPE_LEVEL_MASK | DT_IRQ_TYPE_EDGE_BOTH) == 0 ==> Icfg(cfg, irq, irqType) == cfg
  {
  }

  /**
   * Clear byte lane irq % 4 of w and OR v shifted into it, as done for
   * GICD_ITARGETSR and GICD_IPRIORITYR.
   */
  function SetLane(w: bv32, v: bv32, irq: nat): bv32
  {
    (w & !ShlBytes(0xff, irq % 4)) | ShlBytes(v, irq % 4)
  }

  /** For a value that fits a byte, exactly lane irq % 4 is replaced by it. */
  lemma {:induction false} SetLaneLanes(w: bv32, v: bv32, irq: nat, j: nat)
    requires v <= 0xff && j < 4
    ensures Lane(SetLane(w, v, irq), j) == if j == irq % 4 then v else Lane(w, j)
  {
    SetLaneIsByteWrite(w, v, irq);
    ByteWriteShiftedLanes(w, v, irq, j);
  }

  lemma SetLaneIsByteWrite(w: bv32, v: bv32, irq: nat)
    requires v <= 0xff
    ensures SetLane(w, v, irq) == ByteWriteShifted(w, v, irq)
  {
    match irq % 4
    case 0 => SetLane0(w, v, irq);
    case 1 => SetLane1(w, v, irq);
    case 2 => SetLane2(w, v, irq);
    case 3 => SetLane3(w, v, irq);
  }

  lemma SetLane0(w: bv32, v: bv32, irq: nat)
    requires v <= 0xff && irq % 4 == 0
    ensures SetLane(w, v, irq) == ByteWriteShifted(w, v, irq)
  {
    SetLaneUnfold0(w, v, irq);
    MergeLane0(w, v);
    ByteWriteShiftedUnfold0(w, v, irq);
  }

  lemma SetLaneUnfold0(w: bv32, v: bv32, irq: nat)
    requires irq % 4 == 0
    ensures SetLane(w, v, irq) == (w & !0xff) | v
  {
  }

  lemma MergeLane0(w: bv32, v: bv32)
    requires v <= 0xff
    ensures (w & !0xff) | v == Merge(w, v & 0xff, 0xff)
  {
  }

  lemma ByteWriteShiftedUnfold0(w: bv32, v: bv32, irq: nat)
    requires irq % 4 == 0
    ensures ByteWriteShifted(w, v, irq) == Merge(w, v & 0xff, 0xff)
  {
  }

  lemma SetLane1(w: bv32, v: bv32, irq: nat)
    requires v <= 0xff && irq % 4 == 1
    ensures SetLane(w, v, irq) == ByteWriteShifted(w, v, irq)
  {
    SetLaneUnfold1(w, v, irq);
    MergeLane1(w, v);
    ByteWriteShiftedUnfold1(w, v, irq);
  }

  lemma SetLaneUnfold1(w: bv32, v: bv32, irq: nat)
    requires irq % 4 == 1
    ensures SetLane(w, v, irq) == (w & !0xff00) | (v << 8)
  {
  }

  lemma MergeLane1(w: bv32, v: bv32)
    requires v <= 0xff
    ensures (w & !0xff00) | (v << 8) == Merge(w, (v & 0xff) << 8, 0xff00)
  {
  }

  lemma ByteWriteShiftedUnfold1(w: bv32, v: bv32, irq: nat)
    requires irq % 4 == 1
    ensures ByteWriteShifted(w, v, irq) == Merge(w, (v & 0xff) << 8, 0xff00)
  {
  }

  lemma SetLane2(w: bv32, v: bv32, irq: nat)
    requires v <= 0xff && irq % 4 == 2
    ensures SetLane(w, v, irq) == ByteWriteShifted(w, v, irq)
  {
    SetLaneUnfold2(w, v, irq);
    MergeLane2(w, v);
    ByteWriteShiftedUnfold2(w, v, irq);
  }

  lemma SetLaneUnfold2(w: bv32, v: bv32, irq: nat)
    requires irq % 4 == 2
    ensures SetLane(w, v, irq) == (w & !0xff_0000) | (v << 16)
  {
  }

  lemma MergeLane2(w: bv32, v: bv32)
    requires v <= 0xff
    ensures (w & !0xff_0000) | (v << 16) == Merge(w, (v & 0xff) << 16, 0xff_0000)
  {
  }

  lemma ByteWriteShiftedUnfold2(w: bv32, v: bv32, irq: nat)
    requires irq % 4 == 2
    ensures ByteWriteShifted(w, v, irq) == Merge(w, (v & 0xff) << 16, 0xff_0000)
  {
  }

  lemma SetLane3(w: bv32, v: bv32, irq: nat)
    requires v <= 0xff && irq % 4 == 3
    ensures SetLane(w, v, irq) == ByteWriteShifted(w, v, irq)
  {
    SetLaneUnfold3(w, v, irq);
    MergeLane3(w, v);
    ByteWriteShiftedUnfold3(w, v, irq);
  }

  lemma SetLaneUnfold3(w: bv32, v: bv32, irq: nat)
    requires irq % 4 == 3
    ensures SetLane(w, v, irq) == (w & !0xff00_0000) | (v << 24)
  {
  }

  lemma MergeLane3(w: bv32, v: bv32)
    requires v <= 0xff
    ensures (w & !0xff00_0000) | (v << 24) == Merge(w, (v & 0xff) << 24, 0xff00_0000)
  {
  }

  lemma ByteWriteShiftedUnfold3(w: bv32, v: bv32, irq: nat)
    requires irq % 4 == 3
    ensures ByteWriteShifted(w, v, irq) == Merge(w, (v & 0xff) << 24, 0xff00_0000)
  {
  }

  /** The GICD registers gicv2_set_irq_properties rewrites for irq. */
  function IcfgrReg(irq: nat): int { GICD_ICFGR + (irq / 16) * 4 }
  function ItargetsrReg(irq: nat): int { GICD_ITARGETSR + (irq / 4) * 4 }
  function IpriorityrReg(irq: nat): int { GICD_IPRIORITYR + (irq / 4) * 4 }

  /** The three registers are distinct for every interrupt ID the distributor has. */
  lemma PropertyRegsDistinct(irq: nat)
    requires irq < 1024
    ensures IcfgrReg(irq) != ItargetsrReg(irq) && ItargetsrReg(irq) != IpriorityrReg(irq)
    ensures IcfgrReg(irq) != IpriorityrReg(irq)
  {
  }

  /* ---------------------------------------------------------------------- */
  /* gicv2_send_SGI                                                         */

  datatype SgiMode = TargetList | TargetOthers | TargetSelf

  /** The GICD_SGIR value gicv2_send_SGI writes. */
  function SgirValue(mode: SgiMode, sgi: bv32, cpuMask: bv32): bv32
  {
    match mode
    case TargetOthers => GICD_SGI_TARGET_OTHERS | sgi
    case TargetSelf => GICD_SGI_TARGET_SELF | sgi
    case TargetList => GICD_SGI_TARGET_LIST | (cpuMask << 16) | sgi
  }

  /** The SGIR fields hold the mode, the target list (LIST only) and the SGI number. */
  lemma SgirFields(mode: SgiMode, sgi: bv32, cpuMask: bv32)
    requires sgi < 16 && cpuMask <= 0xff
    ensures var v := SgirValue(mode, sgi, cpuMask);
      && v & GICD_SGI_INTID_MASK == sgi
      && (v & GICD_SGI_TARGET_LIST_MASK) >> 24 ==
           (match mode case TargetList => GICD_SGI_TARGET_LIST_VAL
                       case TargetOthers => GICD_SGI_TARGET_OTHERS_VAL
                       case TargetSelf => GICD_SGI_TARGET_SELF_VAL)
      && (v & GICD_SGI_TARGET_MASK) >> 16 == (if mode.TargetList? then cpuMask else 0)
      && v & 0xfc00_fff0 == 0
  {
  }

  /* ---------------------------------------------------------------------- */
  /* gicv2_save_state / gicv2_restore_state                                 */

  /** The saved copy after gicv2_save_state: the first n slots replaced by the LR bank. */
  function SavedLrs(bank: seq<bv32>, saved: seq<bv32>, n: nat): (r: seq<bv32>)
    requires n <= |bank| && n <= |saved|
    ensures |r| == |saved|
  {
    bank[..n] + saved[n..]
  }

  /** Restoring what was just saved puts back exactly the n live LRs. */
  lemma {:induction false} RestoreAfterSave(bank: seq<bv32>, saved: seq<bv32>, n: nat)
    requires |bank| == n <= |saved|
    ensures SavedLrs(bank, saved, n)[..n] == bank
    ensures SavedLrs(bank, saved, n)[n..] == saved[n..]
  {
    assert (bank[..n] + saved[n..])[..n] == bank[..n];
  }

  /** v->arch.gic.v2: the virtual interface state saved with a vCPU. */
  class Gicv2Context {
    const lr: array<bv32>
    var apr: bv32
    var vmcr: bv32

    constructor (nrLrs: nat)
      ensures lr.Length == nrLrs && fresh(lr)
      ensures lr[..] == seq(nrLrs, _ => 0) && apr == 0 && vmcr == 0
    {
      lr := new bv32[nrLrs](_ => 0);
      apr := 0;
      vmcr := 0;
    }
  }

  /** The GICv2 distributor and virtual interface control registers of one CPU. */
  class Gicv2 {
    const nrLrs: nat
    const lrs: array<bv32>            // GICH_LR0 .. GICH_LR<nrLrs-1>
    var hcr: bv32                     // GICH_HCR
    var apr: bv32                     // GICH_APR
    var vmcr: bv32                    // GICH_VMCR
    var misr: bv32                    // the last value written to GICH_MISR
    var gicd: map<int, bv32>          // GICD register file, by offset

    /**
     * gicv2_hyp_init on a CPU whose interface holds bank, hcr, apr, vmcr and
     * dist: nr_lrs is taken from GICH_VTR, GICH_MISR_EOI is written to
     * GICH_MISR, and no other register changes.
     */
    constructor (vtr: bv32, bank: seq<bv32>, hcr: bv32, apr: bv32, vmcr: bv32, dist: map<int, bv32>)
      requires |bank| == NrLrs(vtr)
      ensures nrLrs == NrLrs(vtr) && lrs.Length == nrLrs && fresh(lrs)
      ensures lrs[..] == bank && this.hcr == hcr && this.apr == apr && this.vmcr == vmcr && gicd == dist
      ensures misr == GICH_MISR_EOI
    {
      nrLrs := NrLrs(vtr);
      lrs := new bv32[|bank|](i requires 0 <= i < |bank| => bank[i]);
      this.hcr := hcr;
      this.apr := apr;
      this.vmcr := vmcr;
      gicd := dist;
      misr := GICH_MISR_EOI;
    }

    /** gicv2_read_lr */
    method ReadLrAt(i: int) returns (f: LrFields)
      requires 0 <= i < lrs.Length
      ensures f == ReadLr(lrs[i])
    {
      f := ReadLr(lrs[i]);
    }

    /** gicv2_write_lr */
    method WriteLrAt(i: int, f: LrFields)
      requires 0 <= i < lrs.Length
      modifies lrs
      ensures lrs[..] == old(lrs[..])[i := WriteLr(f)]
    {
      lrs[i] := WriteLr(f);
    }

    /** gicv2_update_lr: BUG_ON unless 0 <= lr < nr_lrs. */
    method UpdateLr(i: int, virq: bv32, guestPri: bv32, desc: Option<bv32>, state: bv32)
      requires 0 <= i < nrLrs == lrs.Length
      modifies lrs
      ensures lrs[..] == old(lrs[..])[i := UpdateLrValue(virq, guestPri, desc, state)]
    {
      lrs[i] := UpdateLrValue(virq, guestPri, desc, state);
    }

    /** gicv2_clear_lr */
    method ClearLr(i: int)
      requires 0 <= i < lrs.Length
      modifies lrs
      ensures lrs[..] == old(lrs[..])[i := 0]
    {
      lrs[i] := 0;
    }

    /** gicv2_hcr_status */
    method UpdateHcrStatus(flag: bv32, status: bool)
      modifies this
      ensures hcr == HcrStatus(old(hcr), flag, status)
      ensures apr == old(apr) && vmcr == old(vmcr) && gicd == old(gicd) && misr == old(misr)
    {
      if status {
        hcr := hcr | flag;
      } else {
        hcr := hcr & !flag;
      }
    }

    /** gicv2_read_vmcr_priority */
    method ReadVmcrPriority() returns (p: bv32)
      ensures p == VmcrPriority(vmcr)
    {
      p := (vmcr >> VMCR_PRIORITY_SHIFT) & VMCR_PRIORITY_MASK;
    }

    /**
     * gicv2_set_irq_properties: ICFGR edge bit, ITARGETSR and IPRIORITYR
     * lanes of irq; mask is the gicv2_cpu_mask of the target CPUs.
     */
    method SetIrqProperties(irq: nat, irqType: bv32, mask: bv32, priority: bv32)
      requires irq < 1024
      requires IcfgrReg(irq) in gicd && ItargetsrReg(irq) in gicd && IpriorityrReg(irq) in gicd
      modifies this
      ensures gicd == old(gicd)[IcfgrReg(irq) := Icfg(old(gicd)[IcfgrReg(irq)], irq, irqType)]
                               [ItargetsrReg(irq) := SetLane(old(gicd)[ItargetsrReg(irq)], mask, irq)]
                               [IpriorityrReg(irq) := SetLane(old(gicd)[IpriorityrReg(irq)], priority, irq)]
      ensures hcr == old(hcr) && apr == old(apr) && vmcr == old(vmcr) && misr == old(misr)
    {
      var icfgr, itargetsr, ipriorityr := IcfgrReg(irq), ItargetsrReg(irq), IpriorityrReg(irq);
      PropertyRegsDistinct(irq);
      var cfg := gicd[icfgr];
      gicd := gicd[icfgr := Icfg(cfg, irq, irqType)];
      var itarget := gicd[itargetsr];
      gicd := gicd[itargetsr := SetLane(itarget, mask, irq)];
      var ipriority := gicd[ipriorityr];
      gicd := gicd[ipriorityr := SetLane(ipriority, priority, irq)];
    }

    /** gicv2_send_SGI: write the SGIR value for the mode. */
    method SendSgi(sgi: bv32, mode: SgiMode, cpuMask: bv32)
      modifies this
      ensures gicd == old(gicd)[GICD_SGIR := SgirValue(mode, sgi, cpuMask)]
      ensures hcr == old(hcr) && apr == old(apr) && vmcr == old(vmcr) && misr == old(misr)
    {
      match mode
      case TargetOthers =>
        gicd := gicd[GICD_SGIR := GICD_SGI_TARGET_OTHERS | sgi];
      case TargetSelf =>
        gicd := gicd[GICD_SGIR := GICD_SGI_TARGET_SELF | sgi];
      case TargetList =>
        gicd := gicd[GICD_SGIR := GICD_SGI_TARGET_LIST | (cpuMask << 16) | sgi];
    }

    /** gicv2_save_state: copy the LRs, APR and VMCR into the vCPU, then disable the interface. */
    method SaveState(ctx: Gicv2Context)
      requires lrs.Length == nrLrs <= ctx.lr.Length
      requires lrs != ctx.lr
      modifies this, ctx, ctx.lr
      ensures ctx.lr[..] == SavedLrs(lrs[..], old(ctx.lr[..]), nrLrs)
      ensures ctx.apr == old(apr) && ctx.vmcr == old(vmcr)
      ensures hcr == 0 && apr == old(apr) && vmcr == old(vmcr) && gicd == old(gicd) && misr == old(misr)
    {
      var i := 0;
      while i < nrLrs
        invariant 0 <= i <= nrLrs
        invariant forall k :: 0 <= k < i ==> ctx.lr[k] == lrs[k]
        invariant forall k :: i <= k < ctx.lr.Length ==> ctx.lr[k] == old(ctx.lr[k])
        invariant apr == old(apr) && vmcr == old(vmcr) && gicd == old(gicd) && misr == old(misr)
      {
        ctx.lr[i] := lrs[i];
        i := i + 1;
      }
      assert ctx.lr[..] == lrs[..nrLrs] + old(ctx.lr[..])[nrLrs..];
      ctx.apr := apr;
      ctx.vmcr := vmcr;
      hcr := 0;
    }

    /** gicv2_restore_state: write back the saved LRs, APR and VMCR, then enable the interface. */
    method RestoreState(ctx: Gicv2Context)
      requires lrs.Length == nrLrs <= ctx.lr.Length
      requires lrs != ctx.lr
      modifies this, lrs
      ensures lrs[..] == ctx.lr[..nrLrs]
      ensures apr == ctx.apr && vmcr == ctx.vmcr && hcr == GICH_HCR_EN && gicd == old(gicd) && misr == old(misr)
    {
      var i := 0;
      while i < nrLrs
        invariant 0 <= i <= nrLrs
        invariant forall k :: 0 <= k < i ==> lrs[k] == ctx.lr[k]
        invariant gicd == old(gicd) && misr == old(misr)
      {
        lrs[i] := ctx.lr[i];
        i := i + 1;
      }
      assert lrs[..] == ctx.lr[..nrLrs];
      apr := ctx.apr;
      vmcr := ctx.vmcr;
      hcr := GICH_HCR_EN;
    }

    /**
     * A vCPU switched out and back in on the same CPU: gicv2_save_state
     * then gicv2_restore_state gives back the live LRs, APR and VMCR,
     * leaves the saved slots past nr_lrs as they were and re-enables the
     * virtual interface.
     */
    method SaveThenRestore(ctx: Gicv2Context)
      requires lrs.Length == nrLrs <= ctx.lr.Length
      requires lrs != ctx.lr
      modifies this, lrs, ctx, ctx.lr
      ensures lrs[..] == old(lrs[..]) && apr == old(apr) && vmcr == old(vmcr)
      ensures hcr == GICH_HCR_EN && gicd == old(gicd) && misr == old(misr)
      ensures ctx.lr[nrLrs..] == old(ctx.lr[nrLrs..])
    {
      ghost var live := lrs[..];
      ghost var saved := ctx.lr[..];
      SaveState(ctx);
      RestoreAfterSave(live, saved, nrLrs);
      RestoreState(ctx);
    }
  }
}
