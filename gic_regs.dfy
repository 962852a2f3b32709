/*
 * Register offsets and field masks of the ARM Generic Interrupt Controller.
 *
 * The C headers that define these (gic.h, gic_v3_defs.h) are not part of
 * this model; the values below are the architectural ones from the ARM
 * Generic Interrupt Controller Architecture Specification v2.0 (section 4.1.2,
 * distributor register map; section 5.3, virtual interface control
 * registers) and the GICv3/GICv4 Architecture Specification (section 8.8,
 * distributor register map; section 8.10, redistributor register map).
 */
module GicRegs {
  /* --- Trapped access size, the DABT_* encoding of the syndrome SAS field --- */
  const DABT_BYTE: nat := 0
  const DABT_HALF_WORD: nat := 1
  const DABT_WORD: nat := 2
  const DABT_DOUBLE_WORD: nat := 3

  /* --- GICv2 distributor (GICD) --- */
  const GICD_CTLR: int := 0x000
  const GICD_TYPER: int := 0x004
  const GICD_IIDR: int := 0x008
  const GICD_IGROUPR: int := 0x080
  const GICD_IGROUPRN: int := 0x0FC
  const GICD_ISENABLER: int := 0x100
  const GICD_ISENABLERN: int := 0x17C
  const GICD_ICENABLER: int := 0x180
  const GICD_ICENABLERN: int := 0x1FC
  const GICD_ISPENDR: int := 0x200
  const GICD_ISPENDRN: int := 0x27C
  const GICD_ICPENDR: int := 0x280
  const GICD_ICPENDRN: int := 0x2FC
  const GICD_ISACTIVER: int := 0x300
  const GICD_ISACTIVERN: int := 0x37C
  const GICD_ICACTIVER: int := 0x380
  const GICD_ICACTIVERN: int := 0x3FC
  const GICD_IPRIORITYR: int := 0x400
  const GICD_IPRIORITYRN: int := 0x7F8
  const GICD_ITARGETSR: int := 0x800
  const GICD_ITARGETSRN: int := 0xBF8
  const GICD_ICFGR: int := 0xC00
  const GICD_ICFGRN: int := 0xCFC
  const GICD_NSACR: int := 0xE00
  const GICD_NSACRN: int := 0xEFC
  const GICD_SGIR: int := 0xF00
  const GICD_CPENDSGIR: int := 0xF10
  const GICD_CPENDSGIRN: int := 0xF1C
  const GICD_SPENDSGIR: int := 0xF20
  const GICD_SPENDSGIRN: int := 0xF2C
  const GICD_ICPIDR2: int := 0xFE8

  const GICD_CTL_ENABLE: bv32 := 0x1
  const GICD_TYPE_LINES: bv32 := 0x01F
  const GICD_TYPE_CPUS: bv32 := 0x0E0

  /* GICD_SGIR fields */
  const GICD_SGI_TARGET_LIST_SHIFT: nat := 24
  const GICD_SGI_TARGET_LIST_MASK: bv32 := 0x3 << 24
  const GICD_SGI_TARGET_LIST_VAL: bv32 := 0
  const GICD_SGI_TARGET_OTHERS_VAL: bv32 := 1
  const GICD_SGI_TARGET_SELF_VAL: bv32 := 2
  const GICD_SGI_TARGET_LIST: bv32 := 0 << 24
  const GICD_SGI_TARGET_OTHERS: bv32 := 1 << 24
  const GICD_SGI_TARGET_SELF: bv32 := 2 << 24
  const GICD_SGI_TARGET_SHIFT: nat := 16
  const GICD_SGI_TARGET_MASK: bv32 := 0xFF << 16
  const GICD_SGI_INTID_MASK: bv32 := 0xF

  /* --- GICv2 virtual interface control (GICH) --- */
  const GICH_HCR: int := 0x00
  const GICH_VTR: int := 0x04
  const GICH_VMCR: int := 0x08
  const GICH_MISR: int := 0x10
  const GICH_APR: int := 0xF0
  const GICH_LR: int := 0x100

  const GICH_HCR_EN: bv32 := 1 << 0
  const GICH_HCR_UIE: bv32 := 1 << 1
  const GICH_MISR_EOI: bv32 := 1 << 0

  /* --- GICv3 distributor additions --- */
  const GICD_STATUSR: int := 0x010
  const GICD_SETSPI_NSR: int := 0x040
  const GICD_CLRSPI_NSR: int := 0x048
  const GICD_SETSPI_SR: int := 0x050
  const GICD_CLRSPI_SR: int := 0x058
  const GICD_IROUTER: int := 0x6000
  const GICD_IROUTER31: int := 0x60F8
  const GICD_IROUTER32: int := 0x6100
  const GICD_IROUTERN: int := 0x7FD8
  const GICD_PIDR4: int := 0xFFD0
  const GICD_PIDR5: int := 0xFFD4
  const GICD_PIDR7: int := 0xFFDC
  const GICD_PIDR0: int := 0xFFE0
  const GICD_PIDR1: int := 0xFFE4
  const GICD_PIDR2: int := 0xFFE8
  const GICD_PIDR3: int := 0xFFEC

  /* --- GICv3 redistributor, RD_base frame --- */
  const GICR_CTLR: int := 0x0000
  const GICR_IIDR: int := 0x0004
  const GICR_TYPER: int := 0x0008
  const GICR_STATUSR: int := 0x0010
  const GICR_WAKER: int := 0x0014
  const GICR_SETLPIR: int := 0x0040
  const GICR_CLRLPIR: int := 0x0048
  const GICR_PROPBASER: int := 0x0070
  const GICR_PENDBASER: int := 0x0078
  const GICR_INVLPIR: int := 0x00A0
  const GICR_INVALLR: int := 0x00B0
  const GICR_SYNCR: int := 0x00C0
  const GICR_MOVLPIR: int := 0x0100
  const GICR_MOVALLR: int := 0x0110
  const GICR_PIDR4: int := 0xFFD0
  const GICR_PIDR5: int := 0xFFD4
  const GICR_PIDR7: int := 0xFFDC
  const GICR_PIDR0: int := 0xFFE0
  const GICR_PIDR1: int := 0xFFE4
  const GICR_PIDR2: int := 0xFFE8
  const GICR_PIDR3: int := 0xFFEC

  /* --- GICv3 redistributor, SGI_base frame --- */
  const GICR_IGROUPR0: int := 0x0080
  const GICR_ISENABLER0: int := 0x0100
  const GICR_ICENABLER0: int := 0x0180
  const GICR_ISPENDR0: int := 0x0200
  const GICR_ICPENDR0: int := 0x0280
  const GICR_ISACTIVER0: int := 0x0300
  const GICR_ICACTIVER0: int := 0x0380
  const GICR_IPRIORITYR0: int := 0x0400
  const GICR_IPRIORITYR7: int := 0x041C
  const GICR_ICFGR0: int := 0x0C00
  const GICR_ICFGR1: int := 0x0C04
  const GICR_IGRPMODR0: int := 0x0D00
  const GICR_NSACR: int := 0x0E00

  /* Redistributor frame size (64 KiB) */
  const SZ_64K: int := 0x10000
}
