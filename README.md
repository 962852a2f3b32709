# Xen on ARM: GIC virtualisation and stage-2 bookkeeping, in Dafny

This project models the part of the Xen hypervisor for ARM that gives guests an
interrupt controller, and the stage-2 (p2m) bookkeeping that goes with a
domain. It covers:

- **vgic.h helpers** (`VgicRank`, `vgic_rank.dfy`): the byte lane helpers
  `vgic_byte_read` / `vgic_byte_write`, `REG_RANK_NR`, `REG_RANK_INDEX`
  and the rank of 32 interrupts (`struct vgic_irq_rank`).
- **The register map** (`GicRegs`, `gic_regs.dfy`): the GICD, GICR and GICH
  offsets and bit masks the handlers use, with the values of the ARM GIC
  architecture specifications (GICv2: IHI 0048B, GICv3: IHI 0069).
- **gic-v2.c** (`GicV2`, `gic_v2.dfy`): the list-register (LR) encoding,
  the HCR and VMCR helpers, the CPU mask loop, the interrupt property
  registers, the SGIR value, the counts read from VTR and TYPER, and the
  save and restore of the virtual interface. A class `Gicv2` holds the
  hardware registers of one CPU.
- **gic.c** (`GicQueue`, `gic_queue.dfy`; `Gic`, `gic.dfy`; `GicEngine`,
  `gic_engine.dfy`): the LR engine of one vCPU.
  - `gic_queue.dfy` holds the priority-ordered `lr_pending` list.
  - `gic.dfy` holds the engine as functions on a state value, with the
    invariant tying LRs, `lr_mask` and the `pending_irq` records
    together. It covers `gic_update_one_lr`, `gic_clear_lrs`,
    `gic_restore_pending_irqs`, `gic_inject`,
    `gic_events_need_delivery`, `gic_irq_xlate` and the
    `gic_interrupt` loop.
  - `gic_engine.dfy` holds the same operations as methods of a class
    `VcpuGic` that updates an LR array and the lists in place. Each
    method is proved against its function.
- **vgic-v2.c** (`VgicV2`, `vgic_v2.dfy`): the GICv2 distributor MMIO
  load and store handlers, `vgic_v2_to_sgi` and `vgic_v2_vcpu_init`, plus
  a class `Distributor` that applies a store to the domain.
- **vgic-v3.c** (`VgicV3`, `vgic_v3.dfy`):
  - the redistributor RD and SGI frames;
  - the handlers shared by the distributor and the SGI frame;
  - the redistributor dispatch by stride;
  - the GICv3 distributor, including `GICD_IROUTER<n>`;
  - `vgicv3_vcpu_init`;
  - a class `Distributor`.
- **p2m.c** (`P2m`, `p2m.dfy`):
  - the stage-2 entry of `mfn_to_p2m_entry`;
  - the software walk of `p2m_lookup` (AArch64, 4 KiB pages);
  - the VMID allocator over its 256-bit bitmap;
  - the VTTBR value of `p2m_alloc_table`;
  - the window of mapped guest frames kept by `apply_p2m_changes`, and
    the clamp of `p2m_cache_flush`;
  - `p2m_init` and `p2m_teardown`'s VMID release, on a class
    `P2mDomain`.

An MMIO handler is a total function from the distributor state, the access
(`Dabt`: size and sign) and the register offset to an outcome:
`ReadDone(value)`, `ReadKept` (success with the register left as it was),
`ReadUnhandled`, `ReadCrash` (`domain_crash_synchronous`),
`WriteDone(new state, deferred effect)`, `WriteUnhandled` or `WriteCrash`.
`ReadOutOfBounds` and `WriteOutOfBounds` stand for an access past the end
of a rank's array, whose effect C leaves undefined. The classes apply that
outcome to their fields.

The handlers are modelled as the code is written, defects included. Where
the code is wrong (see "## Findings"), a second definition carries the
correction and its name ends in `Corrected` (`VgicV3.DistReadCorrected`,
`VgicV3.DistWriteCorrected`, `VgicV3.SgiWriteCorrected`,
`VgicV3.IrouterReadCorrected`, `VgicV3.IrouterWriteCorrected`,
`VgicV3.IrouterIndexCorrected`); `VgicRank.ByteWriteShifted`,
`VgicV2.Typer` and `VgicV2.ToSgi` are the corrected counterparts of
`VgicRank.ByteWrite`, `VgicV2.TyperAsWritten` and `VgicV2.ToSgiAsWritten`.
Lemmas relate each pair.

## Model

| member | source | states |
|---|---|---|
| VgicRank.ByteReadUnsigned | xen/include/asm-arm/vgic.h:114-124 | an unsigned byte load returns exactly the addressed byte lane, zero-extended |
| VgicRank.ByteReadSigned | xen/include/asm-arm/vgic.h:114-124 | a signed byte load sign-extends the addressed lane: all ones above it when its top bit is set, zeros otherwise |
| VgicRank.ByteHelpersOffsetMod4 | xen/include/asm-arm/vgic.h:114-134 | both byte helpers depend on the offset only modulo 4 |
| VgicRank.ByteWriteLanes | xen/include/asm-arm/vgic.h:126-134 | vgic_byte_write as written: the addressed lane takes the same lane of var, the other three lanes keep the register's |
| VgicRank.ByteWriteIdempotent | xen/include/asm-arm/vgic.h:126-134 | storing the same value twice has the effect of storing it once |
| VgicRank.ByteWriteThenRead | xen/include/asm-arm/vgic.h:114-134 | as written, the lane read back is the same lane of var, not var's low byte |
| VgicRank.ByteWriteShiftedLanes | xen/include/asm-arm/vgic.h:126-134 | corrected byte store: the addressed lane takes byte 0 of the value, the others are kept |
| VgicRank.ByteWriteShiftedThenRead | xen/include/asm-arm/vgic.h:114-134 | corrected byte store round trip: an unsigned byte load at the same offset returns the stored byte |
| VgicRank.ByteWriteLosesStore | xen/include/asm-arm/vgic.h:126-134 | a guest byte store of 0xA0 at offset 1 reads back as 0 as written, and as 0xA0 once corrected |
| VgicRank.LanesDetermineWord | xen/include/asm-arm/vgic.h:114-134 | two registers agree exactly when their four byte lanes agree, the lane view the helpers rely on |
| VgicRank.RegRankNrIsQuotient | xen/include/asm-arm/vgic.h:102-112 | REG_RANK_NR is defined exactly for 1, 2, 4 and 8 bits per interrupt (BUG otherwise) and is then the unsigned quotient n / b |
| VgicRank.RegRankIndexBound | xen/include/asm-arm/vgic.h:140 | for a power-of-two b, REG_RANK_INDEX is below b and at most the shifted offset |
| VgicRank.RankIndex | xen/include/asm-arm/vgic.h:140 | REG_RANK_INDEX used to index a b-word array of a rank is in bounds |
| GicV2.ReadLr | xen/arch/arm/gic-v2.c:429-440 | each decoded LR field fits its width: 10-bit IDs, 5-bit priority, 2-bit state, 1-bit HW and group |
| GicV2.ReadAfterWriteLr | xen/arch/arm/gic-v2.c:429-457 | gicv2_read_lr of what gicv2_write_lr wrote gives back every field cut to its width: the fields are disjoint |
| GicV2.WriteAfterReadLr | xen/arch/arm/gic-v2.c:429-457 | writing back a decoded LR reproduces the register, except bits no field covers |
| GicV2.UpdateLrFields | xen/arch/arm/gic-v2.c:358-376 | the LR gicv2_update_lr installs decodes to the virtual ID, the guest priority, the state, and the physical ID with HW set exactly when a physical IRQ is attached |
| GicV2.UpdateLrIsWrite | xen/arch/arm/gic-v2.c:358-376 | gicv2_update_lr builds the same register value gicv2_write_lr would from those fields |
| GicV2.HcrStatusBits | xen/arch/arm/gic-v2.c:459-469 | the flag bits of GICH_HCR become set or clear as status says, every other bit is kept |
| GicV2.VmcrMaskMatchesPmr | xen/arch/arm/gic-v2.c:471-475 | the VMCR priority is bits 7:3 of the guest's priority mask, and the test gic_events_need_delivery makes with it holds a guest priority back exactly when the mask masks it |
| GicV2.DerivedCountsInRange | xen/arch/arm/gic-v2.c:228-230 | from any VTR and TYPER: 1..64 LRs, 32..1024 lines in steps of 32, 1..8 CPU interfaces |
| GicV2.CpuMaskCovers | xen/arch/arm/gic-v2.c:90-104 | the CPU mask contains the interface bits of every selected possible CPU |
| GicV2.CpuMaskLeast | xen/arch/arm/gic-v2.c:90-104 | and nothing more: any mask covering those interfaces covers the result |
| GicV2.CpuMask | xen/arch/arm/gic-v2.c:90-104 | the for_each_cpu loop computes the OR of the selected CPUs' interface masks |
| GicV2.IcfgBits | xen/arch/arm/gic-v2.c:188-194 | only the edge bit of the interrupt changes: cleared for a level type, set for an edge type, the word is unchanged for neither |
| GicV2.SetLaneLanes | xen/arch/arm/gic-v2.c:197-209 | writing the target or priority byte of interrupt irq replaces lane irq % 4 and keeps the other lanes |
| GicV2.SetLaneIsByteWrite | xen/arch/arm/gic-v2.c:197-209 | that byte store agrees with the corrected vgic byte store |
| GicV2.PropertyRegsDistinct | xen/arch/arm/gic-v2.c:174-212 | the ICFGR, ITARGETSR and IPRIORITYR words of one interrupt are three different registers |
| GicV2.SgirFields | xen/arch/arm/gic-v2.c:325-347 | the SGIR value holds the SGI number, the filter of the mode, the CPU target list for list mode only, and zero elsewhere |
| GicV2.SavedLrs | xen/arch/arm/gic-v2.c:106-121 | saving keeps the length of the vCPU's copy |
| GicV2.Gicv2.constructor | xen/arch/arm/gic-v2.c:296-306 | gicv2_hyp_init: nr_lrs is the count VTR reports, GICH_MISR takes GICH_MISR_EOI, and no other register changes |
| GicV2.Gicv2.ReadLrAt | xen/arch/arm/gic-v2.c:429-440 | reading LR i returns its decoding |
| GicV2.Gicv2.WriteLrAt | xen/arch/arm/gic-v2.c:442-457 | writing LR i changes that register only |
| GicV2.Gicv2.UpdateLr | xen/arch/arm/gic-v2.c:358-376 | LR i, and no other, takes the gicv2_update_lr value (BUG_ON on a bad index as a precondition) |
| GicV2.Gicv2.ClearLr | xen/arch/arm/gic-v2.c:378-381 | LR i becomes 0, no other changes |
| GicV2.Gicv2.UpdateHcrStatus | xen/arch/arm/gic-v2.c:459-469 | HCR takes the new flag bits, the other registers are unchanged |
| GicV2.Gicv2.ReadVmcrPriority | xen/arch/arm/gic-v2.c:471-475 | returns the VMCR priority field |
| GicV2.Gicv2.SetIrqProperties | xen/arch/arm/gic-v2.c:174-212 | exactly the interrupt's ICFGR, ITARGETSR and IPRIORITYR words change, each as the lemmas above describe |
| GicV2.Gicv2.SendSgi | xen/arch/arm/gic-v2.c:325-347 | GICD_SGIR takes the SGIR value of the mode |
| GicV2.Gicv2.SaveState | xen/arch/arm/gic-v2.c:106-121 | the live LRs, APR and VMCR are copied into the vCPU and the interface is disabled |
| GicV2.Gicv2.RestoreState | xen/arch/arm/gic-v2.c:123-133 | the LRs, APR and VMCR are written back from the vCPU and the interface is enabled |
| GicV2.Gicv2.SaveThenRestore | xen/arch/arm/gic-v2.c:106-133 | a vCPU switched out and back in gets back its live LRs, APR and VMCR, with the interface enabled and the saved slots past nr_lrs untouched |
| GicQueue.InsertByPriority | xen/arch/arm/gic.c:278-286 | inserting adds exactly one element, the new record, and keeps every other |
| GicQueue.InsertPos | xen/arch/arm/gic.c:278-286 | the insertion point lies within the list |
| GicQueue.InsertPosAfterLower | xen/arch/arm/gic.c:278-286 | every entry before the insertion point has a priority value at most the new record's |
| GicQueue.InsertPosBeforeHigher | xen/arch/arm/gic.c:278-286 | the entry at the insertion point has a strictly greater priority value |
| GicQueue.InsertAtPos | xen/arch/arm/gic.c:278-286 | the record goes in at the insertion point, the list is otherwise unchanged |
| GicQueue.InsertPosUnique | xen/arch/arm/gic.c:278-286 | any split point satisfying the insertion rule is the insertion point |
| GicQueue.InsertKeepsSorted | xen/arch/arm/gic.c:269-287 | lr_pending stays ordered by priority |
| GicQueue.InsertKeepsDistinct | xen/arch/arm/gic.c:269-287 | lr_pending stays free of duplicates when the record was not on it |
| GicQueue.Remove | xen/arch/arm/gic.c:289-298 | list_del_init removes exactly the record, and shortens a list that held it |
| GicQueue.RemoveKeepsSorted | xen/arch/arm/gic.c:289-298 | removal keeps the order |
| GicQueue.RemoveKeepsDistinct | xen/arch/arm/gic.c:289-298 | removal keeps the list free of duplicates |
| GicQueue.RemoveUndoesInsert | xen/arch/arm/gic.c:269-298 | removing a record just inserted gives back the list |
| GicQueue.RemoveAbsent | xen/arch/arm/gic.c:289-298 | removing a record not on the list changes nothing |
| GicQueue.SuccessorIn | xen/arch/arm/gic.c:432 | the saved next entry of list_for_each_entry_safe is on the list |
| GicQueue.SuccessorDiffers | xen/arch/arm/gic.c:432 | the saved next entry differs from the current one |
| Gic.FirstFree | xen/arch/arm/gic.c:328 | find_next_zero_bit: the first free slot at or after from, every slot before it taken, or nr_lrs |
| Gic.FirstSet | xen/arch/arm/gic.c:408-409 | find_next_bit: the first occupied slot at or after from, every slot before it free, or nr_lrs |
| Gic.LrAllFullIffNoFreeSlot | xen/arch/arm/gic.c:41 | for the LR counts the engine invariant admits (1 to 30), lr_all_full holds exactly when the search for a free LR fails |
| Gic.AddToLrPendingValid | xen/arch/arm/gic.c:269-287 | queuing a record that is in no LR keeps the engine invariant |
| Gic.InstallFreeValid | xen/arch/arm/gic.c:326-333 | installing such a record into a free LR keeps the invariant |
| Gic.RaiseValid | xen/arch/arm/gic.c:318-337 | gic_raise_guest_irq keeps the invariant |
| Gic.UpdateOneLrValid | xen/arch/arm/gic.c:339-392 | gic_update_one_lr keeps the invariant |
| Gic.UpdateOneLrActive | xen/arch/arm/gic.c:351-366 | an ACTIVE LR: the record becomes ACTIVE and stays VISIBLE in the slot; PENDING is re-added exactly for an enabled, queued, virtual-only interrupt; nothing else changes |
| Gic.UpdateOneLrRetire | xen/arch/arm/gic.c:376-391 | a retired LR: the record loses VISIBLE and ACTIVE and its descriptor, if any, loses IRQ_INPROGRESS; an enabled queued one is raised again into an LR or onto lr_pending, any other leaves inflight and frees the slot |
| Gic.UpdateOneLrSlots | xen/arch/arm/gic.c:339-392 | afterwards every occupied LR is an untouched other slot or holds a pending or active interrupt |
| Gic.ClearLrsFrom | xen/arch/arm/gic.c:394-415 | gic_clear_lrs keeps the invariant |
| Gic.ClearLrsLeavesLiveSlots | xen/arch/arm/gic.c:394-415 | after gic_clear_lrs every occupied LR holds a pending or active interrupt |
| Gic.LiveThroughSlot | xen/arch/arm/gic.c:405-412 | one turn of the gic_clear_lrs loop leaves every occupied slot up to the one updated live |
| Gic.LiveWhenSwept | xen/arch/arm/gic.c:405-412 | when no occupied slot is left to visit, every occupied slot is live |
| Gic.FindVictim | xen/arch/arm/gic.c:438-448 | the reverse walk gives up on an equal priority and otherwise returns the last VISIBLE, non-ACTIVE entry before the walk position, exactly when one exists |
| Gic.RemoveQueueValid | xen/arch/arm/gic.c:289-298 | dropping a record from lr_pending keeps the invariant |
| Gic.InstallFreeSlotValid | xen/arch/arm/gic.c:459-461 | installing a queued record into a free LR keeps the invariant |
| Gic.EvictInstallQueue | xen/arch/arm/gic.c:450-461 | after an eviction and an installation lr_pending is still ordered, duplicate-free and holds no VISIBLE record |
| Gic.EvictInstallValid | xen/arch/arm/gic.c:450-461 | the victim's LR is a valid slot, and giving it to the queued record keeps the invariant |
| Gic.RestoreLoop | xen/arch/arm/gic.c:432-467 | the loop keeps the invariant, makes at most its budget of installations and only takes the steps RestoreProperties lists |
| Gic.Restore | xen/arch/arm/gic.c:417-471 | gic_restore_pending_irqs keeps the invariant |
| Gic.RestoreProperties | xen/arch/arm/gic.c:417-471 | it leaves an empty lr_pending alone, makes at most nr_lrs installations, keeps every owed interrupt owed, only fills LRs, never touches an ACTIVE record, and requeues every record it evicts |
| Gic.InjectUie | xen/arch/arm/gic.c:522-532 | gic_inject restores, then arms the underflow interrupt exactly when lr_pending is non-empty and no LR is free |
| Gic.LowestSetBit | xen/arch/arm/gic.c:495 | find_next_bit over the 32-bit APR: the lowest set bit at or after from, or 32 |
| Gic.DeliveryWalkIff | xen/arch/arm/gic.c:484-520 | events need delivery exactly when some enabled inflight entry is preceded, itself included, only by entries below both the VMCR mask and the active priority |
| Gic.DtEncode | xen/arch/arm/gic.c:148-166 | the device-tree triple of a PPI or SPI has three cells and carries the type |
| Gic.IrqXlateRoundTrip | xen/arch/arm/gic.c:148-166 | translating the triple of a PPI or SPI gives back its ID and the sense bits of its type |
| Gic.IrqXlateRange | xen/arch/arm/gic.c:148-166 | short specifiers are refused; otherwise the type has only sense bits and the ID is 16 or above unless the number cell wraps |
| Gic.FirstStop | xen/arch/arm/gic.c:563-587 | the first acknowledged ID of 1021 or above ends the loop |
| Gic.DispatchAcksClassifies | xen/arch/arm/gic.c:563-587 | gic_interrupt handles exactly the IDs before the first stop, in order, SGIs (below 16) by do_sgi and the rest by do_IRQ |
| GicEngine.RestoreLoopFreeStep | xen/arch/arm/gic.c:434-466 | one installation into a free LR continues the loop from the saved next entry |
| GicEngine.RestoreLoopVictimStep | xen/arch/arm/gic.c:435-461 | one eviction and installation resumes the reverse walk before the victim |
| GicEngine.VcpuGic.SetLr | xen/arch/arm/gic.c:257-267 | gic_set_lr writes the LR and marks the record VISIBLE in that slot, as the state function does |
| GicEngine.VcpuGic.AddToLrPending | xen/arch/arm/gic.c:269-287 | the insertion walk produces the priority-ordered insertion, nothing else changes |
| GicEngine.VcpuGic.RemoveFromQueues | xen/arch/arm/gic.c:289-298 | the record leaves lr_pending, the invariant holds |
| GicEngine.VcpuGic.RaiseGuestIrq | xen/arch/arm/gic.c:318-337 | installs into the first free LR of the current vCPU or queues the record, as Raise does |
| GicEngine.VcpuGic.UpdateOneLr | xen/arch/arm/gic.c:339-392 | updates the LR, the records and the IRQ_INPROGRESS flags as UpdateOneLr does, keeping the invariant |
| GicEngine.VcpuGic.ClearNextLr | xen/arch/arm/gic.c:405-412 | one loop turn advances past the next occupied LR without changing the final result |
| GicEngine.VcpuGic.ClearLrs | xen/arch/arm/gic.c:394-415 | the loop reaches the state ClearLrs describes (nothing for the idle vCPU) |
| GicEngine.VcpuGic.FindVictimWalk | xen/arch/arm/gic.c:438-448 | the list_for_each_entry_reverse loop finds FindVictim's entry |
| GicEngine.VcpuGic.Evict | xen/arch/arm/gic.c:450-456 | the victim loses its LR and VISIBLE, becomes QUEUED and goes onto lr_pending |
| GicEngine.VcpuGic.Install | xen/arch/arm/gic.c:459-461 | gic_set_lr, list_del_init and set_bit as Install does |
| GicEngine.VcpuGic.RestoreOne | xen/arch/arm/gic.c:432-467 | one loop body either installs and leaves the rest of the loop's result unchanged, or gives up with the state unchanged |
| GicEngine.VcpuGic.EvictAndInstall | xen/arch/arm/gic.c:435-461 | the eviction branch leaves the rest of the loop's result unchanged |
| GicEngine.VcpuGic.RestorePendingIrqs | xen/arch/arm/gic.c:417-471 | the nested loops reach Restore's state |
| GicEngine.VcpuGic.ClearPendingIrqs | xen/arch/arm/gic.c:473-482 | the saved mask is forgotten and lr_pending emptied, nothing else changes |
| GicEngine.VcpuGic.EventsNeedDelivery | xen/arch/arm/gic.c:484-520 | the loop answers as the delivery walk, characterised by DeliveryWalkIff |
| GicEngine.VcpuGic.Inject | xen/arch/arm/gic.c:522-532 | restores and sets UIE as Inject does |
| GicEngine.VcpuGic.SaveState | xen/arch/arm/gic.c:69-83 | the vCPU keeps this CPU's lr_mask, except the idle vCPU |
| GicEngine.VcpuGic.RestoreState | xen/arch/arm/gic.c:85-98 | lr_mask comes back from the vCPU and the pending interrupts are restored, except for the idle vCPU |
| VgicV2.TyperAsWrittenOverstates | xen/arch/arm/vgic-v2.c:51-58 | as written, a one-vCPU domain with no SPIs reads TYPER 0x20, which announces two CPU interfaces |
| VgicV2.TyperAsWrittenDecodes | xen/arch/arm/vgic-v2.c:51-58 | as written, TYPER decodes to max_vcpus % 8 + 1 CPU interfaces and to nr_lines + 32 lines (nr_lines counts the SPIs) |
| VgicV2.TyperRoundTrip | xen/arch/arm/vgic-v2.c:51-58 | the corrected TYPER decodes, as the GICv2 driver decodes it, to the domain's vCPU count and nr_lines + 32 lines |
| VgicV2.BankOf | xen/arch/arm/vgic-v2.c:72-164 | an offset is given a register bank only when it lies in that bank's range |
| VgicV2.WideAccessCrashes | xen/arch/arm/vgic-v2.c:35-461 | half-word and doubleword accesses to a decoded register crash the domain, loads and stores |
| VgicV2.ByteAccessCrashes | xen/arch/arm/vgic-v2.c:35-461 | a byte access to a decoded register that takes no bytes crashes the domain |
| VgicV2.UndecodedUnhandled | xen/arch/arm/vgic-v2.c:215-218 | an offset no case decodes is unhandled |
| VgicV2.IgnoredRegisters | xen/arch/arm/vgic-v2.c:194-231 | the read-as-zero and write-ignored ranges accept a word and crash on anything else |
| VgicV2.CtlrRoundTrip | xen/arch/arm/vgic-v2.c:45-50 | a CTLR store keeps only the enable bit, and a load returns what was kept |
| VgicV2.IdentificationRegisters | xen/arch/arm/vgic-v2.c:51-174 | TYPER reads the as-written value and IIDR its fixed value, both ignore word stores; a word load of SGIR returns a fixed marker value |
| VgicV2.WriteDispatch | xen/arch/arm/vgic-v2.c:290-399 | a store to a rank-backed bank reaches the rank store, past the read-only ITARGETSR and ICFGR words |
| VgicV2.WriteDecodesBank | xen/arch/arm/vgic-v2.c:264-399 | no earlier case of the store handler takes such an offset |
| VgicV2.ReadDispatch | xen/arch/arm/vgic-v2.c:72-164 | a load from a bank reaches the rank load |
| VgicV2.ReadDecodesBank | xen/arch/arm/vgic-v2.c:35-164 | no earlier case of the load handler takes such an offset |
| VgicV2.RankWriteStores | xen/arch/arm/vgic-v2.c:290-399 | with an accepted width and a rank, a store replaces that rank by the bank's update |
| VgicV2.RankReadLoads | xen/arch/arm/vgic-v2.c:72-164 | with an accepted width and a rank, a load returns the bank's value |
| VgicV2.RankStore | xen/arch/arm/vgic-v2.c:290-399 | a store to a bank with a rank replaces that rank only |
| VgicV2.EnableSetRegister | xen/arch/arm/vgic-v2.c:294-308 | ISENABLER ORs the word into ienable and enables exactly the bits that were off, in register (offset - ISENABLER) / 4 |
| VgicV2.EnableClearRegister | xen/arch/arm/vgic-v2.c:309-323 | ICENABLER clears the stored bits and disables exactly the stored bits that were on |
| VgicV2.EnableBanksRead | xen/arch/arm/vgic-v2.c:76-93 | both enable banks read ienable |
| VgicV2.ActiveBanksAgree | xen/arch/arm/vgic-v2.c:112-129 | both active banks read iactive, and a store to either one clears the stored bits |
| VgicV2.ActiveClear | xen/arch/arm/vgic-v2.c:336-344 | an ISACTIVER store clears the stored bits of iactive: the guest cannot set an interrupt active |
| VgicV2.PendingWritesUnhandled | xen/arch/arm/vgic-v2.c:324-335 | stores to the pending banks are unhandled, and crash when not a byte or word |
| VgicV2.ByteBankStore | xen/arch/arm/vgic-v2.c:358-385 | a byte or word store to ITARGETSR (word 2 up) or IPRIORITYR replaces one word of the rank, a byte through vgic_byte_write as written |
| VgicV2.ByteBankLoad | xen/arch/arm/vgic-v2.c:130-155 | a byte or word load from those banks reads one rank word, narrowed to the lane for a byte |
| VgicV2.ByteBankRoundTrip | xen/arch/arm/vgic-v2.c:130-155 | a word store reads back as the word; a byte store reads back as the lane of the stored register value at the byte's position, since vgic_byte_write masks instead of shifting |
| VgicV2.PriorityRoundTrip | xen/arch/arm/vgic-v2.c:143-155 | a byte store to IPRIORITYR reads back as that lane of the stored value and keeps the other three priorities |
| VgicV2.PriorityByteStoreLost | xen/arch/arm/vgic-v2.c:371-383 | any byte the guest stores to the second priority of an IPRIORITYR word reads back as 0 |
| VgicV2.TargetsRoundTrip | xen/arch/arm/vgic-v2.c:130-142 | the same for ITARGETSR words 2 and up, whose byte store is also vgic_byte_write |
| VgicV2.ToSgiReservedFilterBugs | xen/arch/arm/vgic-v2.c:233-262 | as written, a guest SGIR value with the reserved filter 3 reaches BUG() |
| VgicV2.ToSgiTotal | xen/arch/arm/vgic-v2.c:233-262 | corrected, only filter 3 is refused; the SGI fits 4 bits and the target list 8, and every other value decodes as written |
| VgicV2.ToSgiDecodesSgir | xen/arch/arm/vgic-v2.c:233-262 | decoding the SGIR value the GICv2 driver writes gives back the mode, the SGI and the target list |
| VgicV2.VcpuInit | xen/arch/arm/vgic-v2.c:463-476 | every target byte of the private rank names the vCPU itself; the rest of the rank is unchanged |
| VgicV2.Distributor.MmioRead | xen/arch/arm/vgic-v2.c:35-231 | the load handler's outcome is DistRead's, as written (TYPER included); nothing changes |
| VgicV2.Distributor.MmioWrite | xen/arch/arm/vgic-v2.c:264-461 | the store handler's outcome is DistWrite's, as written (byte stores through vgic_byte_write), and the state becomes its new state on success |
| VgicV3.IgnoreSized | xen/arch/arm/vgic-v3.c:716-835 | write_ignore never changes the domain's sizes or ID values |
| VgicV3.GicrTyperAffinity | xen/arch/arm/vgic-v3.c:54-62 | GICR_TYPER carries each affinity level of the vCPU's MPIDR |
| VgicV3.GicrTyperLowHalf | xen/arch/arm/vgic-v3.c:54-62 | and zero below bit 32 |
| VgicV3.VcpuAffinityIsMpidrAffinity | xen/arch/arm/vgic-v3.c:847-862 | the initial route is MPIDR with everything but the four affinity fields masked off |
| VgicV3.VcpuAffinityLevels | xen/arch/arm/vgic-v3.c:847-862 | decoded as GICD_IROUTER, the route gives back the vCPU's affinity, level by level |
| VgicV3.RdWrite | xen/arch/arm/vgic-v3.c:143-214 | an RD-frame store never changes the domain's sizes or ID values |
| VgicV3.RdWritesChangeNothing | xen/arch/arm/vgic-v3.c:143-214 | an RD-frame store succeeds exactly for a known register at its width, and then changes nothing |
| VgicV3.RdTyperRead | xen/arch/arm/vgic-v3.c:54-62 | GICR_TYPER takes only a doubleword load and returns the vCPU's affinity |
| VgicV3.RdLpiRegistersReadZero | xen/arch/arm/vgic-v3.c:69-98 | the LPI registers read zero with a doubleword load and crash otherwise |
| VgicV3.RdIdentificationStoresUnhandled | xen/arch/arm/vgic-v3.c:143-214 | a word load of GICR_PIDR2 returns its ID value, a word store to it or to GICR_PIDR4 is unhandled, and one to GICR_PIDR0 is ignored: the store handler's PIDR7 .. PIDR0 range (0xFFDC to 0xFFE0) holds only PIDR7 and PIDR0, with PIDR4 and PIDR5 below it and PIDR1 to PIDR3 above it |
| VgicV3.BankOf | xen/arch/arm/vgic-v3.c:618-625 | an offset is given a register bank only when it lies in that bank's range |
| VgicV3.RankWrite | xen/arch/arm/vgic-v3.c:315-423 | a rank store never changes the domain's sizes or ID values |
| VgicV3.CommonWrite | xen/arch/arm/vgic-v3.c:315-423 | nor does the common store handler |
| VgicV3.SgiReadBank | xen/arch/arm/vgic-v3.c:435-449 | the SGI-frame loads handed to the common handler lie in the bank they name |
| VgicV3.SgiWriteBank | xen/arch/arm/vgic-v3.c:496-510 | the SGI-frame stores handed to the common handler lie in the bank they name |
| VgicV3.PendSgiWrite | xen/arch/arm/vgic-v3.c:511-528 | a pending-SGI store never changes the domain's sizes or ID values |
| VgicV3.SgiWrite | xen/arch/arm/vgic-v3.c:486-547 | nor does any SGI-frame store, as written |
| VgicV3.SgiWriteCorrected | xen/arch/arm/vgic-v3.c:511-528 | nor does the corrected SGI-frame store, which looks the pending-SGI rank up at offset 0 |
| VgicV3.PendSgiLookupAsWritten | xen/arch/arm/vgic-v3.c:511-519 | as written, the rank is looked up at the wrapped offset 0xffffff00; with a lookup that refuses that offset (vgic.c is not part of this model) a guest setting SGI 0 pending is ignored, otherwise PendSgiSet ORs the SGIs into whatever rank the lookup returns |
| VgicV3.PendSgiLookupCorrected | xen/arch/arm/vgic-v3.c:511-519 | corrected, the same store sets the bit in the private rank |
| VgicV3.PendSgiSet | xen/arch/arm/vgic-v3.c:511-519 | as written, GICR_ISPENDR0 takes only a word, looks the rank up at reg - GICR_ISACTIVER0 (wrapped), is ignored with no rank there, and otherwise ORs the written SGIs into pendsgi |
| VgicV3.PendSgiClear | xen/arch/arm/vgic-v3.c:520-528 | the same lookup for GICR_ICPENDR0, which clears the written SGIs |
| VgicV3.NsacrKeepsRegister | xen/arch/arm/vgic-v3.c:466-531 | GICR_NSACR: a word load succeeds leaving the register as it was, a store is ignored |
| VgicV3.RdistWrite | xen/arch/arm/vgic-v3.c:566-580 | a redistributor store never changes the domain's sizes or ID values |
| VgicV3.RdistPeriodic | xen/arch/arm/vgic-v3.c:549-580 | addresses one stride apart reach the same register |
| VgicV3.IrouterIndexWithinRank | xen/arch/arm/vgic-v3.c:634-644 | the corrected index counts the routes of a rank from 0 to 31 |
| VgicV3.IrouterIndexOverruns | xen/arch/arm/vgic-v3.c:634-644 | as written, the route of interrupt 32 is entry 32 of a 32-entry array |
| VgicV3.IrouterIndexAgrees | xen/arch/arm/vgic-v3.c:634-644 | wherever the as-written index stays below 32 it is the corrected one |
| VgicV3.IrouterWrite | xen/arch/arm/vgic-v3.c:773-788 | an IROUTER store, as written, never changes the domain's sizes or ID values |
| VgicV3.IrouterWriteCorrected | xen/arch/arm/vgic-v3.c:773-788 | nor does the corrected IROUTER store |
| VgicV3.DistWrite | xen/arch/arm/vgic-v3.c:716-835 | nor does any distributor store, as written |
| VgicV3.DistWriteCorrected | xen/arch/arm/vgic-v3.c:716-835 | nor does the corrected store handler |
| VgicV3.DistReadDecodesBank | xen/arch/arm/vgic-v3.c:582-625 | no earlier case of the load handler takes a bank offset |
| VgicV3.DistReadDispatch | xen/arch/arm/vgic-v3.c:618-630 | loads from a bank other than ICACTIVER reach the common handler |
| VgicV3.DistWriteDecodesBank | xen/arch/arm/vgic-v3.c:716-766 | no earlier case of the store handler takes a bank offset |
| VgicV3.DistWriteDispatch | xen/arch/arm/vgic-v3.c:758-769 | stores to a bank reach the common handler |
| VgicV3.SgiFrameLoadsAsDistributor | xen/arch/arm/vgic-v3.c:438-449 | the SGI and PPI words load through the common handler in the SGI frame, the same as from the distributor, except ICACTIVER0, which the distributor leaves unhandled and its corrected handler loads as the SGI frame does |
| VgicV3.SgiFrameStoresAsDistributor | xen/arch/arm/vgic-v3.c:499-510 | and store the same |
| VgicV3.SgiFrameIcfgr0 | xen/arch/arm/vgic-v3.c:396-397 | except ICFGR0: ignored by the distributor, unhandled from the SGI frame |
| VgicV3.CommonStore | xen/arch/arm/vgic-v3.c:329-407 | with an accepted width and a rank, a store replaces that rank by the bank's update |
| VgicV3.EnableSetRegister | xen/arch/arm/vgic-v3.c:329-339 | ISENABLER ORs the word into ienable and enables exactly the bits that were off |
| VgicV3.EnableClearRegister | xen/arch/arm/vgic-v3.c:340-350 | ICENABLER clears the stored bits and disables exactly the stored bits that were on |
| VgicV3.EnableBanksRead | xen/arch/arm/vgic-v3.c:229-244 | both enable banks load ienable |
| VgicV3.PendingRegisters | xen/arch/arm/vgic-v3.c:351-366 | ISPENDR replaces ipend by the stored word; ICPENDR clears the stored bits |
| VgicV3.PendingSetForgetsOthers | xen/arch/arm/vgic-v3.c:351-358 | so a store to ISPENDR drops pending bits written as zero |
| VgicV3.ActiveBanksRead | xen/arch/arm/vgic-v3.c:261-276 | corrected, a word load from ICACTIVER gives what one from ISACTIVER gives, and ISACTIVER loads the same corrected and as written |
| VgicV3.ActiveBanksWrite | xen/arch/arm/vgic-v3.c:367-382 | a store to either active bank has the same effect |
| VgicV3.ActiveClear | xen/arch/arm/vgic-v3.c:367-374 | an ISACTIVER store clears the stored bits: the guest cannot set an interrupt active |
| VgicV3.IcactiverLoadAsWritten | xen/arch/arm/vgic-v3.c:618-630 | as written, a distributor load from ICACTIVER is unhandled although ISACTIVER loads |
| VgicV3.CtlrRoundTrip | xen/arch/arm/vgic-v3.c:592-597 | a CTLR store keeps only the enable bit, and a load returns it |
| VgicV3.TyperFinding | xen/arch/arm/vgic-v3.c:598-603 | as written, TYPER decodes to max_vcpus % 8 + 1 CPU interfaces; corrected, to max_vcpus; both to nr_lines + 32 lines |
| VgicV3.DistReadCorrections | xen/arch/arm/vgic-v3.c:582-714 | the corrected and the as-written load handlers agree away from TYPER, ICACTIVER and IROUTER32 onwards |
| VgicV3.DistWriteCorrections | xen/arch/arm/vgic-v3.c:716-835 | the store handlers agree away from IROUTER32 onwards |
| VgicV3.IrouterDecodes | xen/arch/arm/vgic-v3.c:634 | no other case takes GICD_IROUTER32 onwards |
| VgicV3.IrouterWidth | xen/arch/arm/vgic-v3.c:634-644 | GICD_IROUTER32 onwards take only doubleword accesses |
| VgicV3.PrivateRoutesReserved | xen/arch/arm/vgic-v3.c:631-633 | GICD_IROUTER0..31 read as zero and ignore stores, doubleword only |
| VgicV3.IrouterRoundTrip | xen/arch/arm/vgic-v3.c:773-788 | as written, a route to vCPU 0 of an interrupt whose index stays below 32 is stored in its entry, nothing else changes, and a load reads it back |
| VgicV3.IrouterOtherVcpuIgnored | xen/arch/arm/vgic-v3.c:773-788 | a route to any other vCPU is ignored |
| VgicV3.IrouterNoRankLoad | xen/arch/arm/vgic-v3.c:634-644 | with no rank, a load reads zero once corrected and crashes the domain as written |
| VgicV3.IrouterOverrun | xen/arch/arm/vgic-v3.c:634-644 | as written, the route of SPI 32 lies past the rank's 32 routes for the load and the store; corrected, it is route 0 of the rank and reads back what was stored |
| VgicV3.VcpuInit | xen/arch/arm/vgic-v3.c:847-862 | every SGI and PPI route of the private rank is the vCPU's affinity; the rest of the rank is unchanged |
| VgicV3.Distributor.Apply | xen/arch/arm/vgic-v3.c:716-835 | a successful store's new state replaces the registers |
| VgicV3.Distributor.DistMmioRead | xen/arch/arm/vgic-v3.c:582-714 | the load handler's outcome is DistRead's, as written (TYPER, the unhandled ICACTIVER load and the IROUTER index included); nothing changes |
| VgicV3.Distributor.DistMmioWrite | xen/arch/arm/vgic-v3.c:716-835 | the store handler's outcome is DistWrite's, as written, applied on success |
| VgicV3.Distributor.RdistMmioRead | xen/arch/arm/vgic-v3.c:549-564 | the redistributor load outcome is RdistRead's |
| VgicV3.Distributor.RdistMmioWrite | xen/arch/arm/vgic-v3.c:566-580 | the redistributor store outcome is RdistWrite's, as written (the pending-SGI rank lookup included), applied on success |
| P2m.TypeCode | xen/arch/arm/p2m.c:250-253 | the type code fits the 4-bit type field |
| P2m.TypeCodeInjective | xen/arch/arm/p2m.c:250-253 | distinct p2m types are stored as distinct codes |
| P2m.MfnToP2mEntryDefined | xen/arch/arm/p2m.c:238-307 | an entry is built exactly for MATTR_MEM or MATTR_DEV and a real type; every other input reaches BUG() |
| P2m.MfnToP2mEntryFixedBits | xen/arch/arm/p2m.c:244-251 | the entry is valid, a level-3 page (table bit), readable and accessed |
| P2m.MfnToP2mEntryAttributes | xen/arch/arm/p2m.c:244-267 | the entry holds the memory attribute, inner-shareable for memory and outer-shareable for devices |
| P2m.MfnToP2mEntryFrame | xen/arch/arm/p2m.c:241-304 | the entry holds the frame number and the type |
| P2m.MfnToP2mEntryPermissionBits | xen/arch/arm/p2m.c:269-299 | the write and execute-never bits are those of the type |
| P2m.MfnToP2mEntryPermissions | xen/arch/arm/p2m.c:269-299 | writable exactly for RAM rw, MMIO, foreign, grant rw and IOMMU rw; executable exactly for RAM |
| P2m.LookupOfEntry | xen/arch/arm/p2m.c:203-209 | looking up a page entry from mfn_to_p2m_entry gives the frame address with the guest page offset, and the type |
| P2m.LookupKeepsPageOffset | xen/arch/arm/p2m.c:203-209 | a translation keeps the page offset and stays in the 48-bit address space |
| P2m.WalkReachesPage | xen/arch/arm/p2m.c:149-222 | a walk through three valid table entries to a mapped page translates to that page's frame, offset and type |
| P2m.LevelThreeNeedsTableBit | xen/arch/arm/p2m.c:199-201 | a level-3 entry without the table bit is no mapping |
| P2m.UnmappedAddresses | xen/arch/arm/p2m.c:107-113 | addresses beyond 48 bits, and those under an invalid zeroeth-level entry, give INVALID_PADDR |
| P2m.VttbrFields | xen/arch/arm/p2m.c:680-681 | the VTTBR holds the root table address in its low 48 bits and the VMID in bits 55:48 |
| P2m.VttbrSeparatesVmids | xen/arch/arm/p2m.c:680-681 | domains with different VMIDs get different VTTBRs |
| P2m.FirstZero | xen/arch/arm/p2m.c:715 | find_first_zero_bit: the first clear bit with every bit before it set, or the bitmap size |
| P2m.AllocLowestFree | xen/arch/arm/p2m.c:707-735 | p2m_alloc_vmid hands out the lowest free VMID |
| P2m.AllocBusy | xen/arch/arm/p2m.c:715-724 | it fails with -EBUSY exactly when all 256 VMIDs are taken |
| P2m.ReservedVmid | xen/arch/arm/p2m.c:693-717 | with VMID 0 reserved it is never handed out, and it stays reserved through allocation and release |
| P2m.FreeAfterAlloc | xen/arch/arm/p2m.c:707-745 | releasing the VMID just allocated restores the bitmap |
| P2m.FreeInvalidVmid | xen/arch/arm/p2m.c:737-745 | releasing INVALID_VMID changes nothing |
| P2m.VmidAllocator.constructor | xen/arch/arm/p2m.c:700 | the bitmap starts all clear |
| P2m.VmidAllocator.Init | xen/arch/arm/p2m.c:702-705 | p2m_vmid_allocator_init sets bit 0 only |
| P2m.VmidAllocator.AllocVmid | xen/arch/arm/p2m.c:707-735 | the search loop allocates as Alloc does: the lowest free VMID is set and returned, or -EBUSY with the bitmap unchanged |
| P2m.VmidAllocator.FreeVmid | xen/arch/arm/p2m.c:737-745 | p2m_free_vmid clears the VMID's bit unless it is INVALID_VMID |
| P2m.WidenCovers | xen/arch/arm/p2m.c:593-600 | after INSERT or ALLOCATE the window covers the old window and the new range of frames, and no more |
| P2m.WidenOnlyOnMap | xen/arch/arm/p2m.c:593-600 | the other operations leave the window alone |
| P2m.ClampWithin | xen/arch/arm/p2m.c:805-817 | the frames p2m_cache_flush visits lie within both the request and the window |
| P2m.FreshWindowFlushesNothing | xen/arch/arm/p2m.c:785-786 | a domain that has mapped nothing has an empty window, so a cache flush covers nothing |
| P2m.FirstInsertWindow | xen/arch/arm/p2m.c:593-600 | after the first INSERT the window is exactly the inserted frames |
| P2m.P2mDomain.constructor | xen/arch/arm/p2m.c:766-775 | a domain's p2m starts zeroed: INVALID_VMID, a zero VTTBR and a zero window |
| P2m.P2mDomain.Init | xen/arch/arm/p2m.c:766-792 | p2m_init takes a VMID and, on success, clears the VTTBR and empties the window; on -EBUSY the VMID stays INVALID_VMID |
| P2m.P2mDomain.AllocTable | xen/arch/arm/p2m.c:680-681 | the VTTBR becomes the root address with the VMID |
| P2m.P2mDomain.RecordChanges | xen/arch/arm/p2m.c:593-600 | the window is widened as Widen says, nothing else changes |
| P2m.P2mDomain.CacheFlushRange | xen/arch/arm/p2m.c:805-817 | the flushed range is the request clamped to the window |
| P2m.P2mDomain.Teardown | xen/arch/arm/p2m.c:747-764 | p2m_teardown releases the domain's VMID |

## Left out

- Locks (`spin_lock`, `vgic_lock_rank`, the VMID allocator lock), `printk` and interrupt masking: the model is single-threaded.
- `DOMAIN_NR_RANKS` (xen/include/asm-arm/vgic.h:90) is used by none of the modelled files; it serves the rank allocation and lookup of vgic.c, which is not part of this model, so it has no member of its own.
- `vgic_rank_offset` and `vgic_get_rank` live in vgic.c, which is not part of this model. Each handler takes the lookup as a function parameter `rankOf(b, n, s)` returning a rank key or none. What a handler does with an offset the lookup should not see, such as the wrapped offset 0xffffff00 of the GICR_ISPENDR0 and GICR_ICPENDR0 stores (REG_RANK_NR turns it into a negative rank number), therefore depends on vgic.c: the model proves the outcome for a lookup that refuses it (VgicV3.PendSgiLookupAsWritten) and, for any lookup, that the store ORs into or clears the rank returned (VgicV3.PendSgiSet, VgicV3.PendSgiClear).
- `vgic_enable_irqs`, `vgic_disable_irqs` and `vgic_to_sgi` are not part of this model. A store returns them as a deferred `Effect`.
- `GIC_PRI_TO_GUEST` and the IIDR/PIDR identification constants come from headers that are not part of this model. They are parameters or fields of `IdValues`.
- The register offsets and bit masks follow the GIC architecture specifications (IHI 0048B, IHI 0069), because the headers are not part of this model. `GICD_IROUTERN` is taken as IROUTER1019.
- The stage-2 entry layout, `PADDR_BITS` = 48, the `p2m_type_t` order and the `MATTR_*`/`LPAE_SH_*` values follow the VMSAv8-64 descriptor format and Xen's headers, which are not part of this model.
- `domain_crash_synchronous` is an outcome (`ReadCrash`/`WriteCrash`). The handler does not return.
- ASSERT and BUG_ON on indices and frame numbers are preconditions. BUG() in a switch default is an explicit outcome (`None`, `SgiBug`).
- P2m.Lookup: the ASSERT at xen/arch/arm/p2m.c:205 that a valid entry's type is not `p2m_invalid` is not a precondition. The lookup returns the entry's type field as it finds it.
- LrAllFullIffNoFreeSlot: `lr_all_full` compares `lr_mask` with the `int` expression `(1 << nr_lrs) - 1`. C defines that shift only while nr_lrs is at most 30, while GICH_VTR allows up to 64 LRs (GicV2.DerivedCountsInRange). The engine invariant `Gic.Valid` and the `GicEngine.VcpuGic` constructor therefore bound nr_lrs to 1..30. The engine for 31 to 64 LRs is not modelled.
- The initial states of `GicV2.Gicv2Context`, `GicEngine.VcpuGic`, `VgicV2.Distributor` and `VgicV3.Distributor` are assumed: their constructors take or zero the state. The code that sets it up (vgic.c domain and vCPU set-up, `gic_clear_lrs`, the handlers' registration in vgic-v2.c:478-485 and vgic-v3.c:864-881) is not part of this model.
- REG_RANK_INDEX is modelled as `VgicRank.RegRankIndex(b, n, s)`, with the access size the handlers pass. xen/include/asm-arm/vgic.h:140 defines only a two-argument form, so the three-argument form is an assumption about the header the handlers compile against. Likewise REG_RANK_NR at xen/include/asm-arm/vgic.h:102-112 has no case for 64 bits per interrupt, so with the header as given the IROUTER handlers' `vgic_rank_offset(v, 64, ...)` (xen/arch/arm/vgic-v3.c:634-644) would reach BUG() before any index is computed; the model lets the `rankOf` parameter answer for b = 64 instead.
- The 32 routes of `VgicRank.Rank.irouter` are an assumption: the rank structure of xen/include/asm-arm/vgic.h:81-87 has no `irouter` field. The IROUTER overrun finding depends on that size.
- The memory behind the stage-2 tables is a function from (table frame, index) to entry. `map_domain_page` and the cache and TLB flushes are left out.
- `apply_p2m_changes` itself (table creation, mapping, removal, RELINQUISH preemption and the IOMMU flush) is not modelled. Only its update of the mapped-frame window is.
- The 32-bit ARM paths of p2m.c (concatenated first-level tables) are left out. Only the AArch64 walk is modelled.
- P2m.Lookup: a valid block entry at level 1 or 2 gives its base with only the 4 KiB page offset, as the code does. Xen creates no such entries here.
- Page allocation is left out. `p2m_alloc_table` takes the root table address as a parameter, and its -ENOMEM path is not modelled.
- `relinquish_p2m_mapping` is not modelled. It only hands the window to `apply_p2m_changes`.
- Gic.FindVictim: after an eviction the source resumes `list_for_each_entry_reverse` from the victim's node, with that node as the loop's end marker. A walk that reaches the head of `inflight_irqs` would go on through the list head. The model ends the walk at the front of the list instead.
- `gic_route_irq_to_xen`, `gic_route_irq_to_guest`, `send_SGI_*`, `do_sgi`, `maintenance_interrupt`, `gic_dump_info` and `gicv2_init`'s device-tree parsing and mapping of the GIC are left out. They are hardware set-up and I/O around the modelled state; `gic_interrupt` is modelled by its dispatch loop only.
- `IRQ_INPROGRESS` is set by `do_IRQ` in irq.c, which is not part of this model. The engine keeps the set of physical IRQs that carry it (`inProgress`) and only clears the flag, in the retire branch of `gic_update_one_lr`.
- VcpuInit: VgicV2.VcpuInit requires vcpu_id < 8, while vgic_v2_vcpu_init accepts any vcpu_id. A GICv2 domain has at most 8 vCPUs, and beyond that the shifts of the target bytes overlap the next lane, so larger IDs are not modelled.
- `gic_raise_inflight_irq` is not modelled separately. For a record on no queue of the current vCPU, it is `gic_update_one_lr` on the record's LR (GicEngine.VcpuGic.UpdateOneLr).
- VgicV2.Distributor.MmioWrite and VgicV3.Distributor.DistMmioWrite: the store effects (enable, disable, SGI) are returned rather than performed.

## Findings

| source | as written | input that shows it | evidently intended | confidence | as-written member | corrected member |
|---|---|---|---|---|---|---|
| xen/arch/arm/vgic-v2.c:51-58 | the CPUNumber field of GICD_TYPER is built from max_vcpus without subtracting one | a domain with 1 vCPU and no SPIs reads 0x20: CPUNumber 1, that is 2 CPU interfaces | CPUNumber holds the number of CPU interfaces minus one, as the architecture defines | high, not executed | VgicV2.TyperAsWrittenOverstates | VgicV2.TyperRoundTrip |
| xen/include/asm-arm/vgic.h:126-134 | vgic_byte_write masks var in place instead of shifting its low byte into the lane | a byte store of 0xA0 at offset 1 of a zero register reads back as 0 | the low byte of var is moved into the addressed lane | high, not executed | VgicRank.ByteWriteLosesStore | VgicRank.ByteWriteShiftedThenRead |
| xen/arch/arm/vgic-v2.c:371-383 | the IPRIORITYR byte store goes through vgic_byte_write | a guest storing any byte to the second priority of a word reads back 0 | the stored byte reads back | high, not executed | VgicV2.PriorityByteStoreLost | VgicRank.ByteWriteShiftedThenRead |
| xen/arch/arm/vgic-v2.c:233-262 | a guest SGIR value with target filter 3 (reserved) reaches BUG() | the guest stores 0x0300_0000 to GICD_SGIR | the reserved filter is refused without bringing down the hypervisor | high, not executed | VgicV2.ToSgiReservedFilterBugs | VgicV2.ToSgiTotal |
| xen/arch/arm/vgic-v3.c:598-603 | the CPUNumber field of GICD_TYPER is built as in vgic-v2.c, without the minus one | max_vcpus vCPUs read as max_vcpus % 8 + 1 CPU interfaces | as above | high, not executed | VgicV3.TyperFinding | VgicV3.TyperFinding |
| xen/arch/arm/vgic-v3.c:618-630 | the distributor load handler lists ISACTIVER but not ICACTIVER before calling the common handler | a word load from GICD_ICACTIVER is unhandled | ICACTIVER loads iactive like ISACTIVER, as the common handler and the store path do | medium, not executed | VgicV3.IcactiverLoadAsWritten | VgicV3.ActiveBanksRead |
| xen/arch/arm/vgic-v3.c:634-644 | with no rank behind GICD_IROUTER32 onwards, the load goes to read_as_zero, which accepts only a word | a doubleword load of an IROUTER beyond the domain's lines crashes the domain | such a load reads zero | medium, not executed | VgicV3.IrouterNoRankLoad | VgicV3.IrouterNoRankLoad |
| xen/arch/arm/vgic-v3.c:634-644 | the route index is REG_RANK_INDEX(64, ...), masked with 63, into the rank's routes (32 of them, an assumption: see "## Left out") | the route of SPI 32 is entry 32 of the 32-entry irouter array, for the load and for the store | the index counts the 32 routes of the rank, 0 to 31 | medium, not executed | VgicV3.IrouterIndexOverruns | VgicV3.IrouterOverrun |
| xen/arch/arm/vgic-v3.c:511-519 | the GICR_ISPENDR0 store looks up the rank at offset reg - GICR_ISACTIVER0 | a guest storing 1 to GICR_ISPENDR0 looks up offset 0xffffff00; with a lookup that refuses that offset (vgic.c is not part of this model) the store is ignored, otherwise PendSgiSet ORs the SGIs into whatever rank the lookup returns | the rank is looked up at offset 0, that of the SGI frame's own registers | medium, not executed | VgicV3.PendSgiLookupAsWritten | VgicV3.PendSgiLookupCorrected |
