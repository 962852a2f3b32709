/*
 * The bookkeeping of xen/arch/arm/p2m.c around a domain's stage-2
 * translation tables: the VMID allocator, the stage-2 entry built for a
 * mapping, the VTTBR value, the window of guest frames ever mapped, and the
 * software walk of p2m_lookup (AArch64, four levels, 4 KiB pages).
 */
module P2m {

  /* ---------------------------------------------------------------------- */
  /* Constants                                                              */

  const PAGE_SHIFT: bv64 := 12
  const PAGE_MASK: bv64 := 0xffff_ffff_ffff_f000
  /** PADDR_BITS = 48 on arm64. */
  const PADDR_MASK: bv64 := 0x0000_ffff_ffff_ffff
  const INVALID_PADDR: bv64 := 0xffff_ffff_ffff_ffff

  /** Memory attribute indices and shareability encodings of the stage-2 descriptor. */
  const MATTR_DEV: bv64 := 0x1
  const MATTR_MEM: bv64 := 0xf
  const LPAE_SH_OUTER: bv64 := 0x2
  const LPAE_SH_INNER: bv64 := 0x3

  const MAX_VMID: nat := 256
  const INVALID_VMID: Vmid := 0

  /** A VMID, the 8-bit p2m->vmid. */
  newtype Vmid = v: int | 0 <= v < 256

  const EBUSY: int := 16

  /* ---------------------------------------------------------------------- */
  /* p2m types                                                              */

  /** p2m_type_t, in its declaration order (the code stored in the entry). */
  datatype P2mType =
    | Invalid | RamRw | RamRo | MmioDirect | MapForeign | GrantMapRw | GrantMapRo
    | IommuMapRw | IommuMapRo | MaxRealType

  function TypeCode(t: P2mType): (c: bv64)
    ensures c < 16
  {
    match t
    case Invalid => 0
    case RamRw => 1
    case RamRo => 2
    case MmioDirect => 3
    case MapForeign => 4
    case GrantMapRw => 5
    case GrantMapRo => 6
    case IommuMapRw => 7
    case IommuMapRo => 8
    case MaxRealType => 9
  }

  /** Distinct types have distinct codes. */
  lemma TypeCodeInjective(t: P2mType, u: P2mType)
    ensures TypeCode(t) == TypeCode(u) <==> t == u
  {
  }

  /* ---------------------------------------------------------------------- */
  /* Stage-2 entries (lpae_t, p2m view)                                     */

  /*
   * Bit layout of an entry: valid 0, table 1, mattr 5:2, read 6, write 7,
   * sh 9:8, af 10, base 47:12, xn 54, type 58:55 (the type is software
   * defined, the rest follows the VMSAv8-64 stage-2 descriptor).
   */

  predicate EntryValid(e: bv64) { e & 1 == 1 }
  predicate EntryTable(e: bv64) { (e >> 1) & 1 == 1 }
  function EntryMattr(e: bv64): bv64 { (e >> 2) & 0xf }
  function EntryRead(e: bv64): bv64 { (e >> 6) & 1 }
  function EntryWrite(e: bv64): bv64 { (e >> 7) & 1 }
  function EntrySh(e: bv64): bv64 { (e >> 8) & 3 }
  function EntryAf(e: bv64): bv64 { (e >> 10) & 1 }
  /** The 36-bit frame number of the page, block or next-level table. */
  function EntryBase(e: bv64): bv64 { (e >> 12) & 0xf_ffff_ffff }
  function EntryXn(e: bv64): bv64 { (e >> 54) & 1 }
  function EntryType(e: bv64): bv64 { (e >> 55) & 0xf }

  /** The shareability mfn_to_p2m_entry chooses for mattr; None is its BUG(). */
  function ShareabilityOf(mattr: bv64): Option<bv64>
  {
    if mattr == MATTR_MEM then Some(LPAE_SH_INNER)
    else if mattr == MATTR_DEV then Some(LPAE_SH_OUTER)
    else None
  }

  /** The execute-never bit the type gets. */
  function XnOf(t: P2mType): bv64
  {
    match t
    case RamRw | RamRo => 0
    case _ => 1
  }

  /** The write bit the type gets. */
  function WriteOf(t: P2mType): bv64
  {
    match t
    case RamRw | MmioDirect | MapForeign | GrantMapRw | IommuMapRw => 1
    case _ => 0
  }

  datatype Option<T> = None | Some(value: T)

  /**
   * mfn_to_p2m_entry: a valid page entry (af, read, table and valid set)
   * for frame mfn with memory attribute mattr and type t.  None stands for
   * the BUG() on an unknown mattr or on p2m_max_real_type.  The frame must
   * fit the 48-bit physical address space, as the entry's ASSERTs demand.
   */
  function MfnToP2mEntry(mfn: bv64, mattr: bv64, t: P2mType): Option<bv64>
    requires mfn < 0x10_0000_0000
  {
    if ShareabilityOf(mattr).None? || t.MaxRealType? then None
    else
      var fields := 1 | (1 << 1) | ((mattr & 0xf) << 2) | (1 << 6) | (WriteOf(t) << 7)
        | (ShareabilityOf(mattr).value << 8) | (1 << 10) | (XnOf(t) << 54) | (TypeCode(t) << 55);
      Some(fields | (mfn << PAGE_SHIFT))
  }

  /** The entry is built for the two supported attributes and every real type, and for nothing else. */
  lemma MfnToP2mEntryDefined(mfn: bv64, mattr: bv64, t: P2mType)
    requires mfn < 0x10_0000_0000
    ensures MfnToP2mEntry(mfn, mattr, t).Some? <==> (mattr == MATTR_MEM || mattr == MATTR_DEV) && !t.MaxRealType?
  {
  }

  /** The entry is a valid, accessed, readable page (table bit set at level 3). */
  lemma {:induction false} MfnToP2mEntryFixedBits(mfn: bv64, mattr: bv64, t: P2mType)
    requires mfn < 0x10_0000_0000 && MfnToP2mEntry(mfn, mattr, t).Some?
    ensures var e := MfnToP2mEntry(mfn, mattr, t).value;
      EntryValid(e) && EntryTable(e) && EntryRead(e) == 1 && EntryAf(e) == 1
  {
    var e := MfnToP2mEntry(mfn, mattr, t).value;
    var sh := ShareabilityOf(mattr).value;
    var w := WriteOf(t);
    var x := XnOf(t);
    var c := TypeCode(t);
    assert sh <= 3 && w <= 1 && x <= 1 && c < 16;
    EntryLowBits(mfn, mattr & 0xf, w, sh, x, c);
  }

  /** The low eleven bits of an entry assembled from its fields. */
  lemma EntryLowBits(mfn: bv64, mattr: bv64, w: bv64, sh: bv64, x: bv64, c: bv64)
    requires mattr < 16 && w <= 1 && sh <= 3 && x <= 1 && c < 16
    ensures var e := 1 | (1 << 1) | (mattr << 2) | (1 << 6) | (w << 7) | (sh << 8) | (1 << 10) | (x << 54) | (c << 55) | (mfn << 12);
      e & 1 == 1 && (e >> 1) & 1 == 1 && (e >> 6) & 1 == 1 && (e >> 10) & 1 == 1
      && (e >> 2) & 0xf == mattr && (e >> 7) & 1 == w && (e >> 8) & 3 == sh
  {
  }

  /** The high bits of an entry assembled from its fields. */
  lemma EntryHighBits(mfn: bv64, mattr: bv64, w: bv64, sh: bv64, x: bv64, c: bv64)
    requires mfn < 0x10_0000_0000 && mattr < 16 && w <= 1 && sh <= 3 && x <= 1 && c < 16
    ensures var e := 1 | (1 << 1) | (mattr << 2) | (1 << 6) | (w << 7) | (sh << 8) | (1 << 10) | (x << 54) | (c << 55) | (mfn << 12);
      (e >> 12) & 0xf_ffff_ffff == mfn && (e >> 54) & 1 == x && (e >> 55) & 0xf == c
      && e & PADDR_MASK & PAGE_MASK == mfn << 12
  {
  }

  /** The entry records the attribute and its shareability: inner for memory, outer for devices. */
  lemma {:induction false} MfnToP2mEntryAttributes(mfn: bv64, mattr: bv64, t: P2mType)
    requires mfn < 0x10_0000_0000 && MfnToP2mEntry(mfn, mattr, t).Some?
    ensures var e := MfnToP2mEntry(mfn, mattr, t).value;
      EntryMattr(e) == mattr && EntrySh(e) == (if mattr == MATTR_MEM then LPAE_SH_INNER else LPAE_SH_OUTER)
  {
    var w := WriteOf(t);
    var x := XnOf(t);
    var c := TypeCode(t);
    assert w <= 1 && x <= 1 && c < 16;
    if mattr == MATTR_MEM {
      EntryLowBits(mfn, MATTR_MEM, w, LPAE_SH_INNER, x, c);
    } else {
      EntryLowBits(mfn, MATTR_DEV, w, LPAE_SH_OUTER, x, c);
    }
  }

  /** The entry records the frame and the type. */
  lemma {:induction false} MfnToP2mEntryFrame(mfn: bv64, mattr: bv64, t: P2mType)
    requires mfn < 0x10_0000_0000 && MfnToP2mEntry(mfn, mattr, t).Some?
    ensures var e := MfnToP2mEntry(mfn, mattr, t).value;
      EntryBase(e) == mfn && EntryType(e) == TypeCode(t)
  {
    var sh := ShareabilityOf(mattr).value;
    var w := WriteOf(t);
    var x := XnOf(t);
    var c := TypeCode(t);
    assert sh <= 3 && w <= 1 && x <= 1 && c < 16;
    EntryHighBits(mfn, mattr & 0xf, w, sh, x, c);
  }

  /** The write and execute-never bits of the entry are those of its type. */
  lemma {:induction false} MfnToP2mEntryPermissionBits(mfn: bv64, mattr: bv64, t: P2mType)
    requires mfn < 0x10_0000_0000 && MfnToP2mEntry(mfn, mattr, t).Some?
    ensures var e := MfnToP2mEntry(mfn, mattr, t).value;
      EntryWrite(e) == WriteOf(t) && EntryXn(e) == XnOf(t)
  {
    var sh := ShareabilityOf(mattr).value;
    var w := WriteOf(t);
    var x := XnOf(t);
    var c := TypeCode(t);
    assert sh <= 3 && w <= 1 && x <= 1 && c < 16;
    EntryLowBits(mfn, mattr & 0xf, w, sh, x, c);
    EntryHighBits(mfn, mattr & 0xf, w, sh, x, c);
  }

  /**
   * The permissions of a mapping: writable exactly for the read/write
   * types, executable exactly for RAM.
   */
  lemma MfnToP2mEntryPermissions(mfn: bv64, mattr: bv64, t: P2mType)
    requires mfn < 0x10_0000_0000 && MfnToP2mEntry(mfn, mattr, t).Some?
    ensures var e := MfnToP2mEntry(mfn, mattr, t).value;
      && (EntryWrite(e) == 1 <==> t in {RamRw, MmioDirect, MapForeign, GrantMapRw, IommuMapRw})
      && (EntryXn(e) == 0 <==> t in {RamRw, RamRo})
  {
    MfnToP2mEntryPermissionBits(mfn, mattr, t);
  }

  /* ---------------------------------------------------------------------- */
  /* p2m_lookup                                                             */

  /**
   * The result formation at the end of p2m_lookup: for a valid final entry,
   * the frame address of the entry with the page offset of paddr, and the
   * entry's type; INVALID_PADDR and p2m_invalid (code 0) otherwise.
   */
  function LookupResult(pte: bv64, paddr: bv64): (bv64, bv64)
  {
    if EntryValid(pte) then ((pte & PADDR_MASK & PAGE_MASK) | (paddr & !PAGE_MASK), EntryType(pte))
    else (INVALID_PADDR, 0)
  }

  /** The guest memory holding the tables: the entry at an index of the table page with a frame number. */
  type Memory = (bv64, bv64) -> bv64

  function ZeroethOffset(paddr: bv64): bv64 { (paddr >> 39) & 0x1ff }
  function FirstOffset(paddr: bv64): bv64 { (paddr >> 30) & 0x1ff }
  function SecondOffset(paddr: bv64): bv64 { (paddr >> 21) & 0x1ff }
  function ThirdOffset(paddr: bv64): bv64 { (paddr >> 12) & 0x1ff }

  /**
   * The final entry of the walk: the zeroeth-level entry if it is invalid,
   * the first- or second-level entry if it is invalid or a block, and the
   * third-level entry, read as zero unless its table bit is set.
   */
  function FinalEntry(mem: Memory, root: bv64, paddr: bv64): bv64
  {
    var z := mem(root, ZeroethOffset(paddr));
    if !EntryValid(z) then z
    else
      var f := mem(EntryBase(z), FirstOffset(paddr));
      if !EntryValid(f) || !EntryTable(f) then f
      else
        var s := mem(EntryBase(f), SecondOffset(paddr));
        if !EntryValid(s) || !EntryTable(s) then s
        else
          var l3 := mem(EntryBase(s), ThirdOffset(paddr));
          if !EntryTable(l3) then 0 else l3
  }

  /**
   * p2m_lookup on arm64: addresses beyond the 48 bits of the zeroeth level
   * give INVALID_PADDR, the others the result for the final entry of the walk.
   */
  function Lookup(mem: Memory, root: bv64, paddr: bv64): (bv64, bv64)
  {
    if paddr >> 39 >= 512 then (INVALID_PADDR, 0)
    else LookupResult(FinalEntry(mem, root, paddr), paddr)
  }

  /**
   * A page mapped with mfn_to_p2m_entry translates to its frame with the
   * page offset of the guest address kept, and reports the mapping's type.
   */
  lemma {:induction false} LookupOfEntry(mfn: bv64, mattr: bv64, t: P2mType, paddr: bv64)
    requires mfn < 0x10_0000_0000 && MfnToP2mEntry(mfn, mattr, t).Some?
    ensures LookupResult(MfnToP2mEntry(mfn, mattr, t).value, paddr) ==
      ((mfn << PAGE_SHIFT) | (paddr & 0xfff), TypeCode(t))
  {
    var sh := ShareabilityOf(mattr).value;
    var w := WriteOf(t);
    var x := XnOf(t);
    var c := TypeCode(t);
    assert sh <= 3 && w <= 1 && x <= 1 && c < 16;
    EntryLowBits(mfn, mattr & 0xf, w, sh, x, c);
    EntryHighBits(mfn, mattr & 0xf, w, sh, x, c);
  }

  /** The translation of a valid entry differs from paddr only above the page offset. */
  lemma LookupKeepsPageOffset(pte: bv64, paddr: bv64)
    requires EntryValid(pte)
    ensures LookupResult(pte, paddr).0 & 0xfff == paddr & 0xfff
    ensures LookupResult(pte, paddr).0 <= PADDR_MASK
  {
  }

  /**
   * A walk through three valid table entries to a page entry built by
   * mfn_to_p2m_entry finds that page: a guest address translates to the
   * mapped frame with its page offset.
   */
  lemma WalkReachesPage(mem: Memory, root: bv64, paddr: bv64, mfn: bv64, mattr: bv64, t: P2mType)
    requires paddr <= PADDR_MASK
    requires mfn < 0x10_0000_0000 && MfnToP2mEntry(mfn, mattr, t).Some?
    requires var z := mem(root, ZeroethOffset(paddr));
      && EntryValid(z) && EntryTable(z)
      && var f := mem(EntryBase(z), FirstOffset(paddr));
      && EntryValid(f) && EntryTable(f)
      && var s := mem(EntryBase(f), SecondOffset(paddr));
      && EntryValid(s) && EntryTable(s)
      && mem(EntryBase(s), ThirdOffset(paddr)) == MfnToP2mEntry(mfn, mattr, t).value
    ensures Lookup(mem, root, paddr) == ((mfn << PAGE_SHIFT) | (paddr & 0xfff), TypeCode(t))
  {
    assert paddr >> 39 < 512;
    MfnToP2mEntryFixedBits(mfn, mattr, t);
    LookupOfEntry(mfn, mattr, t, paddr);
  }

  /** A third-level entry without the table bit is no mapping. */
  lemma LevelThreeNeedsTableBit(mem: Memory, root: bv64, paddr: bv64)
    requires paddr <= PADDR_MASK
    requires var z := mem(root, ZeroethOffset(paddr));
      && EntryValid(z)
      && var f := mem(EntryBase(z), FirstOffset(paddr));
      && EntryValid(f) && EntryTable(f)
      && var s := mem(EntryBase(f), SecondOffset(paddr));
      && EntryValid(s) && EntryTable(s)
      && !EntryTable(mem(EntryBase(s), ThirdOffset(paddr)))
    ensures Lookup(mem, root, paddr) == (INVALID_PADDR, 0)
  {
    assert paddr >> 39 < 512;
  }

  /** Addresses beyond the 48-bit input range, and those with an invalid zeroeth-level entry, are unmapped. */
  lemma UnmappedAddresses(mem: Memory, root: bv64, paddr: bv64)
    ensures paddr > PADDR_MASK ==> Lookup(mem, root, paddr) == (INVALID_PADDR, 0)
    ensures !EntryValid(mem(root, ZeroethOffset(paddr))) ==> Lookup(mem, root, paddr) == (INVALID_PADDR, 0)
  {
  }

  /* ---------------------------------------------------------------------- */
  /* VTTBR                                                                  */

  /** d->arch.vttbr: the root table's address with the VMID in bits 55:48. */
  function Vttbr(rootMaddr: bv64, vmid: bv8): bv64
  {
    rootMaddr | (((vmid as bv64) & 0xff) << 48)
  }

  /** For a root table in the 48-bit address space the VTTBR decodes to the root and the VMID. */
  lemma VttbrFields(rootMaddr: bv64, vmid: bv8)
    requires rootMaddr <= PADDR_MASK
    ensures Vttbr(rootMaddr, vmid) & PADDR_MASK == rootMaddr
    ensures (Vttbr(rootMaddr, vmid) >> 48) as bv8 == vmid
    ensures Vttbr(rootMaddr, vmid) >> 56 == 0
  {
  }

  /** Two domains with distinct VMIDs get distinct VTTBRs, whatever their roots. */
  lemma VttbrSeparatesVmids(root1: bv64, vmid1: bv8, root2: bv64, vmid2: bv8)
    requires root1 <= PADDR_MASK && root2 <= PADDR_MASK && vmid1 != vmid2
    ensures Vttbr(root1, vmid1) != Vttbr(root2, vmid2)
  {
    VttbrFields(root1, vmid1);
    VttbrFields(root2, vmid2);
  }

  /* ---------------------------------------------------------------------- */
  /* The VMID allocator                                                     */

  /** find_first_zero_bit from index from: the first clear bit, or |bits| when there is none. */
  function FirstZero(bits: seq<bool>, from: nat): (r: nat)
    requires from <= |bits|
    ensures from <= r <= |bits|
    ensures r < |bits| ==> !bits[r]
    ensures forall k :: from <= k < r ==> bits[k]
    decreases |bits| - from
  {
    if from == |bits| || !bits[from] then from else FirstZero(bits, from + 1)
  }

  datatype AllocResult = Allocated(vmid: Vmid) | Busy

  /** p2m_alloc_vmid on the bitmap: the lowest free VMID, or -EBUSY. */
  function Alloc(bits: seq<bool>): AllocResult
    requires |bits| == MAX_VMID
  {
    var nr := FirstZero(bits, 0);
    if nr == MAX_VMID then Busy else Allocated(nr as Vmid)
  }

  /** The bitmap after p2m_alloc_vmid: the chosen bit set. */
  function AfterAlloc(bits: seq<bool>): seq<bool>
    requires |bits| == MAX_VMID
  {
    match Alloc(bits)
    case Allocated(v) => bits[v as int := true]
    case Busy => bits
  }

  /** The bitmap after p2m_free_vmid: the bit cleared unless vmid is the reserved INVALID_VMID. */
  function Free(bits: seq<bool>, vmid: Vmid): seq<bool>
    requires |bits| == MAX_VMID
  {
    if vmid == INVALID_VMID then bits else bits[vmid as int := false]
  }

  /** The allocator hands out the lowest free VMID. */
  lemma AllocLowestFree(bits: seq<bool>)
    requires |bits| == MAX_VMID && Alloc(bits).Allocated?
    ensures var v := Alloc(bits).vmid as int; !bits[v] && forall k :: 0 <= k < v ==> bits[k]
  {
    assert FirstZero(bits, 0) < MAX_VMID;
  }

  /** The allocator reports busy exactly when every VMID is taken. */
  lemma AllocBusy(bits: seq<bool>)
    requires |bits| == MAX_VMID
    ensures Alloc(bits).Busy? <==> forall k :: 0 <= k < MAX_VMID ==> bits[k]
  {
    if !Alloc(bits).Busy? {
      assert !bits[FirstZero(bits, 0)];
    }
  }

  /** With VMID 0 reserved it is never handed out, and it stays reserved through allocation and freeing. */
  lemma ReservedVmid(bits: seq<bool>, vmid: Vmid)
    requires |bits| == MAX_VMID && bits[0]
    ensures Alloc(bits) != Allocated(INVALID_VMID)
    ensures AfterAlloc(bits)[0] && Free(bits, vmid)[0]
  {
  }

  /** Freeing the VMID just allocated gives back the bitmap as it was. */
  lemma FreeAfterAlloc(bits: seq<bool>)
    requires |bits| == MAX_VMID && bits[0] && Alloc(bits).Allocated?
    ensures Free(AfterAlloc(bits), Alloc(bits).vmid) == bits
  {
    var v := Alloc(bits).vmid;
    assert v != INVALID_VMID;
    assert !bits[v as int];
    assert bits[v as int := true][v as int := false] == bits;
  }

  /** Freeing the reserved VMID (a domain that never got one) changes nothing. */
  lemma FreeInvalidVmid(bits: seq<bool>)
    requires |bits| == MAX_VMID
    ensures Free(bits, INVALID_VMID) == bits
  {
  }

  /** vmid_mask, the bitmap of VMIDs in use. */
  class VmidAllocator {
    const mask: array<bool>

    /** The bitmap as allocated in static storage: all clear. */
    constructor ()
      ensures mask.Length == MAX_VMID && fresh(mask)
      ensures forall k :: 0 <= k < MAX_VMID ==> !mask[k]
    {
      mask := new bool[MAX_VMID](_ => false);
    }

    /** p2m_vmid_allocator_init: reserve VMID 0. */
    method Init()
      requires mask.Length == MAX_VMID
      modifies mask
      ensures mask[..] == old(mask[..])[0 := true]
    {
      mask[0] := true;
    }

    /** p2m_alloc_vmid: search the lowest clear bit, set it and return it, or -EBUSY. */
    method AllocVmid() returns (rc: int, vmid: Vmid)
      requires mask.Length == MAX_VMID && mask[0]
      modifies mask
      ensures mask[..] == AfterAlloc(old(mask[..]))
      ensures rc == 0 ==> Alloc(old(mask[..])) == Allocated(vmid)
      ensures rc != 0 ==> rc == -EBUSY && Alloc(old(mask[..])).Busy?
    {
      var nr := 0;
      while nr < MAX_VMID && mask[nr]
        invariant 0 <= nr <= MAX_VMID
        invariant FirstZero(mask[..], nr) == FirstZero(mask[..], 0)
      {
        nr := nr + 1;
      }
      if nr == MAX_VMID {
        return -EBUSY, 0;
      }
      mask[nr] := true;
      return 0, nr as Vmid;
    }

    /** p2m_free_vmid: clear the domain's bit unless it is INVALID_VMID. */
    method FreeVmid(vmid: Vmid)
      requires mask.Length == MAX_VMID
      modifies mask
      ensures mask[..] == Free(old(mask[..]), vmid)
    {
      if vmid != INVALID_VMID {
        mask[vmid as int] := false;
      }
    }
  }

  /* ---------------------------------------------------------------------- */
  /* The mapped-gfn window                                                  */

  /** The largest unsigned long, the empty window's lower end. */
  const ULONG_MAX: nat := 0xffff_ffff_ffff_ffff

  /** paddr_to_pfn: the guest frame number of an address. */
  function PaddrToPfn(paddr: bv64): (gfn: nat)
    ensures gfn <= ULONG_MAX
  {
    (paddr >> PAGE_SHIFT) as nat
  }

  function Max(a: nat, b: nat): nat { if a < b then b else a }
  function Min(a: nat, b: nat): nat { if a < b then a else b }

  /** The operations of apply_p2m_changes; only INSERT and ALLOCATE widen the window. */
  datatype Op = Insert | Allocate | Remove | Relinquish | CacheFlush

  /** The window [lowest, max] after an operation on [start_gpaddr, end_gpaddr]. */
  function Widen(op: Op, lowest: nat, max: nat, startGpaddr: bv64, endGpaddr: bv64): (nat, nat)
  {
    if op.Insert? || op.Allocate? then (Min(lowest, PaddrToPfn(startGpaddr)), Max(max, PaddrToPfn(endGpaddr)))
    else (lowest, max)
  }

  /** An INSERT or ALLOCATE leaves the window covering the old window and the new range, and no more. */
  lemma WidenCovers(op: Op, lowest: nat, max: nat, startGpaddr: bv64, endGpaddr: bv64)
    requires op.Insert? || op.Allocate?
    ensures var w := Widen(op, lowest, max, startGpaddr, endGpaddr);
      && w.0 <= lowest && max <= w.1
      && w.0 <= PaddrToPfn(startGpaddr) && PaddrToPfn(endGpaddr) <= w.1
      && (w.0 == lowest || w.0 == PaddrToPfn(startGpaddr)) && (w.1 == max || w.1 == PaddrToPfn(endGpaddr))
  {
  }

  /** The other operations leave the window alone. */
  lemma WidenOnlyOnMap(op: Op, lowest: nat, max: nat, startGpaddr: bv64, endGpaddr: bv64)
    requires !(op.Insert? || op.Allocate?)
    ensures Widen(op, lowest, max, startGpaddr, endGpaddr) == (lowest, max)
  {
  }

  /** p2m_cache_flush: the requested frame range cut down to the window. */
  function ClampToWindow(lowest: nat, max: nat, startMfn: nat, endMfn: nat): (nat, nat)
  {
    (Max(startMfn, lowest), Min(endMfn, max))
  }

  /** The flushed range lies within both the request and the window. */
  lemma ClampWithin(lowest: nat, max: nat, startMfn: nat, endMfn: nat)
    ensures var r := ClampToWindow(lowest, max, startMfn, endMfn);
      && startMfn <= r.0 && lowest <= r.0 && r.1 <= endMfn && r.1 <= max
      && (r.0 == startMfn || r.0 == lowest) && (r.1 == endMfn || r.1 == max)
  {
  }

  /**
   * A domain that has mapped nothing has the empty window of p2m_init
   * (lowest ULONG_MAX above max 0), so a cache flush of frames below
   * ULONG_MAX covers nothing.
   */
  lemma FreshWindowFlushesNothing(startMfn: nat, endMfn: nat)
    ensures var r := ClampToWindow(ULONG_MAX, 0, startMfn, endMfn);
      r.0 >= ULONG_MAX && r.1 == 0
  {
  }

  /** After a first INSERT of [start, end], the window is exactly that range of frames. */
  lemma FirstInsertWindow(startGpaddr: bv64, endGpaddr: bv64)
    ensures Widen(Insert, ULONG_MAX, 0, startGpaddr, endGpaddr) == (PaddrToPfn(startGpaddr), PaddrToPfn(endGpaddr))
  {
  }

  /* ---------------------------------------------------------------------- */
  /* The domain's p2m state updated in place                                */

  /** The fields of d->arch.p2m (and d->arch.vttbr) the model keeps. */
  class P2mDomain {
    var vmid: Vmid
    var vttbr: bv64
    var maxMappedGfn: nat
    var lowestMappedGfn: nat

    constructor ()
      ensures vmid == INVALID_VMID && vttbr == 0 && maxMappedGfn == 0 && lowestMappedGfn == 0
    {
      vmid := INVALID_VMID;
      vttbr := 0;
      maxMappedGfn := 0;
      lowestMappedGfn := 0;
    }

    /**
     * p2m_init: take a VMID (INVALID_VMID is left in place when the pool
     * is exhausted) and, on success, clear the VTTBR and empty the window.
     */
    method Init(alloc: VmidAllocator) returns (rc: int)
      requires alloc.mask.Length == MAX_VMID && alloc.mask[0]
      modifies this, alloc.mask
      ensures alloc.mask[..] == AfterAlloc(old(alloc.mask[..]))
      ensures rc == 0 ==>
        Alloc(old(alloc.mask[..])) == Allocated(vmid) && vttbr == 0 && maxMappedGfn == 0 && lowestMappedGfn == ULONG_MAX
      ensures rc != 0 ==>
        rc == -EBUSY && vmid == INVALID_VMID && vttbr == old(vttbr)
        && maxMappedGfn == old(maxMappedGfn) && lowestMappedGfn == old(lowestMappedGfn)
    {
      vmid := INVALID_VMID;
      var nr;
      rc, nr := alloc.AllocVmid();
      if rc != 0 {
        return;
      }
      vmid := nr;
      vttbr := 0;
      maxMappedGfn := 0;
      lowestMappedGfn := ULONG_MAX;
    }

    /** The VTTBR composition of p2m_alloc_table, for a root table at rootMaddr. */
    method AllocTable(rootMaddr: bv64)
      modifies this
      ensures vttbr == Vttbr(rootMaddr, vmid as bv8)
      ensures vmid == old(vmid) && maxMappedGfn == old(maxMappedGfn) && lowestMappedGfn == old(lowestMappedGfn)
    {
      vttbr := rootMaddr | (((vmid as bv8 as bv64) & 0xff) << 48);
    }

    /** The window update at the end of a successful apply_p2m_changes. */
    method RecordChanges(op: Op, startGpaddr: bv64, endGpaddr: bv64)
      modifies this
      ensures (lowestMappedGfn, maxMappedGfn) == Widen(op, old(lowestMappedGfn), old(maxMappedGfn), startGpaddr, endGpaddr)
      ensures vmid == old(vmid) && vttbr == old(vttbr)
    {
      if op == Allocate || op == Insert {
        var sgfn := PaddrToPfn(startGpaddr);
        var egfn := PaddrToPfn(endGpaddr);
        maxMappedGfn := if maxMappedGfn < egfn then egfn else maxMappedGfn;
        lowestMappedGfn := if lowestMappedGfn < sgfn then lowestMappedGfn else sgfn;
      }
    }

    /** The range p2m_cache_flush hands to apply_p2m_changes. */
    method CacheFlushRange(startMfn: nat, endMfn: nat) returns (s: nat, e: nat)
      ensures (s, e) == ClampToWindow(lowestMappedGfn, maxMappedGfn, startMfn, endMfn)
    {
      s := if startMfn < lowestMappedGfn then lowestMappedGfn else startMfn;
      e := if endMfn < maxMappedGfn then endMfn else maxMappedGfn;
    }

    /** p2m_teardown's p2m_free_vmid. */
    method Teardown(alloc: VmidAllocator)
      requires alloc.mask.Length == MAX_VMID
      modifies alloc.mask
      ensures alloc.mask[..] == Free(old(alloc.mask[..]), vmid)
    {
      alloc.FreeVmid(vmid);
    }
  }
}
