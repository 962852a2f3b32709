/*
 * Byte-lane helpers, rank-index arithmetic and the per-rank register state
 * of the virtual GIC distributor (xen/include/asm-arm/vgic.h).
 */
module VgicRank {
  import opened GicRegs

  datatype Option<T> = None | Some(value: T)

  /** w >> (8 * byte) for a byte lane index 0..3. */
  function ShrBytes(w: bv32, byte: nat): bv32
    requires byte < 4
  {
    match byte
    case 0 => w
    case 1 => w >> 8
    case 2 => w >> 16
    case 3 => w >> 24
  }

  /** w << (8 * byte) for a byte lane index 0..3. */
  function ShlBytes(w: bv32, byte: nat): bv32
    requires byte < 4
  {
    match byte
    case 0 => w
    case 1 => w << 8
    case 2 => w << 16
    case 3 => w << 24
  }

  /** Lane k (0..3) of a 32-bit register: bits 8k+7..8k. */
  function Lane(w: bv32, k: nat): bv32
    requires k < 4
  {
    ShrBytes(w, k) & 0xff
  }

  /** Two words are equal exactly when all four byte lanes are. */
  lemma LanesDetermineWord(a: bv32, b: bv32)
    requires forall k :: 0 <= k < 4 ==> Lane(a, k) == Lane(b, k)
    ensures a == b
  {
    assert Lane(a, 0) == Lane(b, 0) && Lane(a, 1) == Lane(b, 1);
    assert Lane(a, 2) == Lane(b, 2) && Lane(a, 3) == Lane(b, 3);
  }

  /**
   * vgic_byte_read: lane (offset & 3) of val, sign-extended to 32 bits when
   * sign is set and bit 7 of the lane is one, zero-extended otherwise.
   * Dafny's % is Euclidean, so offset % 4 equals the two's-complement
   * offset & 3 for negative offsets as well.
   */
  function ByteRead(val: bv32, sign: bool, offset: int): bv32
  {
    var v := ShrBytes(val, offset % 4);
    if sign && v & 0x80 != 0 then v | 0xffffff00 else v & 0xff
  }

  /**
   * vgic_byte_write, returning the new value of *reg: lane (offset & 3) of
   * reg is replaced by the same lane of var.  var is masked, not shifted.
   */
  function ByteWrite(reg: bv32, v: bv32, offset: int): bv32
  {
    Merge(reg, v, ShlBytes(0xff, offset % 4))
  }

  /** The bits of reg outside mask, combined with the bits of v inside it. */
  function Merge(reg: bv32, v: bv32, mask: bv32): bv32
  {
    (reg & !mask) | (v & mask)
  }

  /** An unsigned byte read returns exactly the addressed lane. */
  lemma ByteReadUnsigned(val: bv32, offset: int)
    ensures ByteRead(val, false, offset) <= 0xff
    ensures ByteRead(val, false, offset) == Lane(val, offset % 4)
  {
  }

  /** A signed byte read sign-extends the addressed lane. */
  lemma ByteReadSigned(val: bv32, offset: int)
    ensures Lane(val, offset % 4) & 0x80 != 0 ==>
              ByteRead(val, true, offset) == 0xffffff00 | Lane(val, offset % 4)
    ensures Lane(val, offset % 4) & 0x80 == 0 ==>
              ByteRead(val, true, offset) == Lane(val, offset % 4)
  {
  }

  /** Both helpers see the offset only modulo 4. */
  lemma ByteHelpersOffsetMod4(val: bv32, reg: bv32, sign: bool, o1: int, o2: int)
    requires o1 % 4 == o2 % 4
    ensures ByteRead(val, sign, o1) == ByteRead(val, sign, o2)
    ensures ByteWrite(reg, val, o1) == ByteWrite(reg, val, o2)
  {
  }

  /** Lane-wise meaning of vgic_byte_write. */
  lemma {:induction false} ByteWriteLanes(reg: bv32, v: bv32, offset: int, j: nat)
    requires j < 4
    ensures Lane(ByteWrite(reg, v, offset), j) ==
              if j == offset % 4 then Lane(v, j) else Lane(reg, j)
  {
    var k := offset % 4;
    if k == 0 {
      assert ByteWrite(reg, v, offset) == Merge(reg, v, 0xff);
      LaneOfMerge0(reg, v, j);
    } else if k == 1 {
      assert ByteWrite(reg, v, offset) == Merge(reg, v, 0xff00);
      LaneOfMerge1(reg, v, j);
    } else if k == 2 {
      assert ByteWrite(reg, v, offset) == Merge(reg, v, 0xff0000);
      LaneOfMerge2(reg, v, j);
    } else {
      assert ByteWrite(reg, v, offset) == Merge(reg, v, 0xff000000);
      LaneOfMerge3(reg, v, j);
    }
  }

  lemma LaneOfMerge0(reg: bv32, v: bv32, j: nat)
    requires j < 4
    ensures Lane(Merge(reg, v, 0xff), j) == if j == 0 then Lane(v, j) else Lane(reg, j)
  {
  }

  lemma LaneOfMerge1(reg: bv32, v: bv32, j: nat)
    requires j < 4
    ensures Lane(Merge(reg, v, 0xff00), j) == if j == 1 then Lane(v, j) else Lane(reg, j)
  {
  }

  lemma LaneOfMerge2(reg: bv32, v: bv32, j: nat)
    requires j < 4
    ensures Lane(Merge(reg, v, 0xff0000), j) == if j == 2 then Lane(v, j) else Lane(reg, j)
  {
  }

  lemma LaneOfMerge3(reg: bv32, v: bv32, j: nat)
    requires j < 4
    ensures Lane(Merge(reg, v, 0xff000000), j) == if j == 3 then Lane(v, j) else Lane(reg, j)
  {
  }

  /** Writing the same lane twice is writing it once. */
  lemma ByteWriteIdempotent(reg: bv32, v: bv32, offset: int)
    ensures ByteWrite(ByteWrite(reg, v, offset), v, offset) == ByteWrite(reg, v, offset)
  {
  }

  /** An unsigned read of the written lane sees the same lane of var. */
  lemma ByteWriteThenRead(reg: bv32, v: bv32, offset: int)
    ensures ByteRead(ByteWrite(reg, v, offset), false, offset) == ByteRead(v, false, offset)
  {
    ByteReadUnsigned(ByteWrite(reg, v, offset), offset);
    ByteReadUnsigned(v, offset);
    ByteWriteLanes(reg, v, offset, offset % 4);
  }

  /**
   * The byte store the MMIO handlers need: the low byte of var, which is
   * where a trapped byte store delivers the guest's value, goes into lane
   * (offset & 3) of reg.
   */
  function ByteWriteShifted(reg: bv32, v: bv32, offset: int): bv32
  {
    Merge(reg, ShlBytes(v & 0xff, offset % 4), ShlBytes(0xff, offset % 4))
  }

  /** Lane-wise meaning of the shifted byte store: the addressed lane gets byte 0 of v. */
  lemma {:induction false} ByteWriteShiftedLanes(reg: bv32, v: bv32, offset: int, j: nat)
    requires j < 4
    ensures Lane(ByteWriteShifted(reg, v, offset), j) ==
              if j == offset % 4 then v & 0xff else Lane(reg, j)
  {
    var k := offset % 4;
    if k == 0 {
      assert ByteWriteShifted(reg, v, offset) == Merge(reg, v & 0xff, 0xff);
      LaneOfMerge0(reg, v & 0xff, j);
    } else if k == 1 {
      assert ByteWriteShifted(reg, v, offset) == Merge(reg, (v & 0xff) << 8, 0xff00);
      LaneOfMerge1(reg, (v & 0xff) << 8, j);
    } else if k == 2 {
      assert ByteWriteShifted(reg, v, offset) == Merge(reg, (v & 0xff) << 16, 0xff0000);
      LaneOfMerge2(reg, (v & 0xff) << 16, j);
    } else {
      assert ByteWriteShifted(reg, v, offset) == Merge(reg, (v & 0xff) << 24, 0xff000000);
      LaneOfMerge3(reg, (v & 0xff) << 24, j);
    }
  }

  /** A byte stored at offset reads back, unsigned, at the same offset. */
  lemma ByteWriteShiftedThenRead(reg: bv32, v: bv32, offset: int)
    ensures ByteRead(ByteWriteShifted(reg, v, offset), false, offset) == v & 0xff
  {
    ByteReadUnsigned(ByteWriteShifted(reg, v, offset), offset);
    ByteWriteShiftedLanes(reg, v, offset, offset % 4);
  }

  /**
   * vgic_byte_write as written loses a byte stored at a lane other than 0:
   * storing 0xA0 at offset 1 of a zero register leaves it zero.
   */
  lemma ByteWriteLosesStore()
    ensures ByteRead(ByteWrite(0, 0xA0, 1), false, 1) == 0
    ensures ByteRead(ByteWriteShifted(0, 0xA0, 1), false, 1) == 0xA0
  {
  }

  /**
   * REG_RANK_NR(b, n): the rank holding register offset n of a register
   * with b bits per interrupt.  Any b other than 1, 2, 4, 8 reaches BUG(),
   * modelled as None.
   */
  function RegRankNr(b: int, n: bv32): Option<bv32>
  {
    match b
    case 8 => Some(n >> 3)
    case 4 => Some(n >> 2)
    case 2 => Some(n >> 1)
    case 1 => Some(n)
    case _ => None
  }

  /** REG_RANK_NR is n >> log2(b), that is the unsigned quotient n / b. */
  lemma {:induction false} RegRankNrIsQuotient(b: int, n: bv32)
    ensures RegRankNr(b, n).Some? <==> b in {1, 2, 4, 8}
    ensures b == 8 ==> RegRankNr(b, n) == Some(n / 8)
    ensures b == 4 ==> RegRankNr(b, n) == Some(n / 4)
    ensures b == 2 ==> RegRankNr(b, n) == Some(n / 2)
    ensures b == 1 ==> RegRankNr(b, n) == Some(n)
  {
    if b == 8 {
      assert n >> 3 == n / 8;
    } else if b == 4 {
      assert n >> 2 == n / 4;
    } else if b == 2 {
      assert n >> 1 == n / 2;
    }
  }

  /**
   * REG_RANK_INDEX(b, n, s) = (n >> s) & (b - 1): index within a rank of
   * the register at byte offset n with 2^s-byte registers.  The header
   * shows only the two-argument form with s fixed at 2; the callers use
   * this three-argument form.
   */
  function RegRankIndex(b: bv32, n: bv32, s: nat): bv32
    requires s <= DABT_DOUBLE_WORD
  {
    ShrAccess(n, s) & (b - 1)
  }

  /** n >> s for an access-size shift s (DABT_BYTE .. DABT_DOUBLE_WORD). */
  function ShrAccess(n: bv32, s: nat): bv32
    requires s <= DABT_DOUBLE_WORD
  {
    match s
    case 0 => n
    case 1 => n >> 1
    case 2 => n >> 2
    case 3 => n >> 3
  }

  predicate IsRankSize(b: bv32)
  {
    b == 1 || b == 2 || b == 4 || b == 8 || b == 16 || b == 32 || b == 64
  }

  /** For a power-of-two b the index keeps only the low bits of n >> s, so it is below b. */
  lemma {:induction false} RegRankIndexBound(b: bv32, n: bv32, s: nat)
    requires IsRankSize(b) && s <= DABT_DOUBLE_WORD
    ensures RegRankIndex(b, n, s) < b
    ensures RegRankIndex(b, n, s) <= ShrAccess(n, s)
  {
    var q := ShrAccess(n, s);
    assert q & (b - 1) <= b - 1;
  }

  /** REG_RANK_INDEX used as an index into a rank array of b words: it is in bounds. */
  function RankIndex(b: bv32, n: bv32, s: nat): (i: bv32)
    requires IsRankSize(b) && s <= DABT_DOUBLE_WORD
    ensures i < b
  {
    RegRankIndexBound(b, n, s);
    RegRankIndex(b, n, s)
  }

  /** Fixed-length register arrays of a rank. */
  type Words2 = s: seq<bv32> | |s| == 2 witness [0, 0]
  type Words8 = s: seq<bv32> | |s| == 8 witness [0, 0, 0, 0, 0, 0, 0, 0]
  type Dwords32 = s: seq<bv64> | |s| == 32
    witness [0, 0, 0, 0, 0, 0, 0, 0, 0, 0, 0, 0, 0, 0, 0, 0,
             0, 0, 0, 0, 0, 0, 0, 0, 0, 0, 0, 0, 0, 0, 0, 0]

  /**
   * struct vgic_irq_rank: state of one block of 32 interrupts.  itargets is
   * the GICv2 view and irouter the GICv3 view of the routing state.
   */
  datatype Rank = Rank(
    ienable: bv32,
    iactive: bv32,
    ipend: bv32,
    pendsgi: bv32,
    icfg: Words2,
    ipriority: Words8,
    itargets: Words8,
    irouter: Dwords32)

  /**
   * vgic_rank_offset(v, b, n, s) is not part of this model: it is given as a
   * function from (b, n, s) to a rank identifier, None standing for NULL.
   * An identifier missing from the rank table is treated as NULL too.
   */
  type RankOffset = (int, int, int) -> Option<int>

  function LookupRank(ranks: map<int, Rank>, rankOf: RankOffset, b: int, n: int, s: int): Option<int>
  {
    match rankOf(b, n, s)
    case Some(id) => if id in ranks then Some(id) else None
    case None => None
  }

  /** Lower 32 bits of a 64-bit general-purpose register value. */
  function Lo32(r: bv64): bv32
  {
    (r & 0xffff_ffff) as bv32
  }

  /** Zero-extension of a 32-bit value into a 64-bit register. */
  function Zx(w: bv32): bv64
  {
    w as bv64
  }

  lemma Lo32Zx(w: bv32)
    ensures Lo32(Zx(w)) == w
  {
  }

  /** Deferred actions a register write hands to code outside this model. */
  datatype Effect =
    | NoEffect
    | EnableIrqs(mask: bv32, n: int)     // vgic_enable_irqs(v, mask, n)
    | DisableIrqs(mask: bv32, n: int)    // vgic_disable_irqs(v, mask, n)
    | SendSgi(sgir: bv64)                // vgic_send_sgi(v, sgir): its result is the handler's

  /** The trapped access: the DABT_* size and whether a load sign-extends. */
  datatype Dabt = Dabt(size: nat, sign: bool)

  predicate ByteOrWord(dabt: Dabt)
  {
    dabt.size == DABT_BYTE || dabt.size == DABT_WORD
  }

  /**
   * Outcome of an emulated read: *r and return 1, return 1 leaving *r as it
   * was, return 0, a domain crash, or an index past the end of a rank
   * array, whose effect C leaves undefined.
   */
  datatype ReadResult = ReadDone(r: bv64) | ReadKept | ReadUnhandled | ReadCrash | ReadOutOfBounds

  /** Outcome of an emulated write, carrying the new state on success. */
  datatype WriteResult<S> = WriteDone(state: S, effect: Effect) | WriteUnhandled | WriteCrash | WriteOutOfBounds
}
