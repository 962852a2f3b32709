/*
 * The list-register (LR) engine of xen/arch/arm/gic.c: a per-CPU occupancy
 * set lr_mask, the hardware LR bank, the pending_irq records of one vCPU,
 * and its two lists inflight_irqs and lr_pending.
 *
 * The engine is specified by pure transition functions over VState; the
 * class VcpuGic below holds the same state in fields and an LR array and
 * its methods are proved to perform those transitions.
 */
module Gic {
  import opened VgicRank
  import opened GicQueue

  /* LR state field values (GICH_LR_PENDING, GICH_LR_ACTIVE) */
  const GICH_LR_PENDING: bv8 := 1
  const GICH_LR_ACTIVE: bv8 := 2
  /* ~(uint8_t)0: the lr field of a record that is in no LR */
  const GIC_INVALID_LR: int := 255

  /** struct gic_lr: the decoded fields of one list register. */
  datatype GicLr = GicLr(pirq: int, virq: int, priority: int, state: bv8, hwStatus: bool, grp: bool)

  /** The value gic_hw_ops->clear_lr leaves in a list register. */
  const ClearedLr := GicLr(0, 0, 0, 0, false, false)

  /** What gic_hw_ops->update_lr(lr, p, state) installs for record x. */
  function LrFor(x: int, p: PendingIrq, state: bv8): GicLr
  {
    GicLr(if p.desc.Some? then p.desc.value else 0, x, p.priority as int, state, p.desc.Some?, false)
  }

  /** An LR whose interrupt is still pending or active in the guest. */
  predicate LiveLr(l: GicLr)
  {
    l.state & (GICH_LR_PENDING | GICH_LR_ACTIVE) != 0
  }

  /** Everything the engine reads and writes for one vCPU while it runs. */
  datatype VState = VState(
    lrMask: set<int>,              // this_cpu(lr_mask)
    lrs: seq<GicLr>,               // the hardware LR bank
    irqs: map<int, PendingIrq>,    // irq_to_pending(v, irq)
    inflight: seq<int>,            // v->arch.vgic.inflight_irqs
    lrPending: seq<int>,           // v->arch.vgic.lr_pending
    inProgress: set<int>)          // the physical IRQs whose irq_desc has IRQ_INPROGRESS

  /**
   * The engine invariant: occupied slots and VISIBLE records correspond one
   * to one through p->lr and the LR's virq; ACTIVE implies VISIBLE;
   * lr_pending holds distinct, not visible records sorted by priority.
   * lr_all_full compares the mask with the int (1 << nr_lrs) - 1, which C
   * defines only while nr_lrs is at most 30; the engine is modelled there.
   */
  predicate Valid(s: VState, n: nat)
  {
    1 <= n <= 30 && |s.lrs| == n
    && (forall i :: i in s.lrMask ==> 0 <= i < n)
    && (forall i :: i in s.lrMask ==>
          s.lrs[i].virq in s.irqs && s.irqs[s.lrs[i].virq].visible && s.irqs[s.lrs[i].virq].lr == i)
    && (forall x :: x in s.irqs && s.irqs[x].visible ==>
          s.irqs[x].lr in s.lrMask && s.lrs[s.irqs[x].lr].virq == x)
    && (forall x :: x in s.irqs && s.irqs[x].active ==> s.irqs[x].visible)
    && AllIn(s.inflight, s.irqs)
    && AllIn(s.lrPending, s.irqs) && Distinct(s.lrPending) && Sorted(s.lrPending, s.irqs)
    && (forall k :: 0 <= k < |s.lrPending| ==> !s.irqs[s.lrPending[k]].visible)
  }

  /** find_next_zero_bit(mask, n, from): the first free slot at or after from, or n. */
  function FirstFree(mask: set<int>, n: nat, from: nat): (r: nat)
    decreases n - from
    ensures from <= n ==> from <= r <= n
    ensures r < n ==> r !in mask
    ensures forall j :: from <= j < r ==> j in mask
  {
    if from >= n then n
    else if from !in mask then from
    else FirstFree(mask, n, from + 1)
  }

  /** find_next_bit(mask, n, from): the first occupied slot at or after from, or n. */
  function FirstSet(mask: set<int>, n: nat, from: nat): (r: nat)
    decreases n - from
    ensures from <= n ==> from <= r <= n
    ensures r < n ==> r in mask
    ensures forall j :: from <= j < r ==> j !in mask
  {
    if from >= n then n
    else if from in mask then from
    else FirstSet(mask, n, from + 1)
  }

  /** lr_all_full(): every one of the n slots is occupied. */
  predicate LrAllFull(mask: set<int>, n: nat)
  {
    forall i :: 0 <= i < n ==> i in mask
  }

  /** The mask is full exactly when the search for a free slot fails. */
  lemma LrAllFullIffNoFreeSlot(mask: set<int>, n: nat)
    ensures LrAllFull(mask, n) <==> FirstFree(mask, n, 0) == n
  {
    if !LrAllFull(mask, n) {
      var i :| 0 <= i < n && i !in mask;
      assert FirstFree(mask, n, 0) <= i;
    }
  }

  /** gic_set_lr: program slot i for record x; x becomes VISIBLE, not QUEUED, with lr = i. */
  function SetLr(s: VState, i: int, x: int, state: bv8): VState
    requires 0 <= i < |s.lrs| && x in s.irqs
  {
    s.(lrs := s.lrs[i := LrFor(x, s.irqs[x], state)],
       irqs := s.irqs[x := s.irqs[x].(visible := true, queued := false, lr := i)])
  }

  /** gic_add_to_lr_pending: nothing if x is already queued, else insertion by priority. */
  function AddToLrPending(q: seq<int>, x: int, irqs: map<int, PendingIrq>): seq<int>
    requires AllIn(q, irqs) && x in irqs
  {
    if x in q then q else InsertByPriority(q, x, irqs)
  }

  /**
   * gic_raise_guest_irq: when v is current and lr_pending is empty, take
   * the lowest free slot if there is one; otherwise queue on lr_pending.
   */
  function Raise(s: VState, n: nat, x: int, isCurrent: bool): VState
    requires Valid(s, n) && x in s.irqs
  {
    var i := FirstFree(s.lrMask, n, 0);
    if isCurrent && s.lrPending == [] && i < n then
      SetLr(s.(lrMask := s.lrMask + {i}), i, x, GICH_LR_PENDING)
    else
      s.(lrPending := AddToLrPending(s.lrPending, x, s.irqs))
  }

  /**
   * gic_update_one_lr: reconcile slot i with the record it names.
   * ACTIVE: mark the record active and, if it was enabled and queued,
   * consume the queued instance, re-pending a purely virtual LR.
   * PENDING: consume the queued instance.  Neither: free the slot, clear
   * IRQ_INPROGRESS on a hardware interrupt's descriptor, reset the record
   * and re-raise it if enabled and queued, else drop it from inflight.
   * v is always the current vCPU here.
   */
  function UpdateOneLr(s: VState, n: nat, i: int): VState
    requires Valid(s, n) && i in s.lrMask
  {
    var lv := s.lrs[i];
    var x := lv.virq;
    var p := s.irqs[x];
    if lv.state & GICH_LR_ACTIVE != 0 then
      var s1 := s.(irqs := s.irqs[x := p.(active := true, queued := p.queued && !p.enabled)]);
      if p.enabled && p.queued && p.desc.None? then
        s1.(lrs := s1.lrs[i := lv.(state := lv.state | GICH_LR_PENDING)])
      else s1
    else if lv.state & GICH_LR_PENDING != 0 then
      s.(irqs := s.irqs[x := p.(queued := false)])
    else
      var s1 := s.(lrs := s.lrs[i := ClearedLr], lrMask := s.lrMask - {i},
                   irqs := s.irqs[x := p.(visible := false, active := false, lr := GIC_INVALID_LR)],
                   inProgress := if p.desc.Some? then s.inProgress - {p.desc.value} else s.inProgress);
      assert Valid(s1, n) by { ClearSlotValid(s, n, i, s1.inProgress); }
      if p.enabled && p.queued then Raise(s1, n, x, true)
      else s1.(inflight := Remove(s1.inflight, x))
  }

  lemma ClearSlotValid(s: VState, n: nat, i: int, busy: set<int>)
    requires Valid(s, n) && i in s.lrMask
    ensures var x := s.lrs[i].virq;
            Valid(s.(lrs := s.lrs[i := ClearedLr], lrMask := s.lrMask - {i},
                     irqs := s.irqs[x := s.irqs[x].(visible := false, active := false, lr := GIC_INVALID_LR)],
                     inProgress := busy), n)
  {
  }

  /** Queuing on lr_pending keeps the list invariant. */
  lemma AddToLrPendingValid(s: VState, n: nat, x: int)
    requires Valid(s, n) && x in s.irqs && !s.irqs[x].visible
    ensures Valid(s.(lrPending := AddToLrPending(s.lrPending, x, s.irqs)), n)
  {
    if x !in s.lrPending {
      InsertKeepsSorted(s.lrPending, x, s.irqs);
      InsertKeepsDistinct(s.lrPending, x, s.irqs);
      var q := InsertByPriority(s.lrPending, x, s.irqs);
      forall k | 0 <= k < |q|
        ensures !s.irqs[q[k]].visible
      {
        assert q[k] in q;
        if q[k] != x {
          var m :| 0 <= m < |s.lrPending| && s.lrPending[m] == q[k];
        }
      }
    }
  }

  /** Installing a record that is not visible into a free slot keeps the invariant. */
  lemma InstallFreeValid(s: VState, n: nat, i: int, x: int)
    requires Valid(s, n) && 0 <= i < n && i !in s.lrMask
    requires x in s.irqs && !s.irqs[x].visible && x !in s.lrPending
    ensures Valid(SetLr(s.(lrMask := s.lrMask + {i}), i, x, GICH_LR_PENDING), n)
  {
    var r := SetLr(s.(lrMask := s.lrMask + {i}), i, x, GICH_LR_PENDING);
    forall k | 0 <= k < |r.lrPending|
      ensures !r.irqs[r.lrPending[k]].visible
    {
      assert s.lrPending[k] != x;
    }
  }

  /** gic_raise_guest_irq keeps the invariant for a record that is not visible. */
  lemma RaiseValid(s: VState, n: nat, x: int, isCurrent: bool)
    requires Valid(s, n) && x in s.irqs && !s.irqs[x].visible
    ensures Valid(Raise(s, n, x, isCurrent), n)
  {
    var i := FirstFree(s.lrMask, n, 0);
    if isCurrent && s.lrPending == [] && i < n {
      InstallFreeValid(s, n, i, x);
    } else {
      AddToLrPendingValid(s, n, x);
    }
  }

  /** gic_update_one_lr keeps the invariant. */
  lemma UpdateOneLrValid(s: VState, n: nat, i: int)
    requires Valid(s, n) && i in s.lrMask
    ensures Valid(UpdateOneLr(s, n, i), n)
  {
    var lv := s.lrs[i];
    if lv.state & GICH_LR_ACTIVE != 0 {
      ActiveLrValid(s, n, i);
    } else if lv.state & GICH_LR_PENDING == 0 {
      RetiredLrValid(s, n, i);
    }
  }

  lemma ActiveLrValid(s: VState, n: nat, i: int)
    requires Valid(s, n) && i in s.lrMask && s.lrs[i].state & GICH_LR_ACTIVE != 0
    ensures Valid(UpdateOneLr(s, n, i), n)
  {
    var x := s.lrs[i].virq;
    var p := s.irqs[x];
    var s1 := s.(irqs := s.irqs[x := p.(active := true, queued := p.queued && !p.enabled)]);
    assert Valid(s1, n);
  }

  lemma RetiredLrValid(s: VState, n: nat, i: int)
    requires Valid(s, n) && i in s.lrMask
    requires s.lrs[i].state & GICH_LR_ACTIVE == 0 && s.lrs[i].state & GICH_LR_PENDING == 0
    ensures Valid(UpdateOneLr(s, n, i), n)
  {
    var x := s.lrs[i].virq;
    var p := s.irqs[x];
    var s1 := s.(lrs := s.lrs[i := ClearedLr], lrMask := s.lrMask - {i},
                 irqs := s.irqs[x := p.(visible := false, active := false, lr := GIC_INVALID_LR)],
                 inProgress := if p.desc.Some? then s.inProgress - {p.desc.value} else s.inProgress);
    ClearSlotValid(s, n, i, s1.inProgress);
    if p.enabled && p.queued {
      RaiseValid(s1, n, x, true);
    } else {
      RemoveAllIn(s1.inflight, x, s1.irqs);
    }
  }

  lemma RemoveAllIn(q: seq<int>, x: int, irqs: map<int, PendingIrq>)
    requires AllIn(q, irqs)
    ensures AllIn(Remove(q, x), irqs)
  {
    var r := Remove(q, x);
    forall k | 0 <= k < |r|
      ensures r[k] in irqs
    {
      assert r[k] in r;
      var m :| 0 <= m < |q| && q[m] == r[k];
    }
  }

  /**
   * An LR found ACTIVE: its record becomes ACTIVE and stays VISIBLE in the
   * same slot, an enabled record is no longer QUEUED, and PENDING is added
   * to the LR exactly for an enabled, queued, purely virtual interrupt.
   * No other slot or record changes.
   */
  lemma UpdateOneLrActive(s: VState, n: nat, i: int)
    requires Valid(s, n) && i in s.lrMask && s.lrs[i].state & GICH_LR_ACTIVE != 0
    ensures var r := UpdateOneLr(s, n, i); var x := s.lrs[i].virq; var p := s.irqs[x];
      && r.irqs[x].active && r.irqs[x].visible && r.irqs[x].lr == i
      && (p.enabled ==> !r.irqs[x].queued)
      && r.lrs[i].virq == x && r.lrs[i].state & GICH_LR_ACTIVE != 0
      && (r.lrs[i] != s.lrs[i] <==> p.enabled && p.queued && p.desc.None? && s.lrs[i].state & GICH_LR_PENDING == 0)
      && (r.lrs[i].state & GICH_LR_PENDING != 0 ==>
            s.lrs[i].state & GICH_LR_PENDING != 0 || (p.enabled && p.queued && p.desc.None?))
      && r.lrMask == s.lrMask && r.inflight == s.inflight && r.lrPending == s.lrPending
      && (forall y :: y in s.irqs && y != x ==> y in r.irqs && r.irqs[y] == s.irqs[y])
      && (forall j :: 0 <= j < n && j != i ==> r.lrs[j] == s.lrs[j])
  {
    var lv := s.lrs[i];
    if lv.state & GICH_LR_PENDING == 0 {
      assert (lv.state | GICH_LR_PENDING) != lv.state;
    }
    assert (lv.state | GICH_LR_PENDING) & GICH_LR_ACTIVE != 0;
  }

  /**
   * An LR that is neither pending nor active is retired: the record loses
   * VISIBLE and ACTIVE.  If it was enabled and queued it is raised again,
   * ending up in an LR or on lr_pending; otherwise it leaves inflight with
   * lr = GIC_INVALID_LR and slot i becomes free.
   */
  lemma UpdateOneLrRetire(s: VState, n: nat, i: int)
    requires Valid(s, n) && i in s.lrMask
    requires s.lrs[i].state & (GICH_LR_ACTIVE | GICH_LR_PENDING) == 0
    ensures var r := UpdateOneLr(s, n, i); var x := s.lrs[i].virq; var p := s.irqs[x];
      && x in r.irqs && !r.irqs[x].active
      && (p.enabled && p.queued ==>
            (r.irqs[x].visible && r.lrs[r.irqs[x].lr] == LrFor(x, r.irqs[x], GICH_LR_PENDING))
            || (x in r.lrPending && r.irqs[x].lr == GIC_INVALID_LR && !r.irqs[x].visible))
      && (!(p.enabled && p.queued) ==>
            i !in r.lrMask && x !in r.inflight && !r.irqs[x].visible && r.irqs[x].lr == GIC_INVALID_LR)
      && (forall y :: y in s.irqs && y != x ==> y in r.irqs && r.irqs[y] == s.irqs[y])
      && r.inProgress == (if p.desc.Some? then s.inProgress - {p.desc.value} else s.inProgress)
  {
    var lv := s.lrs[i];
    assert lv.state & GICH_LR_ACTIVE == 0 && lv.state & GICH_LR_PENDING == 0;
    var x := lv.virq;
    var p := s.irqs[x];
    var s1 := s.(lrs := s.lrs[i := ClearedLr], lrMask := s.lrMask - {i},
                 irqs := s.irqs[x := p.(visible := false, active := false, lr := GIC_INVALID_LR)],
                 inProgress := if p.desc.Some? then s.inProgress - {p.desc.value} else s.inProgress);
    ClearSlotValid(s, n, i, s1.inProgress);
    if p.enabled && p.queued {
      var f := FirstFree(s1.lrMask, n, 0);
      if !(s1.lrPending == [] && f < n) {
        assert x in AddToLrPending(s1.lrPending, x, s1.irqs);
      }
    }
  }

  /**
   * After gic_update_one_lr(i), every occupied slot either is an untouched
   * slot other than i or holds a live (pending or active) interrupt.
   */
  lemma UpdateOneLrSlots(s: VState, n: nat, i: int)
    requires Valid(s, n) && i in s.lrMask
    ensures var r := UpdateOneLr(s, n, i);
      forall j :: j in r.lrMask ==>
        (j != i && j in s.lrMask && r.lrs[j] == s.lrs[j]) || LiveLr(r.lrs[j])
  {
    var lv := s.lrs[i];
    if lv.state & GICH_LR_ACTIVE != 0 {
      assert (lv.state | GICH_LR_PENDING) & GICH_LR_ACTIVE != 0;
    } else if lv.state & GICH_LR_PENDING != 0 {
    } else {
      var p := s.irqs[lv.virq];
      ClearSlotValid(s, n, i, if p.desc.Some? then s.inProgress - {p.desc.value} else s.inProgress);
    }
  }

  /**
   * gic_clear_lrs from slot `from` on: gic_update_one_lr on every occupied
   * slot in increasing order, the search resuming after the slot just done.
   */
  function ClearLrsFrom(s: VState, n: nat, from: nat): (r: VState)
    requires Valid(s, n)
    ensures Valid(r, n)
    decreases n - from
  {
    var i := FirstSet(s.lrMask, n, from);
    if i >= n then s
    else
      UpdateOneLrValid(s, n, i);
      ClearLrsFrom(UpdateOneLr(s, n, i), n, i + 1)
  }

  /** gic_clear_lrs: nothing for the idle vCPU, else the sweep from slot 0. */
  function ClearLrs(s: VState, n: nat, isIdle: bool): VState
    requires Valid(s, n)
  {
    if isIdle then s else ClearLrsFrom(s, n, 0)
  }

  /**
   * After gic_clear_lrs every occupied LR holds an interrupt that is still
   * pending or active: retired LRs have been freed or refilled.
   */
  lemma {:induction false} ClearLrsLeavesLiveSlots(s: VState, n: nat, from: nat)
    requires Valid(s, n)
    requires forall j :: j in s.lrMask && j < from ==> LiveLr(s.lrs[j])
    ensures forall j :: j in ClearLrsFrom(s, n, from).lrMask ==> LiveLr(ClearLrsFrom(s, n, from).lrs[j])
    decreases n - from
  {
    var i := FirstSet(s.lrMask, n, from);
    if i < n {
      UpdateOneLrValid(s, n, i);
      LiveThroughSlot(s, n, from, i);
      ClearLrsLeavesLiveSlots(UpdateOneLr(s, n, i), n, i + 1);
    } else {
      LiveWhenSwept(s, n, from);
    }
  }

  /** One step of ClearLrsLeavesLiveSlots: after updating slot i, the slots up to i hold live interrupts. */
  lemma LiveThroughSlot(s: VState, n: nat, from: nat, i: nat)
    requires Valid(s, n) && i == FirstSet(s.lrMask, n, from) && i < n
    requires forall j :: j in s.lrMask && j < from ==> LiveLr(s.lrs[j])
    ensures forall j :: j in UpdateOneLr(s, n, i).lrMask && j < i + 1 ==> LiveLr(UpdateOneLr(s, n, i).lrs[j])
  {
    UpdateOneLrSlots(s, n, i);
    var s2 := UpdateOneLr(s, n, i);
    forall j | j in s2.lrMask && j < i + 1
      ensures LiveLr(s2.lrs[j])
    {
      if j != i && j in s.lrMask && s2.lrs[j] == s.lrs[j] {
        assert j < from;
      }
    }
  }

  /** The last step: when no occupied slot is left at or after from, every occupied slot is live. */
  lemma LiveWhenSwept(s: VState, n: nat, from: nat)
    requires Valid(s, n) && FirstSet(s.lrMask, n, from) >= n
    requires forall j :: j in s.lrMask && j < from ==> LiveLr(s.lrs[j])
    ensures forall j :: j in s.lrMask ==> LiveLr(s.lrs[j])
  {
    forall j | j in s.lrMask
      ensures LiveLr(s.lrs[j])
    {
      assert j < n;
    }
  }

  /** A record an eviction may take the LR of: VISIBLE and not ACTIVE. */
  predicate Evictable(q: PendingIrq)
  {
    q.visible && !q.active
  }

  /**
   * The reverse walk of inflight_irqs for gic_restore_pending_irqs, from
   * index walk - 1 down to 0: give up (None) on an entry of the same
   * priority as the record being installed, take the first evictable entry.
   * The walk ends at the front of the list (see the README).
   */
  function FindVictim(s: VState, walk: nat, prio: bv8): (r: Option<nat>)
    requires AllIn(s.inflight, s.irqs) && walk <= |s.inflight|
    ensures r.Some? <==>
      exists k :: 0 <= k < walk && Evictable(s.irqs[s.inflight[k]]) && s.irqs[s.inflight[k]].priority != prio
        && (forall j :: k < j < walk ==>
              !Evictable(s.irqs[s.inflight[j]]) && s.irqs[s.inflight[j]].priority != prio)
    ensures r.Some? ==>
      r.value < walk && Evictable(s.irqs[s.inflight[r.value]]) && s.irqs[s.inflight[r.value]].priority != prio
        && (forall j :: r.value < j < walk ==>
              !Evictable(s.irqs[s.inflight[j]]) && s.irqs[s.inflight[j]].priority != prio)
  {
    if walk == 0 then None
    else
      var y := s.inflight[walk - 1];
      if s.irqs[y].priority == prio then
        None
      else if Evictable(s.irqs[y]) then
        Some(walk - 1)
      else
        FindVictim(s, walk - 1, prio)
  }

  /** Take back the LR of victim y: lr invalid, QUEUED, not VISIBLE, and onto lr_pending. */
  function Evict(s: VState, y: int): VState
    requires y in s.irqs && AllIn(s.lrPending, s.irqs)
  {
    var irqs := s.irqs[y := s.irqs[y].(lr := GIC_INVALID_LR, queued := true, visible := false)];
    s.(irqs := irqs, lrPending := AddToLrPending(s.lrPending, y, irqs))
  }

  /** gic_set_lr(lr, p, PENDING), then list_del_init(&p->lr_queue) and set_bit(lr). */
  function Install(s: VState, lr: int, p: int): VState
    requires 0 <= lr < |s.lrs| && p in s.irqs
  {
    var s1 := SetLr(s, lr, p, GICH_LR_PENDING);
    s1.(lrPending := Remove(s1.lrPending, p), lrMask := s1.lrMask + {lr})
  }

  lemma RemoveQueueValid(s: VState, n: nat, p: int)
    requires Valid(s, n)
    ensures Valid(s.(lrPending := Remove(s.lrPending, p)), n)
  {
    RemoveKeepsSorted(s.lrPending, p, s.irqs);
    RemoveKeepsDistinct(s.lrPending, p);
    var q := Remove(s.lrPending, p);
    forall k | 0 <= k < |q|
      ensures !s.irqs[q[k]].visible
    {
      assert q[k] in q;
      var m :| 0 <= m < |s.lrPending| && s.lrPending[m] == q[k];
    }
  }

  /** Installing a queued record into a free slot keeps the invariant. */
  lemma InstallFreeSlotValid(s: VState, n: nat, lr: int, p: int)
    requires Valid(s, n) && 0 <= lr < n && lr !in s.lrMask && p in s.lrPending
    ensures Valid(Install(s, lr, p), n)
  {
    var s0 := s.(lrPending := Remove(s.lrPending, p));
    RemoveQueueValid(s, n, p);
    assert p in s.irqs && !s.irqs[p].visible;
    InstallFreeValid(s0, n, lr, p);
    assert Install(s, lr, p) == SetLr(s0.(lrMask := s0.lrMask + {lr}), lr, p, GICH_LR_PENDING);
  }

  /** Sortedness depends only on the priorities of the records. */
  lemma SortedSamePriorities(q: seq<int>, a: map<int, PendingIrq>, b: map<int, PendingIrq>)
    requires AllIn(q, a) && Sorted(q, a)
    requires forall k :: 0 <= k < |q| ==> q[k] in b && b[q[k]].priority == a[q[k]].priority
    ensures AllIn(q, b) && Sorted(q, b)
  {
  }

  /** The lr_pending part of the invariant after an eviction followed by an installation. */
  lemma EvictInstallQueue(s: VState, n: nat, y: int, p: int)
    requires Valid(s, n) && y in s.irqs && Evictable(s.irqs[y]) && p in s.lrPending
    ensures var r := Install(Evict(s, y), s.irqs[y].lr, p);
      AllIn(r.lrPending, r.irqs) && Distinct(r.lrPending) && Sorted(r.lrPending, r.irqs)
      && (forall k :: 0 <= k < |r.lrPending| ==> !r.irqs[r.lrPending[k]].visible)
  {
    var irqs := s.irqs[y := s.irqs[y].(lr := GIC_INVALID_LR, queued := true, visible := false)];
    assert p != y;
    SortedSamePriorities(s.lrPending, s.irqs, irqs);
    var q1 := AddToLrPending(s.lrPending, y, irqs);
    if y !in s.lrPending {
      InsertKeepsSorted(s.lrPending, y, irqs);
      InsertKeepsDistinct(s.lrPending, y, irqs);
    }
    var r := Install(Evict(s, y), s.irqs[y].lr, p);
    SortedSamePriorities(q1, irqs, r.irqs);
    RemoveKeepsSorted(q1, p, r.irqs);
    RemoveKeepsDistinct(q1, p);
    var q2 := Remove(q1, p);
    forall k | 0 <= k < |q2|
      ensures !r.irqs[q2[k]].visible
    {
      assert q2[k] in q2;
      if q2[k] != y {
        assert q2[k] in s.lrPending;
        var m :| 0 <= m < |s.lrPending| && s.lrPending[m] == q2[k];
      }
    }
  }

  /** Evicting an evictable record and giving its slot to a queued record keeps the invariant. */
  lemma EvictInstallValid(s: VState, n: nat, y: int, p: int)
    requires Valid(s, n) && y in s.irqs && Evictable(s.irqs[y]) && p in s.lrPending
    ensures 0 <= s.irqs[y].lr < n
    ensures Valid(Install(Evict(s, y), s.irqs[y].lr, p), n)
  {
    var slot := s.irqs[y].lr;
    assert p != y;
    var r := Install(Evict(s, y), slot, p);
    EvictInstallQueue(s, n, y, p);
    assert r.lrMask == s.lrMask;
    forall i | i in r.lrMask
      ensures r.lrs[i].virq in r.irqs && r.irqs[r.lrs[i].virq].visible && r.irqs[r.lrs[i].virq].lr == i
    {
      if i != slot {
        assert r.lrs[i] == s.lrs[i];
      }
    }
  }

  /**
   * The loop of gic_restore_pending_irqs, resumed at record cur of
   * lr_pending with free-slot search position lr, remaining installation
   * budget `budget` and reverse-walk position walk.  Returns the final
   * state and the number of installations made.
   */
  function RestoreLoop(s: VState, n: nat, cur: Option<int>, lr: nat, budget: nat, walk: nat): (res: (VState, nat))
    requires Valid(s, n) && walk <= |s.inflight|
    requires cur.Some? ==> cur.value in s.lrPending
    ensures Valid(res.0, n)
    ensures res.1 <= budget
    ensures StepFacts(s, res.0)
    decreases budget
  {
    if cur.None? || budget == 0 then StepFactsRefl(s); (s, 0)
    else
      var p := cur.value;
      var t := Successor(s.lrPending, p);
      SuccessorIn(s.lrPending, p);
      SuccessorDiffers(s.lrPending, p);
      var free := FirstFree(s.lrMask, n, lr);
      if free < n then
        InstallFreeSlotValid(s, n, free, p);
        InstallFreeSlotFacts(s, n, free, p);
        var rest := RestoreLoop(Install(s, free, p), n, t, free, budget - 1, walk);
        StepFactsTransitive(s, Install(s, free, p), rest.0);
        (rest.0, rest.1 + 1)
      else
        match FindVictim(s, walk, s.irqs[p].priority)
        case None => StepFactsRefl(s); (s, 0)
        case Some(k) =>
          var y := s.inflight[k];
          EvictInstallValid(s, n, y, p);
          EvictInstallFacts(s, n, y, p);
          var slot := s.irqs[y].lr;
          var rest := RestoreLoop(Install(Evict(s, y), slot, p), n, t, slot, budget - 1, k);
          StepFactsTransitive(s, Install(Evict(s, y), slot, p), rest.0);
          (rest.0, rest.1 + 1)
  }

  /**
   * gic_restore_pending_irqs: nothing when lr_pending is empty; otherwise
   * the loop from the head of lr_pending with at most n installations.
   */
  function Restore(s: VState, n: nat): (r: VState)
    requires Valid(s, n)
    ensures Valid(r, n)
  {
    if s.lrPending == [] then s
    else RestoreLoop(s, n, Some(s.lrPending[0]), 0, n, |s.inflight|).0
  }

  /** gic_inject: restore, then arm UIE iff lr_pending is non-empty and every LR is taken. */
  function Inject(s: VState, n: nat): (VState, bool)
    requires Valid(s, n)
  {
    var r := Restore(s, n);
    (r, r.lrPending != [] && LrAllFull(r.lrMask, n))
  }

  /** The interrupts the engine still owes the guest: queued on lr_pending or in an LR. */
  function Live(s: VState): set<int>
  {
    (set x | x in s.lrPending) + (set x | x in s.irqs && s.irqs[x].visible)
  }

  /** How one step of the restore loop may change the records. */
  predicate StepFacts(s: VState, r: VState)
  {
    r.irqs.Keys == s.irqs.Keys && r.inflight == s.inflight
    && Live(r) == Live(s)
    && s.lrMask <= r.lrMask
    && (forall x :: x in s.irqs && s.irqs[x].active ==> r.irqs[x] == s.irqs[x])
    && (forall x :: x in s.irqs && r.irqs[x] != s.irqs[x] && !r.irqs[x].visible ==>
          r.irqs[x].queued && r.irqs[x].lr == GIC_INVALID_LR)
  }

  lemma StepFactsTransitive(s: VState, m: VState, r: VState)
    requires StepFacts(s, m) && StepFacts(m, r)
    ensures StepFacts(s, r)
  {
    forall x | x in s.irqs && r.irqs[x] != s.irqs[x] && !r.irqs[x].visible
      ensures r.irqs[x].queued && r.irqs[x].lr == GIC_INVALID_LR
    {
      if r.irqs[x] == m.irqs[x] {
        assert m.irqs[x] != s.irqs[x];
      }
    }
  }

  lemma InstallFreeSlotFacts(s: VState, n: nat, lr: int, p: int)
    requires Valid(s, n) && 0 <= lr < n && lr !in s.lrMask && p in s.lrPending
    ensures StepFacts(s, Install(s, lr, p))
  {
    var r := Install(s, lr, p);
    assert p in s.irqs && !s.irqs[p].visible;
    forall x | x in Live(s)
      ensures x in Live(r)
    {
      if x != p && x in s.lrPending {
        assert x in Remove(s.lrPending, p);
      }
    }
  }

  lemma EvictInstallFacts(s: VState, n: nat, y: int, p: int)
    requires Valid(s, n) && y in s.irqs && Evictable(s.irqs[y]) && p in s.lrPending
    ensures StepFacts(s, Install(Evict(s, y), s.irqs[y].lr, p))
  {
    var r := Install(Evict(s, y), s.irqs[y].lr, p);
    assert p != y && p in s.irqs && !s.irqs[p].visible;
    var e := Evict(s, y);
    assert y in e.lrPending;
    forall x | x in Live(s)
      ensures x in Live(r)
    {
      if x != p && x in s.lrPending {
        assert x in e.lrPending;
        assert x in Remove(e.lrPending, p);
      }
      if x == y {
        assert y in Remove(e.lrPending, p);
      }
    }
    forall x | x in Live(r)
      ensures x in Live(s)
    {
      if x in r.lrPending && x != y {
        assert x in e.lrPending;
      }
    }
  }

  lemma StepFactsRefl(s: VState)
    ensures StepFacts(s, s)
  {
  }

  /**
   * gic_restore_pending_irqs leaves an empty lr_pending alone, makes at most
   * n installations, keeps every owed interrupt owed, only fills slots,
   * never touches an ACTIVE record, and every record it took out of an LR
   * is QUEUED, has lr = GIC_INVALID_LR and is back on lr_pending.
   */
  lemma RestoreProperties(s: VState, n: nat)
    requires Valid(s, n)
    ensures s.lrPending == [] ==> Restore(s, n) == s
    ensures s.lrPending != [] ==> RestoreLoop(s, n, Some(s.lrPending[0]), 0, n, |s.inflight|).1 <= n
    ensures var r := Restore(s, n);
      && Live(r) == Live(s)
      && s.lrMask <= r.lrMask
      && r.irqs.Keys == s.irqs.Keys
      && (forall x :: x in s.irqs && s.irqs[x].active ==> r.irqs[x] == s.irqs[x])
      && (forall x :: x in s.irqs && s.irqs[x].visible && !r.irqs[x].visible ==>
            !s.irqs[x].active && r.irqs[x].queued && r.irqs[x].lr == GIC_INVALID_LR && x in r.lrPending)
  {
    var r := Restore(s, n);
    if s.lrPending == [] {
      StepFactsRefl(s);
    }
    forall x | x in s.irqs && s.irqs[x].visible && !r.irqs[x].visible
      ensures !s.irqs[x].active && r.irqs[x].queued && r.irqs[x].lr == GIC_INVALID_LR && x in r.lrPending
    {
      assert x in Live(s);
      assert x in Live(r);
    }
  }

  /**
   * gic_inject arms the maintenance interrupt UIE exactly when some record
   * is still waiting on lr_pending after the restore and no LR is free.
   */
  lemma InjectUie(s: VState, n: nat)
    requires Valid(s, n)
    ensures var (r, uie) := Inject(s, n);
      && r == Restore(s, n)
      && (uie <==> r.lrPending != [] && FirstFree(r.lrMask, n, 0) == n)
      && (!uie ==> r.lrPending == [] || exists i :: 0 <= i < n && i !in r.lrMask)
  {
    var r := Restore(s, n);
    LrAllFullIffNoFreeSlot(r.lrMask, n);
  }

  /* ---------------------------------------------------------------------- */
  /* gic_events_need_delivery                                                */

  /** Bit j of w. */
  predicate Bit(w: bv32, j: nat)
    requires j < 32
  {
    (w >> j) & 1 == 1
  }

  /** find_next_bit(&apr, 32, from): the lowest set bit at or after from, or 32. */
  function LowestSetBit(apr: bv32, from: nat): (r: nat)
    decreases 32 - from
    ensures from <= 32 ==> from <= r <= 32
    ensures r < 32 ==> Bit(apr, r)
    ensures forall j: nat :: from <= j < r && j < 32 ==> !Bit(apr, j)
  {
    if from >= 32 then 32
    else if Bit(apr, from) then from
    else LowestSetBit(apr, from + 1)
  }

  /**
   * The walk of inflight_irqs in gic_events_need_delivery: stop with 0 at
   * the first entry whose guest priority reaches the VMCR mask or the
   * active priority, stop with 1 at the first enabled entry before that.
   * toGuest stands for GIC_PRI_TO_GUEST.
   */
  function DeliveryWalk(q: seq<int>, irqs: map<int, PendingIrq>, toGuest: bv8 -> int, maskPri: int, activePri: int): bool
    requires AllIn(q, irqs)
  {
    if q == [] then false
    else
      var pri := toGuest(irqs[q[0]].priority);
      if pri >= maskPri || pri >= activePri then false
      else if irqs[q[0]].enabled then true
      else DeliveryWalk(q[1..], irqs, toGuest, maskPri, activePri)
  }

  /** Entries 0..k of q all lie strictly below both priority thresholds. */
  predicate BelowThresholds(q: seq<int>, irqs: map<int, PendingIrq>, toGuest: bv8 -> int, maskPri: int, activePri: int, k: int)
    requires AllIn(q, irqs) && k < |q|
  {
    forall j :: 0 <= j <= k ==> toGuest(irqs[q[j]].priority) < maskPri && toGuest(irqs[q[j]].priority) < activePri
  }

  /**
   * gic_events_need_delivery answers 1 exactly when some enabled entry of
   * inflight_irqs is preceded (itself included) only by entries below both
   * the VMCR priority mask and the active priority.
   */
  lemma {:induction false} DeliveryWalkIff(q: seq<int>, irqs: map<int, PendingIrq>, toGuest: bv8 -> int, maskPri: int, activePri: int)
    requires AllIn(q, irqs)
    ensures DeliveryWalk(q, irqs, toGuest, maskPri, activePri) <==>
      exists k :: 0 <= k < |q| && irqs[q[k]].enabled && BelowThresholds(q, irqs, toGuest, maskPri, activePri, k)
  {
    if q != [] {
      var pri := toGuest(irqs[q[0]].priority);
      var t := q[1..];
      DeliveryWalkIff(t, irqs, toGuest, maskPri, activePri);
      if pri >= maskPri || pri >= activePri {
        forall k | 0 <= k < |q| && irqs[q[k]].enabled
          ensures !BelowThresholds(q, irqs, toGuest, maskPri, activePri, k)
        {
          assert q[0] == q[0];
        }
      } else if irqs[q[0]].enabled {
        assert BelowThresholds(q, irqs, toGuest, maskPri, activePri, 0);
      } else {
        if DeliveryWalk(t, irqs, toGuest, maskPri, activePri) {
          var k :| 0 <= k < |t| && irqs[t[k]].enabled && BelowThresholds(t, irqs, toGuest, maskPri, activePri, k);
          assert BelowThresholds(q, irqs, toGuest, maskPri, activePri, k + 1) by {
            forall j | 0 <= j <= k + 1
              ensures toGuest(irqs[q[j]].priority) < maskPri && toGuest(irqs[q[j]].priority) < activePri
            {
              if j > 0 {
                assert q[j] == t[j - 1];
              }
            }
          }
          assert q[k + 1] == t[k];
        } else {
          forall k | 0 <= k < |q| && irqs[q[k]].enabled
            ensures !BelowThresholds(q, irqs, toGuest, maskPri, activePri, k)
          {
            if BelowThresholds(q, irqs, toGuest, maskPri, activePri, k) {
              assert k > 0;
              assert t[k - 1] == q[k];
              assert BelowThresholds(t, irqs, toGuest, maskPri, activePri, k - 1) by {
                forall j | 0 <= j <= k - 1
                  ensures toGuest(irqs[t[j]].priority) < maskPri && toGuest(irqs[t[j]].priority) < activePri
                {
                  assert t[j] == q[j + 1];
                }
              }
            }
          }
        }
      }
    }
  }

  /* ---------------------------------------------------------------------- */
  /* gic_irq_xlate                                                          */

  const EINVAL: int := 22
  /* DT_IRQ_TYPE_SENSE_MASK */
  const DT_IRQ_TYPE_SENSE_MASK: bv32 := 0xf

  datatype XlateResult = XlateError(errno: int) | Xlated(hwirq: bv32, irqType: bv32)

  /**
   * gic_irq_xlate: a three-cell GIC interrupt specifier (kind, number,
   * flags) to a GIC interrupt ID and trigger type.  Kind 0 is an SPI
   * (ID = number + 32), anything else a PPI (ID = number + 16); the sums
   * wrap as unsigned 32-bit values.
   */
  function IrqXlate(intspec: seq<bv32>, intsize: nat): XlateResult
    requires intsize <= |intspec|
  {
    if intsize < 3 then XlateError(-EINVAL)
    else
      var hwirq := intspec[1] + 16;
      Xlated(if intspec[0] == 0 then hwirq + 16 else hwirq, intspec[2] & DT_IRQ_TYPE_SENSE_MASK)
  }

  /** The device-tree encoding of a PPI (16..31) or SPI (32..1019) with its trigger type. */
  function DtEncode(hwirq: bv32, irqType: bv32): (cells: seq<bv32>)
    requires 16 <= hwirq < 1020
    ensures |cells| == 3 && cells[2] == irqType
  {
    if hwirq >= 32 then [0, hwirq - 32, irqType] else [1, hwirq - 16, irqType]
  }

  /** Decoding the encoding of a PPI or SPI gives back its ID and the sense bits of its type. */
  lemma IrqXlateRoundTrip(hwirq: bv32, irqType: bv32)
    requires 16 <= hwirq < 1020
    ensures IrqXlate(DtEncode(hwirq, irqType), 3) == Xlated(hwirq, irqType & DT_IRQ_TYPE_SENSE_MASK)
  {
  }

  /**
   * Short specifiers are refused; a well-formed one never yields an SGI ID
   * (below 16) unless the number cell wraps, and its type has only the
   * sense bits.
   */
  lemma IrqXlateRange(intspec: seq<bv32>, intsize: nat)
    requires intsize <= |intspec|
    ensures IrqXlate(intspec, intsize).XlateError? <==> intsize < 3
    ensures IrqXlate(intspec, intsize).Xlated? ==>
      IrqXlate(intspec, intsize).irqType <= DT_IRQ_TYPE_SENSE_MASK
      && (intspec[1] < 1000 ==> 16 <= IrqXlate(intspec, intsize).hwirq < 1032)
  {
  }

  /* ---------------------------------------------------------------------- */
  /* gic_interrupt                                                          */

  /** One step of gic_interrupt's dispatch loop. */
  datatype Dispatch = DoIrq(irq: nat) | DoSgi(sgi: nat)

  /**
   * gic_interrupt acknowledges IDs one after another: 16..1020 go to
   * do_IRQ, 0..15 to do_sgi, and the first other ID (1021 and up, the
   * special and spurious IDs) ends the loop.  acks is the sequence of IDs
   * the CPU interface returns.
   */
  function DispatchAcks(acks: seq<nat>): seq<Dispatch>
  {
    if acks == [] then []
    else if 16 <= acks[0] < 1021 then [DoIrq(acks[0])] + DispatchAcks(acks[1..])
    else if acks[0] < 16 then [DoSgi(acks[0])] + DispatchAcks(acks[1..])
    else []
  }

  /** The index of the first ID that ends the loop, or |acks|. */
  function FirstStop(acks: seq<nat>): (k: nat)
    ensures k <= |acks|
    ensures k < |acks| ==> acks[k] >= 1021
    ensures forall j :: 0 <= j < k ==> acks[j] < 1021
  {
    if acks == [] then 0
    else if acks[0] >= 1021 then 0
    else 1 + FirstStop(acks[1..])
  }

  /**
   * The loop handles exactly the IDs before the first stop, in order, each
   * by the handler its range selects.
   */
  lemma {:induction false} DispatchAcksClassifies(acks: seq<nat>)
    ensures |DispatchAcks(acks)| == FirstStop(acks)
    ensures forall j :: 0 <= j < FirstStop(acks) ==>
      DispatchAcks(acks)[j] == (if acks[j] < 16 then DoSgi(acks[j]) else DoIrq(acks[j]))
  {
    if acks != [] && acks[0] < 1021 {
      DispatchAcksClassifies(acks[1..]);
      var d := DispatchAcks(acks);
      forall j | 0 <= j < FirstStop(acks)
        ensures d[j] == (if acks[j] < 16 then DoSgi(acks[j]) else DoIrq(acks[j]))
      {
        if j > 0 {
          assert d[j] == DispatchAcks(acks[1..])[j - 1];
          assert acks[j] == acks[1..][j - 1];
        }
      }
    }
  }
}
