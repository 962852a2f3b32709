/*
 * The list-register engine of xen/arch/arm/gic.c as it runs: the state of
 * one vCPU and of the physical CPU it runs on, held in fields and in an
 * array standing for the hardware LR bank.  Every method is proved to
 * perform the transition that module Gic specifies, and the lemmas there
 * state what those transitions guarantee.
 */
module GicEngine {
  import opened VgicRank
  import opened GicQueue
  import opened Gic

  /**
   * gic_restore_pending_irqs, one installation into the free slot found at
   * or after lr: the rest of the loop continues from the successor.
   */
  lemma RestoreLoopFreeStep(s: VState, n: nat, cur: Option<int>, lr: nat, budget: nat, walk: nat)
    requires Valid(s, n) && walk <= |s.inflight|
    requires cur.Some? && cur.value in s.lrPending && budget > 0
    requires FirstFree(s.lrMask, n, lr) < n
    requires Valid(Install(s, FirstFree(s.lrMask, n, lr), cur.value), n)
    requires var t := Successor(s.lrPending, cur.value);
      t.Some? ==> t.value in Install(s, FirstFree(s.lrMask, n, lr), cur.value).lrPending
    ensures RestoreLoop(s, n, cur, lr, budget, walk).0
         == RestoreLoop(Install(s, FirstFree(s.lrMask, n, lr), cur.value), n,
                        Successor(s.lrPending, cur.value), FirstFree(s.lrMask, n, lr), budget - 1, walk).0
  {
  }

  /**
   * gic_restore_pending_irqs, one eviction of inflight entry k followed by
   * the installation into its slot: the walk resumes before entry k.
   */
  lemma RestoreLoopVictimStep(s: VState, n: nat, cur: Option<int>, lr: nat, budget: nat, walk: nat, k: nat, s1: VState)
    requires Valid(s, n) && walk <= |s.inflight|
    requires cur.Some? && cur.value in s.lrPending && budget > 0
    requires FirstFree(s.lrMask, n, lr) >= n
    requires FindVictim(s, walk, s.irqs[cur.value].priority) == Some(k)
    requires s1 == Install(Evict(s, s.inflight[k]), s.irqs[s.inflight[k]].lr, cur.value)
    requires Valid(s1, n) && k <= |s1.inflight|
    requires var t := Successor(s.lrPending, cur.value); t.Some? ==> t.value in s1.lrPending
    requires s.irqs[s.inflight[k]].lr >= 0
    ensures RestoreLoop(s, n, cur, lr, budget, walk).0
         == RestoreLoop(s1, n, Successor(s.lrPending, cur.value), s.irqs[s.inflight[k]].lr, budget - 1, k).0
  {
  }

  /** The GIC state of one vCPU together with the LR bank of the CPU it runs on. */
  class VcpuGic {
    const n: nat                     // gic_hw_ops->info->nr_lrs
    const lrs: array<GicLr>          // the hardware list registers
    var lrMask: set<int>             // this_cpu(lr_mask)
    var savedLrMask: set<int>        // v->arch.lr_mask
    var irqs: map<int, PendingIrq>   // irq_to_pending(v, irq)
    var inflight: seq<int>           // v->arch.vgic.inflight_irqs
    var lrPending: seq<int>          // v->arch.vgic.lr_pending
    var inProgress: set<int>         // physical IRQs whose irq_desc has IRQ_INPROGRESS
    var uie: bool                    // GICH_HCR.UIE

    function State(): VState
      reads this, lrs
    {
      VState(lrMask, lrs[..], irqs, inflight, lrPending, inProgress)
    }

    predicate Inv()
      reads this, lrs
    {
      lrs.Length == n && Valid(State(), n)
    }

    /**
     * A vCPU with n cleared LRs and the given records, none of them in an
     * LR, with the physical IRQs in busy marked IRQ_INPROGRESS.
     */
    constructor (nrLrs: nat, records: map<int, PendingIrq>, busy: set<int>)
      requires 1 <= nrLrs <= 30
      requires forall x :: x in records ==> !records[x].visible && !records[x].active
      ensures Inv() && n == nrLrs && fresh(lrs)
      ensures State() == VState({}, seq(nrLrs, _ => ClearedLr), records, [], [], busy)
      ensures savedLrMask == {} && !uie
    {
      n := nrLrs;
      lrs := new GicLr[nrLrs](_ => ClearedLr);
      lrMask := {};
      savedLrMask := {};
      irqs := records;
      inflight := [];
      lrPending := [];
      inProgress := busy;
      uie := false;
    }

    /** gic_set_lr */
    method SetLr(i: int, x: int, state: bv8)
      requires 0 <= i < lrs.Length && x in irqs
      modifies this, lrs
      ensures State() == Gic.SetLr(old(State()), i, x, state)
      ensures savedLrMask == old(savedLrMask) && uie == old(uie)
    {
      lrs[i] := LrFor(x, irqs[x], state);
      irqs := irqs[x := irqs[x].(visible := true, queued := false, lr := i)];
    }

    /** gic_add_to_lr_pending: the walk for the first entry of greater priority value. */
    method AddToLrPending(x: int)
      requires x in irqs && AllIn(lrPending, irqs)
      modifies this
      ensures irqs == old(irqs) && lrMask == old(lrMask) && inflight == old(inflight)
      ensures inProgress == old(inProgress)
      ensures lrPending == Gic.AddToLrPending(old(lrPending), x, irqs)
      ensures savedLrMask == old(savedLrMask) && uie == old(uie)
    {
      if x in lrPending {
        return;
      }
      var k := 0;
      while k < |lrPending| && irqs[lrPending[k]].priority <= irqs[x].priority
        invariant 0 <= k <= |lrPending|
        invariant forall j :: 0 <= j < k ==> irqs[lrPending[j]].priority <= irqs[x].priority
      {
        k := k + 1;
      }
      InsertPosUnique(lrPending, x, irqs, k);
      InsertAtPos(lrPending, x, irqs);
      lrPending := lrPending[..k] + [x] + lrPending[k..];
    }

    /** gic_remove_from_queues */
    method RemoveFromQueues(x: int)
      requires Inv() && x in irqs
      modifies this
      ensures Inv()
      ensures State() == old(State()).(lrPending := Remove(old(lrPending), x))
      ensures savedLrMask == old(savedLrMask) && uie == old(uie)
    {
      if x in lrPending {
        RemoveQueueValid(State(), n, x);
        lrPending := Remove(lrPending, x);
      } else {
        RemoveAbsent(lrPending, x);
      }
    }

    /** gic_raise_guest_irq, for a record that is in no LR. */
    method RaiseGuestIrq(x: int, isCurrent: bool)
      requires Inv() && x in irqs && !irqs[x].visible
      modifies this, lrs
      ensures Inv() && State() == Raise(old(State()), n, x, isCurrent)
      ensures savedLrMask == old(savedLrMask) && uie == old(uie)
    {
      RaiseValid(State(), n, x, isCurrent);
      if isCurrent && lrPending == [] {
        var i := FirstFree(lrMask, n, 0);
        if i < n {
          lrMask := lrMask + {i};
          SetLr(i, x, GICH_LR_PENDING);
          return;
        }
      }
      AddToLrPending(x);
    }

    /** gic_update_one_lr */
    method UpdateOneLr(i: int)
      requires Inv() && i in lrMask
      modifies this, lrs
      ensures Inv() && State() == Gic.UpdateOneLr(old(State()), n, i)
      ensures savedLrMask == old(savedLrMask) && uie == old(uie)
    {
      UpdateOneLrValid(State(), n, i);
      var lv := lrs[i];
      var x := lv.virq;
      var p := irqs[x];
      if lv.state & GICH_LR_ACTIVE != 0 {
        irqs := irqs[x := p.(active := true, queued := p.queued && !p.enabled)];
        if p.enabled && p.queued && p.desc.None? {
          lrs[i] := lv.(state := lv.state | GICH_LR_PENDING);
        }
      } else if lv.state & GICH_LR_PENDING != 0 {
        irqs := irqs[x := p.(queued := false)];
      } else {
        var busy := if p.desc.Some? then inProgress - {p.desc.value} else inProgress;
        ClearSlotValid(State(), n, i, busy);
        lrs[i] := ClearedLr;
        lrMask := lrMask - {i};
        inProgress := busy;
        irqs := irqs[x := p.(visible := false, active := false, lr := GIC_INVALID_LR)];
        if p.enabled && p.queued {
          RaiseGuestIrq(x, true);
        } else {
          inflight := Remove(inflight, x);
        }
      }
    }

    /** One turn of the gic_clear_lrs loop: update the next occupied LR at or after i. */
    method ClearNextLr(i: nat) returns (next: nat)
      requires Inv() && FirstSet(lrMask, n, i) < n
      modifies this, lrs
      ensures Inv() && i < next <= n
      ensures ClearLrsFrom(State(), n, next) == ClearLrsFrom(old(State()), n, i)
      ensures savedLrMask == old(savedLrMask) && uie == old(uie)
    {
      next := FirstSet(lrMask, n, i);
      UpdateOneLr(next);
      next := next + 1;
    }

    /** gic_clear_lrs */
    method ClearLrs(isIdle: bool)
      requires Inv()
      modifies this, lrs
      ensures Inv() && State() == Gic.ClearLrs(old(State()), n, isIdle)
      ensures savedLrMask == old(savedLrMask) && uie == old(uie)
    {
      if isIdle {
        return;
      }
      var i := 0;
      while FirstSet(lrMask, n, i) < n
        invariant Inv() && i <= n
        invariant ClearLrsFrom(State(), n, i) == ClearLrsFrom(old(State()), n, 0)
        invariant savedLrMask == old(savedLrMask) && uie == old(uie)
        decreases n - i
      {
        i := ClearNextLr(i);
      }
    }

    /** The reverse walk of inflight_irqs for a victim, from entry walk - 1 towards the head. */
    method FindVictimWalk(walk: nat, prio: bv8) returns (victim: Option<nat>)
      requires Inv() && walk <= |inflight|
      ensures victim == FindVictim(State(), walk, prio)
    {
      var j: nat := walk;
      victim := None;
      while j > 0 && victim.None?
        invariant j <= walk
        invariant victim.None? ==> FindVictim(State(), j, prio) == FindVictim(State(), walk, prio)
        invariant victim.Some? ==> victim == FindVictim(State(), walk, prio)
        decreases j, if victim.None? then 1 else 0
      {
        var y := inflight[j - 1];
        if irqs[y].priority == prio {
          j := 0;
        } else if Evictable(irqs[y]) {
          victim := Some(j - 1);
        } else {
          j := j - 1;
        }
      }
    }

    /** Take the LR back from victim y and queue it again. */
    method Evict(y: int)
      requires y in irqs && AllIn(lrPending, irqs)
      modifies this
      ensures State() == Gic.Evict(old(State()), y)
      ensures savedLrMask == old(savedLrMask) && uie == old(uie)
    {
      irqs := irqs[y := irqs[y].(lr := GIC_INVALID_LR, queued := true, visible := false)];
      AddToLrPending(y);
    }

    /** gic_set_lr(lr, p, PENDING), list_del_init(&p->lr_queue), set_bit(lr, lr_mask). */
    method Install(lr: int, p: int)
      requires 0 <= lr < lrs.Length && p in irqs
      modifies this, lrs
      ensures State() == Gic.Install(old(State()), lr, p)
      ensures savedLrMask == old(savedLrMask) && uie == old(uie)
    {
      SetLr(lr, p, GICH_LR_PENDING);
      lrPending := Remove(lrPending, p);
      lrMask := lrMask + {lr};
    }

    /**
     * One pass of the body of gic_restore_pending_irqs for record p: install
     * it into the next free slot at or after lr, or else evict a victim
     * found by the reverse walk before entry walk; placed is false when
     * the walk gives up (goto out).
     */
    method RestoreOne(p: int, lr: nat, budget: nat, walk: nat) returns (placed: bool, lr': nat, walk': nat)
      requires Inv() && walk <= |inflight| && p in lrPending && budget > 0
      modifies this, lrs
      ensures Inv() && walk' <= |inflight|
      ensures var t := Successor(old(lrPending), p);
        placed ==>
          ((t.Some? ==> t.value in lrPending)
           && RestoreLoop(old(State()), n, Some(p), lr, budget, walk).0
              == RestoreLoop(State(), n, t, lr', budget - 1, walk').0)
      ensures !placed ==> State() == old(State()) && RestoreLoop(State(), n, Some(p), lr, budget, walk).0 == State()
      ensures savedLrMask == old(savedLrMask) && uie == old(uie)
    {
      SuccessorIn(lrPending, p);
      SuccessorDiffers(lrPending, p);
      var free := FirstFree(lrMask, n, lr);
      if free < n {
        InstallFreeSlotValid(State(), n, free, p);
        RestoreLoopFreeStep(State(), n, Some(p), lr, budget, walk);
        Install(free, p);
        return true, free, walk;
      }
      var victim := FindVictimWalk(walk, irqs[p].priority);
      if victim.None? {
        return false, lr, walk;
      }
      var k := victim.value;
      var slot := EvictAndInstall(p, lr, budget, walk, k);
      return true, slot, k;
    }

    /** The eviction branch of RestoreOne: victim inflight[k] gives its LR to p. */
    method EvictAndInstall(p: int, lr: nat, budget: nat, walk: nat, k: nat) returns (slot: nat)
      requires Inv() && walk <= |inflight| && p in lrPending && budget > 0
      requires FirstFree(lrMask, n, lr) >= n
      requires FindVictim(State(), walk, irqs[p].priority) == Some(k)
      modifies this, lrs
      ensures Inv() && k <= |inflight|
      ensures var t := Successor(old(lrPending), p);
        (t.Some? ==> t.value in lrPending)
        && RestoreLoop(old(State()), n, Some(p), lr, budget, walk).0
           == RestoreLoop(State(), n, t, slot, budget - 1, k).0
      ensures savedLrMask == old(savedLrMask) && uie == old(uie)
    {
      SuccessorIn(lrPending, p);
      SuccessorDiffers(lrPending, p);
      var y := inflight[k];
      EvictInstallValid(State(), n, y, p);
      slot := irqs[y].lr;
      RestoreLoopVictimStep(State(), n, Some(p), lr, budget, walk, k, Gic.Install(Gic.Evict(State(), y), slot, p));
      Evict(y);
      Install(slot, p);
    }

    /** gic_restore_pending_irqs */
    method RestorePendingIrqs()
      requires Inv()
      modifies this, lrs
      ensures Inv() && State() == Restore(old(State()), n)
      ensures savedLrMask == old(savedLrMask) && uie == old(uie)
    {
      if lrPending == [] {
        return;
      }
      ghost var target := Restore(State(), n);
      var cur := Some(lrPending[0]);
      var lr: nat := 0;
      var budget: nat := n;
      var walk: nat := |inflight|;
      var done := false;
      while cur.Some? && budget > 0 && !done
        invariant Inv() && walk <= |inflight| && (cur.Some? ==> cur.value in lrPending)
        invariant !done ==> RestoreLoop(State(), n, cur, lr, budget, walk).0 == target
        invariant done ==> State() == target
        invariant savedLrMask == old(savedLrMask) && uie == old(uie)
        decreases budget + if done then 0 else 1
      {
        var t := Successor(lrPending, cur.value);
        var placed;
        placed, lr, walk := RestoreOne(cur.value, lr, budget, walk);
        if placed {
          budget := budget - 1;
          cur := t;
        } else {
          done := true;
        }
      }
    }

    /** gic_clear_pending_irqs: forget the saved mask and empty lr_pending. */
    method ClearPendingIrqs()
      requires Inv()
      modifies this
      ensures Inv()
      ensures State() == old(State()).(lrPending := []) && savedLrMask == {} && uie == old(uie)
    {
      savedLrMask := {};
      while lrPending != []
        invariant Inv()
        invariant State() == old(State()).(lrPending := lrPending)
        invariant savedLrMask == {} && uie == old(uie)
        decreases |lrPending|
      {
        RemoveQueueValid(State(), n, lrPending[0]);
        lrPending := Remove(lrPending, lrPending[0]);
      }
    }

    /**
     * gic_events_need_delivery, with the VMCR priority mask, the active
     * priority register APR and GIC_PRI_TO_GUEST as parameters.
     */
    method EventsNeedDelivery(toGuest: bv8 -> int, maskPri: int, apr: bv32) returns (rc: bool)
      requires Inv()
      ensures rc == DeliveryWalk(inflight, irqs, toGuest, maskPri, LowestSetBit(apr, 0))
    {
      var activePri := LowestSetBit(apr, 0);
      var k := 0;
      while k < |inflight|
        invariant 0 <= k <= |inflight|
        invariant DeliveryWalk(inflight[k..], irqs, toGuest, maskPri, activePri)
               == DeliveryWalk(inflight, irqs, toGuest, maskPri, activePri)
      {
        assert inflight[k..][1..] == inflight[k + 1..];
        var pri := toGuest(irqs[inflight[k]].priority);
        if pri >= maskPri || pri >= activePri {
          return false;
        }
        if irqs[inflight[k]].enabled {
          return true;
        }
        k := k + 1;
      }
      return false;
    }

    /** gic_inject: restore, then set or clear GICH_HCR.UIE. */
    method Inject()
      requires Inv()
      modifies this, lrs
      ensures Inv() && (State(), uie) == Gic.Inject(old(State()), n)
      ensures savedLrMask == old(savedLrMask)
    {
      RestorePendingIrqs();
      uie := lrPending != [] && LrAllFull(lrMask, n);
    }

    /** gic_save_state: v->arch.lr_mask = this_cpu(lr_mask), except for the idle vCPU. */
    method SaveState(isIdle: bool)
      modifies this
      ensures State() == old(State()) && uie == old(uie)
      ensures savedLrMask == if isIdle then old(savedLrMask) else lrMask
    {
      if !isIdle {
        savedLrMask := lrMask;
      }
    }

    /**
     * gic_restore_state: this_cpu(lr_mask) = v->arch.lr_mask, then
     * gic_restore_pending_irqs, except for the idle vCPU.  The LR bank is
     * the one the hardware restore put back, so the saved mask must match it.
     */
    method RestoreState(isIdle: bool)
      requires Inv()
      requires !isIdle ==> Valid(State().(lrMask := savedLrMask), n)
      modifies this, lrs
      ensures Inv()
      ensures isIdle ==> State() == old(State())
      ensures !isIdle ==> State() == Restore(old(State()).(lrMask := old(savedLrMask)), n)
      ensures savedLrMask == old(savedLrMask) && uie == old(uie)
    {
      if isIdle {
        return;
      }
      lrMask := savedLrMask;
      RestorePendingIrqs();
    }
  }
}
