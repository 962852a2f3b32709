/*
 * The priority-ordered list operations used by the list-register engine of
 * xen/arch/arm/gic.c: lr_pending insertion (gic_add_to_lr_pending),
 * list_del_init, and the successor lookup of list_for_each_entry_safe.
 * A list of pending_irq records is a sequence of virtual IRQ numbers; the
 * record of each number lives in a map.
 */
module GicQueue {
  import opened VgicRank

  /** struct pending_irq: status bits as booleans, desc as the physical IRQ number when set. */
  datatype PendingIrq = PendingIrq(
    priority: bv8,
    lr: int,
    desc: Option<int>,
    queued: bool,
    active: bool,
    visible: bool,
    enabled: bool)

  predicate AllIn(q: seq<int>, irqs: map<int, PendingIrq>)
  {
    forall k :: 0 <= k < |q| ==> q[k] in irqs
  }

  predicate Distinct(q: seq<int>)
  {
    forall i, j :: 0 <= i < j < |q| ==> q[i] != q[j]
  }

  /** Non-decreasing priority value, i.e. highest priority first. */
  predicate Sorted(q: seq<int>, irqs: map<int, PendingIrq>)
    requires AllIn(q, irqs)
  {
    forall i, j :: 0 <= i < j < |q| ==> irqs[q[i]].priority <= irqs[q[j]].priority
  }

  /**
   * Insert x before the first entry whose priority value is strictly
   * greater, or at the tail when there is none.
   */
  function InsertByPriority(q: seq<int>, x: int, irqs: map<int, PendingIrq>): (r: seq<int>)
    requires AllIn(q, irqs) && x in irqs
    ensures |r| == |q| + 1
    ensures forall y :: y in r <==> y in q || y == x
    ensures AllIn(r, irqs)
  {
    if q == [] then [x]
    else if irqs[q[0]].priority > irqs[x].priority then [x] + q
    else [q[0]] + InsertByPriority(q[1..], x, irqs)
  }

  /** Index of the first entry whose priority value exceeds that of x. */
  function InsertPos(q: seq<int>, x: int, irqs: map<int, PendingIrq>): (k: nat)
    requires AllIn(q, irqs) && x in irqs
    ensures k <= |q|
  {
    if q == [] then 0
    else if irqs[q[0]].priority > irqs[x].priority then 0
    else 1 + InsertPos(q[1..], x, irqs)
  }

  /** Every entry before InsertPos has priority value <= x's. */
  lemma {:induction false} InsertPosAfterLower(q: seq<int>, x: int, irqs: map<int, PendingIrq>)
    requires AllIn(q, irqs) && x in irqs
    ensures forall j :: 0 <= j < InsertPos(q, x, irqs) ==> irqs[q[j]].priority <= irqs[x].priority
  {
    if q != [] && irqs[q[0]].priority <= irqs[x].priority {
      InsertPosAfterLower(q[1..], x, irqs);
      forall j | 0 < j < InsertPos(q, x, irqs)
        ensures irqs[q[j]].priority <= irqs[x].priority
      {
        assert q[j] == q[1..][j - 1];
      }
    }
  }

  /** The entry at InsertPos, if any, has a greater priority value than x. */
  lemma {:induction false} InsertPosBeforeHigher(q: seq<int>, x: int, irqs: map<int, PendingIrq>)
    requires AllIn(q, irqs) && x in irqs
    ensures InsertPos(q, x, irqs) < |q| ==> irqs[q[InsertPos(q, x, irqs)]].priority > irqs[x].priority
  {
    if q != [] && irqs[q[0]].priority <= irqs[x].priority {
      InsertPosBeforeHigher(q[1..], x, irqs);
      var k := InsertPos(q[1..], x, irqs);
      if k < |q| - 1 {
        assert q[k + 1] == q[1..][k];
      }
    }
  }

  /** The insertion places x at InsertPos: everything before it has priority value <= x's. */
  lemma {:induction false} InsertAtPos(q: seq<int>, x: int, irqs: map<int, PendingIrq>)
    requires AllIn(q, irqs) && x in irqs
    ensures InsertByPriority(q, x, irqs) == q[..InsertPos(q, x, irqs)] + [x] + q[InsertPos(q, x, irqs)..]
  {
    if q != [] && irqs[q[0]].priority <= irqs[x].priority {
      InsertAtPos(q[1..], x, irqs);
      assert q[1..][..InsertPos(q[1..], x, irqs)] == q[1..1 + InsertPos(q[1..], x, irqs)];
    }
  }

  /** Any split point satisfying the insertion rule is InsertPos. */
  lemma {:induction false} InsertPosUnique(q: seq<int>, x: int, irqs: map<int, PendingIrq>, k: nat)
    requires AllIn(q, irqs) && x in irqs && k <= |q|
    requires forall j :: 0 <= j < k ==> irqs[q[j]].priority <= irqs[x].priority
    requires k < |q| ==> irqs[q[k]].priority > irqs[x].priority
    ensures InsertPos(q, x, irqs) == k
  {
    if q != [] && k > 0 {
      InsertPosUnique(q[1..], x, irqs, k - 1);
    }
  }

  /** Insertion keeps lr_pending sorted by priority. */
  lemma {:induction false} InsertKeepsSorted(q: seq<int>, x: int, irqs: map<int, PendingIrq>)
    requires AllIn(q, irqs) && x in irqs && Sorted(q, irqs)
    ensures Sorted(InsertByPriority(q, x, irqs), irqs)
  {
    if q == [] {
    } else if irqs[q[0]].priority > irqs[x].priority {
      var r := [x] + q;
      forall i, j | 0 <= i < j < |r|
        ensures irqs[r[i]].priority <= irqs[r[j]].priority
      {
        if i > 0 {
          assert r[i] == q[i - 1] && r[j] == q[j - 1];
        } else {
          assert irqs[q[0]].priority <= irqs[q[j - 1]].priority;
        }
      }
    } else {
      InsertKeepsSorted(q[1..], x, irqs);
      var t := InsertByPriority(q[1..], x, irqs);
      var r := [q[0]] + t;
      forall i, j | 0 <= i < j < |r|
        ensures irqs[r[i]].priority <= irqs[r[j]].priority
      {
        if i > 0 {
          assert r[i] == t[i - 1] && r[j] == t[j - 1];
        } else {
          assert r[j] == t[j - 1];
          if r[j] != x {
            assert r[j] in q[1..];
            var m :| 0 <= m < |q| - 1 && q[1..][m] == r[j];
            assert q[m + 1] == r[j];
          }
        }
      }
    }
  }

  /** Insertion of a new element keeps the list free of duplicates. */
  lemma {:induction false} InsertKeepsDistinct(q: seq<int>, x: int, irqs: map<int, PendingIrq>)
    requires AllIn(q, irqs) && x in irqs && Distinct(q) && x !in q
    ensures Distinct(InsertByPriority(q, x, irqs))
  {
    var k := InsertPos(q, x, irqs);
    InsertAtPos(q, x, irqs);
    var r := InsertByPriority(q, x, irqs);
    forall i, j | 0 <= i < j < |r|
      ensures r[i] != r[j]
    {
      if j < k {
        assert r[i] == q[i] && r[j] == q[j];
      } else if j == k {
        assert r[j] == x && r[i] == q[i];
      } else if i < k {
        assert r[i] == q[i] && r[j] == q[j - 1];
      } else if i == k {
        assert r[i] == x && r[j] == q[j - 1];
      } else {
        assert r[i] == q[i - 1] && r[j] == q[j - 1];
      }
    }
  }

  /** list_del_init: drop x from the list, keeping the order of the others. */
  function Remove(q: seq<int>, x: int): (r: seq<int>)
    ensures forall y :: y in r <==> y in q && y != x
    ensures |r| <= |q|
    ensures x in q ==> |r| < |q|
  {
    if q == [] then []
    else if q[0] == x then Remove(q[1..], x)
    else [q[0]] + Remove(q[1..], x)
  }

  lemma {:induction false} RemoveKeepsSorted(q: seq<int>, x: int, irqs: map<int, PendingIrq>)
    requires AllIn(q, irqs) && Sorted(q, irqs)
    ensures AllIn(Remove(q, x), irqs) && Sorted(Remove(q, x), irqs)
  {
    if q != [] {
      RemoveKeepsSorted(q[1..], x, irqs);
      var t := Remove(q[1..], x);
      if q[0] != x {
        var r := [q[0]] + t;
        forall i, j | 0 <= i < j < |r|
          ensures irqs[r[i]].priority <= irqs[r[j]].priority
        {
          if i == 0 {
            assert r[j] in q[1..];
          } else {
            assert r[i] == t[i - 1] && r[j] == t[j - 1];
          }
        }
      }
    }
  }

  lemma {:induction false} RemoveKeepsDistinct(q: seq<int>, x: int)
    requires Distinct(q)
    ensures Distinct(Remove(q, x))
  {
    if q != [] {
      assert Distinct(q[1..]);
      RemoveKeepsDistinct(q[1..], x);
      var t := Remove(q[1..], x);
      if q[0] != x {
        var r := [q[0]] + t;
        forall i, j | 0 <= i < j < |r|
          ensures r[i] != r[j]
        {
          if i == 0 {
            assert r[j] in q[1..];
          } else {
            assert r[i] == t[i - 1] && r[j] == t[j - 1];
          }
        }
      }
    }
  }

  /** Removing a freshly inserted element gives back the original list. */
  lemma {:induction false} RemoveUndoesInsert(q: seq<int>, x: int, irqs: map<int, PendingIrq>)
    requires AllIn(q, irqs) && x in irqs && x !in q
    ensures Remove(InsertByPriority(q, x, irqs), x) == q
  {
    if q == [] {
    } else if irqs[q[0]].priority > irqs[x].priority {
      RemoveAbsent(q, x);
    } else {
      RemoveUndoesInsert(q[1..], x, irqs);
      assert InsertByPriority(q, x, irqs)[1..] == InsertByPriority(q[1..], x, irqs);
    }
  }

  lemma {:induction false} RemoveAbsent(q: seq<int>, x: int)
    requires x !in q
    ensures Remove(q, x) == q
  {
    if q != [] {
      RemoveAbsent(q[1..], x);
    }
  }

  /** The entry after p in q, as list_for_each_entry_safe reads it before the body. */
  function Successor(q: seq<int>, p: int): Option<int>
  {
    if q == [] then None
    else if q[0] == p then (if |q| > 1 then Some(q[1]) else None)
    else Successor(q[1..], p)
  }

  lemma {:induction false} SuccessorIn(q: seq<int>, p: int)
    ensures Successor(q, p).Some? ==> Successor(q, p).value in q && p in q
  {
    if q != [] && q[0] != p {
      SuccessorIn(q[1..], p);
    }
  }

  lemma {:induction false} SuccessorDiffers(q: seq<int>, p: int)
    requires Distinct(q)
    ensures Successor(q, p).Some? ==> Successor(q, p).value != p
  {
    if q != [] && q[0] != p {
      assert Distinct(q[1..]);
      SuccessorDiffers(q[1..], p);
    } else if |q| > 1 {
      assert q[0] != q[1];
    }
  }
}
