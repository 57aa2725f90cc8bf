/** The multi-level queue scheduler (src/sched.c): 140 ready queues and the list
    of processes taken by CPUs.  Each call is one atomic step. */
module Scheduler {
  import opened Queue

  const LEVELS := 140 // MAX_PRIO

  type Levels = s: seq<seq<Pid>> | |s| == LEVELS witness seq(LEVELS, _ => [])

  datatype Sched = Sched(mlq: Levels, running: seq<Pid>, currentPrio: nat, currentSlot: nat)

  // ---- Meaning --------------------------------------------------------------

  /** The first non-empty level at or after k, or LEVELS. */
  function FirstReady(mlq: Levels, k: nat): (r: nat)
    requires k <= LEVELS
    ensures k <= r <= LEVELS
    ensures r < LEVELS ==> mlq[r] != []
    ensures forall j :: k <= j < r ==> mlq[j] == []
    decreases LEVELS - k
  {
    if k == LEVELS || mlq[k] != [] then k else FirstReady(mlq, k + 1)
  }

  lemma FirstReadyIs(mlq: Levels, k: nat)
    requires k <= LEVELS && (forall j :: 0 <= j < k ==> mlq[j] == []) && (k < LEVELS ==> mlq[k] != [])
    ensures FirstReady(mlq, 0) == k
  {
    hide FirstReady;
    var r := FirstReady(mlq, 0);
  }

  /** get_mlq_proc: the head of the best non-empty level goes to the running
      list. */
  function Get(s: Sched): (Sched, Pid) {
    var k := FirstReady(s.mlq, 0);
    if k == LEVELS then (s.(currentPrio := 0, currentSlot := 0), 0)
    else
      var (rest, p) := Deq(s.mlq[k]);
      (Sched(s.mlq[k := rest], Enq(s.running, p), k, 1), p)
  }

  /** put_mlq_proc. */
  function Put(s: Sched, p: Pid, prio: nat): Sched {
    if p == 0 then s
    else
      var running := Purge(s.running, p);
      if prio < LEVELS then s.(running := running, mlq := s.mlq[prio := Enq(s.mlq[prio], p)])
      else s.(running := running)
  }

  /** add_mlq_proc. */
  function Add(s: Sched, p: Pid, prio: nat): Sched {
    if prio < LEVELS then s.(mlq := s.mlq[prio := Enq(s.mlq[prio], p)]) else s
  }

  // ---- The scheduler object -------------------------------------------------

  class MlqScheduler {
    const mlq: seq<ArrayQueue>
    const runningList: ArrayQueue
    var currentPrio: nat
    var currentSlot: nat
    ghost var view: Sched

    /** Every queue with its own buffer, none shared. */
    ghost predicate Apart()
      reads this
    {
      && |mlq| == LEVELS
      && (forall i, j :: 0 <= i < j < LEVELS ==> mlq[i] != mlq[j] && mlq[i].proc != mlq[j].proc)
      && (forall i :: 0 <= i < LEVELS ==> mlq[i] != runningList && mlq[i].proc != runningList.proc)
    }

    /** Queue k shows level k of the view. */
    ghost predicate Shows(q: ArrayQueue, contents: seq<Pid>)
      reads q, q.proc
    {
      q.Valid() && q.Contents() == contents
    }

    ghost predicate Valid()
      reads this, mlq, runningList, set q | q in mlq :: q.proc, runningList.proc
    {
      && Apart()
      && (forall i :: 0 <= i < LEVELS ==> Shows(mlq[i], view.mlq[i]))
      && Shows(runningList, view.running)
      && view.currentPrio == currentPrio && view.currentSlot == currentSlot
    }

    /** init_scheduler: every queue empty. */
    constructor ()
      ensures Valid() && view == Sched(seq(LEVELS, _ => []), [], 0, 0)
      ensures fresh(runningList) && fresh(runningList.proc)
      ensures forall i :: 0 <= i < LEVELS ==> fresh(mlq[i]) && fresh(mlq[i].proc)
    {
      var qs: seq<ArrayQueue> := [];
      while |qs| < LEVELS
        invariant |qs| <= LEVELS
        invariant forall i :: 0 <= i < |qs| ==>
                    fresh(qs[i]) && fresh(qs[i].proc) && qs[i].Valid() && qs[i].Contents() == []
        invariant forall i, j :: 0 <= i < j < |qs| ==> qs[i] != qs[j] && qs[i].proc != qs[j].proc
        decreases LEVELS - |qs|
      {
        var q := new ArrayQueue();
        qs := qs + [q];
      }
      mlq := qs;
      runningList := new ArrayQueue();
      currentPrio, currentSlot := 0, 0;
      view := Sched(seq(LEVELS, _ => []), [], 0, 0);
    }

    /** get_mlq_proc: scan from level 0 and take the first process found. */
    method GetMlqProc() returns (p: Pid)
      requires Valid()
      modifies this, mlq, runningList, set q | q in mlq :: q.proc, runningList.proc
      ensures Valid() && (view, p) == Get(old(view))
    {
      hide FirstReady;
      var k := 0;
      while k < LEVELS
        modifies {}
        invariant 0 <= k <= LEVELS && forall j :: 0 <= j < k ==> view.mlq[j] == []
      {
        assert Shows(mlq[k], view.mlq[k]);
        var none := mlq[k].IsEmpty();
        if !none { break; }
        k := k + 1;
      }
      FirstReadyIs(view.mlq, k);
      if k < LEVELS {
        p := TakeFrom(k);
      } else {
        p := 0;
        currentPrio, currentSlot := 0, 0;
        view := view.(currentPrio := 0, currentSlot := 0);
      }
    }

    method TakeFrom(k: nat) returns (p: Pid)
      requires Valid() && k < LEVELS && FirstReady(view.mlq, 0) == k
      modifies this, mlq, runningList, set q | q in mlq :: q.proc, runningList.proc
      ensures Valid() && (view, p) == Get(old(view))
    {
      hide FirstReady, Enq, Deq;
      p := DequeueAt(k);
      ListRunning(p);
      currentPrio, currentSlot := k, 1;
      view := view.(currentPrio := k, currentSlot := 1);
    }

    method ListRunning(p: Pid)
      requires Valid()
      modifies this`view, runningList, runningList.proc
      ensures Valid() && view == old(view).(running := Enq(old(view).running, p))
    {
      hide Enq;
      runningList.Enqueue(p);
      view := view.(running := Enq(view.running, p));
    }

    method DequeueAt(k: nat) returns (p: Pid)
      requires Valid() && k < LEVELS
      modifies this`view, mlq, set q | q in mlq :: q.proc
      ensures Valid() && p == Deq(old(view).mlq[k]).1
      ensures view == old(view).(mlq := old(view).mlq[k := Deq(old(view).mlq[k]).0])
    {
      hide Deq;
      assert Shows(mlq[k], view.mlq[k]);
      p := mlq[k].Dequeue();
      view := view.(mlq := view.mlq[k := Deq(view.mlq[k]).0]);
    }

    /** put_mlq_proc. */
    method PutMlqProc(p: Pid, prio: nat)
      requires Valid()
      modifies this`view, mlq, runningList, set q | q in mlq :: q.proc, runningList.proc
      ensures Valid() && view == Put(old(view), p, prio)
    {
      hide Purge, Enq;
      if p == 0 { return; }
      PurgeRunning(p);
      if prio < LEVELS { EnqueueAt(p, prio); }
    }

    method PurgeRunning(p: Pid)
      requires Valid() && p != 0
      modifies this`view, runningList, runningList.proc
      ensures Valid() && view == old(view).(running := Purge(old(view).running, p))
    {
      hide Purge;
      var _ := runningList.PurgeProc(p);
      view := view.(running := Purge(view.running, p));
    }

    /** add_mlq_proc. */
    method AddMlqProc(p: Pid, prio: nat)
      requires Valid()
      modifies this`view, mlq, set q | q in mlq :: q.proc
      ensures Valid() && view == Add(old(view), p, prio)
    {
      if prio < LEVELS { EnqueueAt(p, prio); }
    }

    method EnqueueAt(p: Pid, prio: nat)
      requires Valid() && prio < LEVELS
      modifies this`view, mlq, set q | q in mlq :: q.proc
      ensures Valid() && view == old(view).(mlq := old(view).mlq[prio := Enq(old(view).mlq[prio], p)])
    {
      hide Enq;
      assert Shows(mlq[prio], view.mlq[prio]);
      mlq[prio].Enqueue(p);
      view := view.(mlq := view.mlq[prio := Enq(view.mlq[prio], p)]);
    }
  }
}
