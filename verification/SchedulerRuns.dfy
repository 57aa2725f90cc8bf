/** What the scheduler and the CPU loop promise over every interleaving of a
    loader and N CPUs, with any number of processes; and exactly when no process
    is lost. */
module SchedulerRuns {
  import opened Wrappers
  import opened Queue
  import opened Scheduler
  import opened CpuLoop

  /** The steps of a run, made explicit. */
  predicate IsRunBy(run: seq<Sys>, steps: seq<Step>) {
    && |run| == |steps| + 1 && Init(run[0])
    && forall j :: 0 <= j < |steps| ==> Next(run[j], steps[j]) == Some(run[j + 1])
  }

  lemma {:induction false} RunInv(run: seq<Sys>, j: nat)
    requires IsRun(run) && j < |run|
    ensures Inv(run[j])
    decreases j
  {
    hide Next;
    if j == 0 {
      InitInv(run[0]);
    } else {
      assert Follows(run[j - 1], run[j - 1 + 1]);
      var step :| Next(run[j - 1], step) == Some(run[j]);
      RunInv(run, j - 1);
      NextInv(run[j - 1], step, run[j]);
    }
  }

  lemma RunByIsRun(run: seq<Sys>, steps: seq<Step>)
    requires IsRunBy(run, steps)
    ensures IsRun(run)
  {
    hide Next, Init;
    forall j | 0 <= j < |run| - 1 ensures Follows(run[j], run[j + 1]) {
      assert Next(run[j], steps[j]) == Some(run[j + 1]);
    }
  }

  // ---- Exclusive ownership --------------------------------------------------

  lemma {:induction false} InUnion(qs: seq<seq<Pid>>, p: Pid) returns (k: nat)
    requires Union(qs)[p] > 0
    ensures k < |qs| && p in qs[k]
  {
    if p in qs[0] {
      k := 0;
    } else {
      assert multiset(qs[0])[p] == 0;
      k := InUnion(qs[1..], p);
      k := k + 1;
    }
  }

  lemma {:induction false} InHeld(cpus: seq<Cpu>, p: Pid) returns (c: nat)
    requires Held(cpus)[p] > 0
    ensures c < |cpus| && cpus[c].proc == p != 0
  {
    if HeldBy(cpus[0])[p] > 0 {
      c := 0;
    } else {
      c := InHeld(cpus[1..], p);
      c := c + 1;
    }
  }

  predicate Ready(s: Sys, p: Pid) {
    0 < p <= |s.procs| && s.procs[p - 1].prio < LEVELS && p in s.sched.mlq[s.procs[p - 1].prio]
  }
  predicate Taken(s: Sys, p: Pid) { exists c :: 0 <= c < |s.cpus| && s.cpus[c].proc == p }

  predicate Somewhere(s: Sys, p: Pid) { Ready(s, p) || Taken(s, p) || p in s.finished }

  /** Never in two of the three places, in one queue at most and there once, and
      on one CPU at most. */
  predicate AtMostOnce(s: Sys, p: Pid)
    requires 1 <= p <= |s.procs|
  {
    && !(Ready(s, p) && Taken(s, p)) && !(Ready(s, p) && p in s.finished) && !(Taken(s, p) && p in s.finished)
    && (forall k :: 0 <= k < LEVELS && p in s.sched.mlq[k] ==>
          k == s.procs[p - 1].prio && multiset(s.sched.mlq[k])[p] == 1)
    && (forall c, d :: 0 <= c < |s.cpus| && 0 <= d < |s.cpus| && s.cpus[c].proc == p == s.cpus[d].proc ==> c == d)
    && multiset(s.finished)[p] <= 1
  }

  /** How often p is counted in each place. */
  lemma PlaceCounts(s: Sys, p: Pid)
    requires Inv(s) && 1 <= p <= |s.procs|
    ensures var u, h, f := Union(s.sched.mlq)[p], Held(s.cpus)[p], multiset(s.finished)[p];
            && Places(s)[p] == u + h + f <= 1
            && (u > 0 <==> Ready(s, p)) && (h > 0 <==> Taken(s, p)) && (f > 0 <==> p in s.finished)
  {
    hide Union, Held, Pids;
    PidsOnce(|s.procs|, p);
    assert PcbOk(s.procs[p - 1]);
    if Union(s.sched.mlq)[p] > 0 {
      var k := InUnion(s.sched.mlq, p);
      assert LevelOk(s, k);
    }
    if Ready(s, p) {
      var k := s.procs[p - 1].prio;
      UnionUpdate(s.sched.mlq, k, s.sched.mlq[k]);
      assert multiset(s.sched.mlq[k])[p] > 0;
    }
    if Held(s.cpus)[p] > 0 { var c := InHeld(s.cpus, p); }
    forall c | 0 <= c < |s.cpus| && s.cpus[c].proc == p ensures Held(s.cpus)[p] == 1 { HeldElsewhere(s, c); }
  }

  lemma AtMostOnceHolds(s: Sys, p: Pid)
    requires Inv(s) && 1 <= p <= |s.procs|
    ensures AtMostOnce(s, p)
  {
    hide Union, Held, Pids, Conserved, Places;
    PlaceCounts(s, p);
    forall k | 0 <= k < LEVELS && p in s.sched.mlq[k]
      ensures k == s.procs[p - 1].prio && multiset(s.sched.mlq[k])[p] == 1
    {
      assert LevelOk(s, k);
      UnionUpdate(s.sched.mlq, k, s.sched.mlq[k]);
    }
    forall c, d | 0 <= c < |s.cpus| && 0 <= d < |s.cpus| && s.cpus[c].proc == p == s.cpus[d].proc ensures c == d {
      HeldElsewhere(s, c);
    }
  }

  /** Exclusive ownership, for any number of processes: in every reachable state
      no process is in two places. */
  lemma AtMostOnePlace(run: seq<Sys>, j: nat, p: Pid)
    requires IsRun(run) && j < |run| && 1 <= p <= |run[j].procs|
    ensures AtMostOnce(run[j], p)
  {
    RunInv(run, j);
    AtMostOnceHolds(run[j], p);
  }

  /** Every loaded process is in exactly one place. */
  predicate AllOwned(s: Sys) {
    forall p :: 1 <= p <= |s.procs| ==> Somewhere(s, p) && AtMostOnce(s, p)
  }

  lemma AllOwnedIsPlaced(s: Sys)
    requires Inv(s)
    ensures AllOwned(s) <==> Placed(s)
  {
    hide Places, Pids, Somewhere, AtMostOnce, Inv;
    forall p | 1 <= p <= |s.procs|
      ensures AtMostOnce(s, p) && Places(s)[p] <= 1 && (Somewhere(s, p) <==> Places(s)[p] == 1)
    {
      AtMostOnceHolds(s, p);
      SomewhereCount(s, p);
    }
    forall p: Pid ensures Pids(|s.procs|)[p] == if 1 <= p <= |s.procs| then 1 else 0 { PidsOnce(|s.procs|, p); }
    InvConserved(s);
    if AllOwned(s) {
      forall p: Pid ensures Places(s)[p] == Pids(|s.procs|)[p] {
        if 1 <= p <= |s.procs| { assert Somewhere(s, p); }
      }
      assert Places(s) == Pids(|s.procs|);
    }
  }

  lemma SomewhereCount(s: Sys, p: Pid)
    requires Inv(s) && 1 <= p <= |s.procs|
    ensures Places(s)[p] <= 1 && (Somewhere(s, p) <==> Places(s)[p] == 1)
  {
    hide Places, Inv, Ready, Taken;
    PlaceCounts(s, p);
  }

  lemma InvConserved(s: Sys)
    requires Inv(s)
    ensures Conserved(s)
  {
  }

  /** Exactly when no process is lost.  Over any run, with any number of
      processes, every loaded process is in exactly one place in every state if
      and only if every load and every put-back met a level with room (and every
      load a priority that has a level). */
  lemma OwnedIffRoom(run: seq<Sys>, steps: seq<Step>)
    requires IsRunBy(run, steps)
    ensures (forall j :: 0 <= j < |run| ==> AllOwned(run[j]))
        <==> (forall j :: 0 <= j < |steps| ==> LevelRoom(run[j], steps[j]))
  {
    hide Next, Init, LevelRoom, AllOwned, Placed, Listed, Inv, Conserved;
    RunByIsRun(run, steps);
    forall j | 0 <= j < |run| ensures AllOwned(run[j]) <==> Placed(run[j]) {
      RunInv(run, j);
      AllOwnedIsPlaced(run[j]);
    }
    forall j | 0 <= j < |steps|
      ensures if LevelRoom(run[j], steps[j]) then Placed(run[j]) ==> Placed(run[j + 1]) else !Placed(run[j + 1])
    {
      RunInv(run, j);
      NextInv(run[j], steps[j], run[j + 1]);
    }
    if forall j :: 0 <= j < |steps| ==> LevelRoom(run[j], steps[j]) { PlacedThroughout(run, steps); }
    if forall j :: 0 <= j < |run| ==> AllOwned(run[j]) {
      forall j | 0 <= j < |steps| ensures LevelRoom(run[j], steps[j]) { assert AllOwned(run[j + 1]); }
    }
  }

  lemma PlacedThroughout(run: seq<Sys>, steps: seq<Step>)
    requires IsRunBy(run, steps)
    requires forall j :: 0 <= j < |steps| && Placed(run[j]) ==> Placed(run[j + 1])
    ensures forall j :: 0 <= j < |run| ==> Placed(run[j])
  {
    hide Next, Placed;
    InitInv(run[0]);
    var n := 0;
    while n < |steps|
      invariant 0 <= n <= |steps|
      invariant forall j :: 0 <= j <= n ==> Placed(run[j])
    {
      assert Placed(run[n]);
      n := n + 1;
    }
  }

  // ---- At most fifty processes ----------------------------------------------

  lemma ProcsGrow(s: Sys, step: Step, s': Sys)
    requires Next(s, step) == Some(s')
    ensures |s.procs| <= |s'.procs| && |s'.cpus| == |s.cpus| && s'.timeSlot == s.timeSlot
    ensures forall i :: 0 <= i < |s.procs| ==> s'.procs[i].prio == s.procs[i].prio
    ensures step.Load? ==> |s'.procs| == |s.procs| + 1 && s'.procs[|s.procs|].prio == step.prio
  {
    hide Get, Put, FirstReady, Add;
  }

  /** At most 50 processes, each with a priority that has a level. */
  predicate Fifty(s: Sys) { |s.procs| <= CAP && forall i :: 0 <= i < |s.procs| ==> s.procs[i].prio < LEVELS }

  /** With at most 50 processes a step finds room in the level it enqueues to and
      in the running list. */
  lemma RoomForFifty(s: Sys, step: Step, s': Sys)
    requires Inv(s) && Next(s, step) == Some(s') && Fifty(s')
    ensures LevelRoom(s, step) && ListRoom(s, step)
  {
    hide CpuNext, Conserved, Get;
    ProcsGrow(s, step, s');
    match step {
      case Load(prio, _) => QueueRoom(s, prio);
      case LoadDone =>
      case CpuStep(c) =>
        if PutsBack(s, c) {
          HeldElsewhere(s, c);
          QueueRoom(s, s.procs[s.cpus[c].proc - 1].prio);
        }
        if Get(s.sched).1 != 0 {
          var k := DispatchLevel(s);
          QueueRoom(s, k);
        }
    }
  }

  lemma DispatchLevel(s: Sys) returns (k: nat)
    requires Get(s.sched).1 != 0
    ensures k < LEVELS && s.sched.mlq[k] != [] && Get(s.sched).1 == s.sched.mlq[k][0]
    ensures forall i :: 0 <= i < k ==> s.sched.mlq[i] == []
  {
    hide FirstReady;
    k := FirstReady(s.sched.mlq, 0);
  }

  lemma {:induction false} FiftyInv(run: seq<Sys>, j: nat)
    requires IsRun(run) && j < |run| && Fifty(run[j])
    ensures Inv(run[j]) && Placed(run[j]) && Listed(run[j])
    decreases j
  {
    hide Next, Inv, Placed, Listed, LevelRoom, ListRoom, Conserved;
    if j == 0 {
      InitInv(run[0]);
    } else {
      assert Follows(run[j - 1], run[j - 1 + 1]);
      var step :| Next(run[j - 1], step) == Some(run[j]);
      ProcsGrow(run[j - 1], step, run[j]);
      FiftyInv(run, j - 1);
      RoomForFifty(run[j - 1], step, run[j]);
      NextInv(run[j - 1], step, run[j]);
    }
  }

  /** With at most 50 processes loaded, each is in exactly one place: its own
      level's queue (once, and in no other level), one CPU (and no other), or
      finished. */
  lemma ExactlyOnePlace(run: seq<Sys>, j: nat)
    requires IsRun(run) && j < |run| && Fifty(run[j])
    ensures AllOwned(run[j])
  {
    hide AllOwned, Placed;
    FiftyInv(run, j);
    AllOwnedIsPlaced(run[j]);
  }

  /** With at most 50 processes the queue-full branch is never reached: a step that
      enqueues finds room in the level it enqueues to, and one that dispatches
      finds room in the running list. */
  lemma NeverFull(run: seq<Sys>, j: nat, step: Step)
    requires IsRun(run) && j + 1 < |run| && Next(run[j], step) == Some(run[j + 1]) && Fifty(run[j + 1])
    ensures LevelRoom(run[j], step) && ListRoom(run[j], step)
  {
    hide Next, LevelRoom, ListRoom;
    RunInv(run, j);
    RoomForFifty(run[j], step, run[j + 1]);
  }

  // ---- The running list -----------------------------------------------------

  /** The running list holds each taken and each finished process, and nothing
      else. */
  predicate ListExact(s: Sys) {
    forall p: Pid :: 1 <= p <= |s.procs| ==> (p in s.sched.running <==> Taken(s, p) || p in s.finished)
  }

  /** In every reachable state the running list has no duplicates and holds only
      taken and finished processes. */
  lemma RunningListSound(run: seq<Sys>, j: nat, p: Pid)
    requires IsRun(run) && j < |run|
    ensures multiset(run[j].sched.running)[p] <= 1
    ensures p in run[j].sched.running ==> 1 <= p <= |run[j].procs| && (Taken(run[j], p) || p in run[j].finished)
  {
    RunInv(run, j);
    RunningCount(run[j], p);
  }

  lemma RunningCount(s: Sys, p: Pid)
    requires Inv(s)
    ensures multiset(s.sched.running)[p] <= Out(s)[p] <= 1
    ensures Out(s)[p] == 1 <==> 1 <= p <= |s.procs| && (Taken(s, p) || p in s.finished)
  {
    hide Union, Held, Pids, Taken;
    PidsOnce(|s.procs|, p);
    assert Places(s)[p] == Union(s.sched.mlq)[p] + Out(s)[p];
    if 1 <= p <= |s.procs| { PlaceCounts(s, p); }
  }

  lemma ListExactIsListed(s: Sys)
    requires Inv(s)
    ensures ListExact(s) <==> Listed(s)
  {
    hide Out, Taken, Inv;
    var running := multiset(s.sched.running);
    forall p: Pid
      ensures running[p] <= Out(s)[p] <= 1
      ensures Out(s)[p] == 1 <==> 1 <= p <= |s.procs| && (Taken(s, p) || p in s.finished)
    {
      RunningCount(s, p);
    }
    if ListExact(s) {
      forall p: Pid ensures running[p] == Out(s)[p] {
        if Out(s)[p] == 1 { assert p in s.sched.running; }
      }
      assert running == Out(s);
    }
    if Listed(s) {
      forall p: Pid | 1 <= p <= |s.procs| ensures p in s.sched.running <==> Taken(s, p) || p in s.finished {
        assert p in s.sched.running <==> running[p] > 0;
      }
    }
  }

  /** Over any run, the running list is exact in every state if and only if every
      dispatch found room in it.  (Finished processes are never removed from it.) */
  lemma ListExactIffRoom(run: seq<Sys>, steps: seq<Step>)
    requires IsRunBy(run, steps)
    ensures (forall j :: 0 <= j < |run| ==> ListExact(run[j]))
        <==> (forall j :: 0 <= j < |steps| ==> ListRoom(run[j], steps[j]))
  {
    hide Next, Init, ListRoom, ListExact, Placed, Listed, Inv, Conserved;
    RunByIsRun(run, steps);
    forall j | 0 <= j < |run| ensures ListExact(run[j]) <==> Listed(run[j]) {
      RunInv(run, j);
      ListExactIsListed(run[j]);
    }
    forall j | 0 <= j < |steps|
      ensures if ListRoom(run[j], steps[j]) then Listed(run[j]) ==> Listed(run[j + 1]) else !Listed(run[j + 1])
    {
      RunInv(run, j);
      NextInv(run[j], steps[j], run[j + 1]);
    }
    if forall j :: 0 <= j < |steps| ==> ListRoom(run[j], steps[j]) { ListedThroughout(run, steps); }
    if forall j :: 0 <= j < |run| ==> ListExact(run[j]) {
      forall j | 0 <= j < |steps| ensures ListRoom(run[j], steps[j]) { assert ListExact(run[j + 1]); }
    }
  }

  lemma ListedThroughout(run: seq<Sys>, steps: seq<Step>)
    requires IsRunBy(run, steps)
    requires forall j :: 0 <= j < |steps| && Listed(run[j]) ==> Listed(run[j + 1])
    ensures forall j :: 0 <= j < |run| ==> Listed(run[j])
  {
    hide Next, Listed;
    InitInv(run[0]);
    var n := 0;
    while n < |steps|
      invariant 0 <= n <= |steps|
      invariant forall j :: 0 <= j <= n ==> Listed(run[j])
    {
      assert Listed(run[n]);
      n := n + 1;
    }
  }

  /** With at most 50 processes loaded the running list is exact. */
  lemma RunningListExact(run: seq<Sys>, j: nat)
    requires IsRun(run) && j < |run| && Fifty(run[j])
    ensures ListExact(run[j])
  {
    hide ListExact, Listed;
    FiftyInv(run, j);
    ListExactIsListed(run[j]);
  }

  // ---- How a process is lost ------------------------------------------------

  /** The process a load or a put-back enqueues. */
  function Subject(s: Sys, step: Step): Pid {
    if step.CpuStep? && step.c < |s.cpus| then s.cpus[step.c].proc else |s.procs| + 1
  }

  /** A load or a put-back leaves its process ready exactly when its level exists
      and has room; otherwise the process is in no queue, on no CPU and not finished. */
  lemma EnqueuedIffRoom(s: Sys, step: Step, s': Sys)
    requires Inv(s) && Next(s, step) == Some(s') && (step.Load? || (step.CpuStep? && PutsBack(s, step.c)))
    ensures var p := Subject(s, step);
            && 1 <= p <= |s'.procs| && (Ready(s', p) <==> LevelRoom(s, step))
            && !Taken(s', p) && p !in s'.finished
  {
    hide Union, Held, Pids, Conserved, Purge;
    var p := Subject(s, step);
    if step.Load? {
      assert LevelOk(s, step.prio);
      if step.prio < LEVELS { Enqueued(s, p, step.prio, step.prio); }
      forall c | 0 <= c < |s.cpus| ensures s.cpus[c].proc != p { assert CpuOk(s, c); }
    } else {
      HeldElsewhere(s, step.c);
      var prio := s.procs[p - 1].prio;
      Enqueued(s, p, prio, prio);
    }
  }

  /** There are 140 levels of 50 places: a process of any priority below 140 that
      is loaded while fewer than 50 wait at its level becomes ready, and one of any
      other priority does not. */
  lemma LoadedIsReady(s: Sys, prio: nat, size: nat)
    requires Inv(s) && !s.loaded
    ensures var s' := Next(s, Load(prio, size)).value; var p := |s.procs| + 1;
            && (prio < 140 && |s.sched.mlq[prio]| < 50 ==> Ready(s', p))
            && (prio >= 140 ==> !Ready(s', p))
            && s'.procs == s.procs + [Pcb(prio, size, 0, [])]
  {
    hide Add, Note, Inv;
    EnqueuedIffRoom(s, Load(prio, size), Next(s, Load(prio, size)).value);
  }

  /** Every load of the run found room in its level. */
  predicate LoadsMetRoom(run: seq<Sys>, steps: seq<Step>)
    requires |run| == |steps| + 1
  {
    forall j :: 0 <= j < |steps| && steps[j].Load? ==> LevelRoom(run[j], steps[j])
  }

  /** A run can be continued by any enabled step. */
  lemma Extend(run: seq<Sys>, steps: seq<Step>, step: Step) returns (run': seq<Sys>, steps': seq<Step>)
    requires IsRunBy(run, steps) && Next(run[|steps|], step).Some?
    ensures IsRunBy(run', steps') && |steps'| == |steps| + 1
    ensures run'[|steps'|] == Next(run[|steps|], step).value && Inv(run'[|steps'|])
    ensures LoadsMetRoom(run, steps) && (step.Load? ==> LevelRoom(run[|steps|], step)) ==> LoadsMetRoom(run', steps')
  {
    hide Next, Init, LevelRoom, Inv;
    run', steps' := run + [Next(run[|steps|], step).value], steps + [step];
    RunByIsRun(run', steps');
    RunInv(run', |steps'|);
  }

  function Least(a: nat, b: nat): nat { if a < b then a else b }

  /** What n loads of two-instruction programs at level 0 add, and what they leave
      unchanged. */
  predicate LoadedMore(s: Sys, t: Sys, n: nat) {
    && !t.loaded && t.timeSlot == s.timeSlot && t.cpus == s.cpus
    && |t.procs| == |s.procs| + n && s.procs <= t.procs
    && (forall i :: |s.procs| <= i < |t.procs| ==> t.procs[i] == Pcb(0, 2, 0, []))
    && |t.sched.mlq[0]| == Least(CAP, |s.sched.mlq[0]| + n)
  }

  lemma OneLoad(s: Sys)
    requires !s.loaded && |s.sched.mlq[0]| <= CAP
    ensures Next(s, Load(0, 2)).Some? && LoadedMore(s, Next(s, Load(0, 2)).value, 1)
  {
    Enqueued(s, |s.procs| + 1, 0, 0);
  }

  lemma {:induction false} LoadMore(run: seq<Sys>, steps: seq<Step>, n: nat)
    returns (run': seq<Sys>, steps': seq<Step>)
    requires IsRunBy(run, steps) && !run[|steps|].loaded && |run[|steps|].sched.mlq[0]| <= CAP
    ensures IsRunBy(run', steps') && |steps'| == |steps| + n
    ensures LoadedMore(run[|steps|], run'[|steps'|], n) && Inv(run'[|steps'|])
    ensures LoadsMetRoom(run, steps) && |run[|steps|].sched.mlq[0]| + n <= CAP ==> LoadsMetRoom(run', steps')
    decreases n
  {
    hide Next, Inv, Init, LoadsMetRoom;
    run', steps' := run, steps;
    if n > 0 {
      run', steps' := LoadMore(run, steps, n - 1);
      OneLoad(run'[|steps'|]);
      run', steps' := Extend(run', steps', Load(0, 2));
    } else {
      RunByIsRun(run, steps);
      RunInv(run, |steps|);
    }
  }

  /** One CPU, a time slot of 1, nothing loaded. */
  function Start(): Sys {
    Sys(1, Sched(seq(LEVELS, _ => []), [], 0, 0), [], [Cpu(Top, 0, 0, 0)], false, [],
        seq(LEVELS, _ => []), seq(LEVELS, _ => []))
  }

  /** A run that loses a process at a load: 51 processes of priority 0 are loaded
      before any CPU moves, and the last is nowhere. */
  lemma LostAtLoad() returns (run: seq<Sys>, steps: seq<Step>)
    ensures IsRunBy(run, steps) && |steps| == 51
    ensures |run[51].procs| == 51 && !Somewhere(run[51], 51)
  {
    hide Next, Inv;
    run, steps := LoadMore([Start()], [], 50);
    var s := run[50];
    OneLoad(s);
    EnqueuedIffRoom(s, Load(0, 2), Next(s, Load(0, 2)).value);
    run, steps := Extend(run, steps, Load(0, 2));
  }

  /** The idle CPU takes process 1, the only one loaded. */
  lemma TakeFirst(s: Sys)
    requires Inv(s) && !s.loaded && s.timeSlot == 1 && s.cpus == [Cpu(Top, 0, 0, 0)]
    requires s.procs == [Pcb(0, 2, 0, [])] && |s.sched.mlq[0]| == 1
    ensures Next(s, CpuStep(0)).Some?
    ensures var t := Next(s, CpuStep(0)).value;
            && !t.loaded && t.timeSlot == 1 && t.procs == s.procs && t.sched.mlq[0] == []
            && t.cpus == [Cpu(Recheck, 1, 0, 0)]
  {
    hide FirstReady;
    assert LevelOk(s, 0);
    assert s.sched.mlq[0][0] in s.sched.mlq[0];
    FirstReadyIs(s.sched.mlq, 0);
  }

  /** A slice of one instruction: recheck, run, next slot, and then the put. */
  lemma SliceOfOne(s: Sys)
    requires s.timeSlot == 1 && s.cpus == [Cpu(Recheck, 1, 0, 0)] && |s.procs| >= 1 && s.procs[0] == Pcb(0, 2, 0, [])
    ensures Next(s, CpuStep(0)).Some?
    ensures var s1 := Next(s, CpuStep(0)).value;
            && Next(s1, CpuStep(0)).Some?
            && var s2 := Next(s1, CpuStep(0)).value;
               && Next(s2, CpuStep(0)).Some?
               && var s3 := Next(s2, CpuStep(0)).value;
                  && PutsBack(s3, 0) && s3.cpus[0].proc == 1 && s3.procs[0].prio == 0
                  && s3.sched == s.sched && |s3.procs| == |s.procs| && Next(s3, CpuStep(0)).Some?
                  && |Next(s3, CpuStep(0)).value.procs| == |s.procs|
  {
    hide Put, Get, Note;
  }

  /** A run that loses a process at a put-back although every load found room: a
      CPU takes the first process, 50 more fill its level, and when its slice is
      over it is put back to a full level. */
  lemma LostAtPut() returns (run: seq<Sys>, steps: seq<Step>)
    ensures IsRunBy(run, steps) && LoadsMetRoom(run, steps)
    ensures |run[|steps|].procs| == 51 && !Somewhere(run[|steps|], 1)
  {
    hide Next, Inv, LoadsMetRoom, Init, Somewhere;
    run, steps := StartRun();
    run, steps := LoadMore(run, steps, 1);
    TakeFirst(run[|steps|]);
    run, steps := Extend(run, steps, CpuStep(0));
    run, steps := LoadMore(run, steps, 50);
    SliceOfOne(run[|steps|]);
    run, steps := Extend(run, steps, CpuStep(0));
    run, steps := Extend(run, steps, CpuStep(0));
    run, steps := Extend(run, steps, CpuStep(0));
    PutLoses(run[|steps|]);
    run, steps := Extend(run, steps, CpuStep(0));
  }

  lemma StartRun() returns (run: seq<Sys>, steps: seq<Step>)
    ensures IsRunBy(run, steps) && |steps| == 0 && run == [Start()] && LoadsMetRoom(run, steps)
  {
    run, steps := [Start()], [];
  }

  lemma PutLoses(s: Sys)
    requires Inv(s) && PutsBack(s, 0) && s.cpus[0].proc == 1 && s.procs[0].prio == 0 && |s.sched.mlq[0]| >= CAP
    requires Next(s, CpuStep(0)).Some?
    ensures !Somewhere(Next(s, CpuStep(0)).value, 1)
  {
    hide Next, Inv, Ready, Taken;
    EnqueuedIffRoom(s, CpuStep(0), Next(s, CpuStep(0)).value);
  }

  // ---- Strict priority ------------------------------------------------------

  /** Strict priority, for any number of processes.  Whenever get_proc returns a
      process, that process is the head of its own priority's queue, and no ready
      process has a better priority; the scheduler's state names that priority and
      its first slot.  It returns none only when no process is ready, and the state
      is then reset. */
  lemma StrictPriority(run: seq<Sys>, j: nat)
    requires IsRun(run) && j < |run|
    ensures var s := run[j]; var (sched, p) := Get(s.sched);
            && (p == 0 <==> forall k :: 0 <= k < LEVELS ==> s.sched.mlq[k] == [])
            && (p == 0 ==> sched == s.sched.(currentPrio := 0, currentSlot := 0))
            && (p != 0 ==>
                  && Ready(s, p) && s.sched.mlq[s.procs[p - 1].prio][0] == p
                  && sched.currentPrio == s.procs[p - 1].prio && sched.currentSlot == 1
                  && forall q :: Ready(s, q) ==> s.procs[p - 1].prio <= s.procs[q - 1].prio)
  {
    hide FirstReady;
    RunInv(run, j);
    var s := run[j];
    var k := FirstReady(s.sched.mlq, 0);
    if k < LEVELS {
      var p := s.sched.mlq[k][0];
      assert LevelOk(s, k);
      assert p in s.sched.mlq[k];
      assert Get(s.sched).1 == p;
    }
  }

  // ---- First come, first served within a level ------------------------------

  lemma HistoryGrows(s: Sys, step: Step, s': Sys, k: nat)
    requires Next(s, step) == Some(s') && k < LEVELS
    ensures s.enq[k] <= s'.enq[k] && s.disp[k] <= s'.disp[k]
  {
    hide Get, Put, FirstReady, Add, Execute;
  }

  lemma {:induction false} HistoriesGrow(run: seq<Sys>, i: nat, j: nat, k: nat)
    requires IsRun(run) && i <= j < |run| && k < LEVELS
    ensures run[i].enq[k] <= run[j].enq[k] && run[i].disp[k] <= run[j].disp[k]
    decreases j
  {
    hide Next, Init;
    if i < j {
      HistoriesGrow(run, i, j - 1, k);
      assert Follows(run[j - 1], run[j - 1 + 1]);
      var step :| Next(run[j - 1], step) == Some(run[j]);
      HistoryGrows(run[j - 1], step, run[j], k);
    }
  }

  /** Per-level FIFO.  A process waiting at position pos of level k is dispatched
      by exactly the (pos + 1)-th dispatch of that level from then on: until that
      dispatch it waits, that many places further up. */
  lemma FifoWait(run: seq<Sys>, i: nat, j: nat, k: nat, pos: nat)
    requires IsRun(run) && i <= j < |run|
    requires k < LEVELS && pos < |run[i].sched.mlq[k]|
    ensures var p := run[i].sched.mlq[k][pos];
            var since := |run[j].disp[k]| - |run[i].disp[k]|;
            && since >= 0
            && (since <= pos ==> pos - since < |run[j].sched.mlq[k]| && run[j].sched.mlq[k][pos - since] == p)
            && (since > pos ==> run[j].disp[k][|run[i].disp[k]| + pos] == p)
  {
    hide IsRun, Conserved, CpuOk, PcbOk;
    RunInv(run, i);
    RunInv(run, j);
    HistoriesGrow(run, i, j, k);
    assert LevelOk(run[i], k) && LevelOk(run[j], k);
    HistoryFifo(run[i].disp[k], run[i].sched.mlq[k], run[j].disp[k], run[j].sched.mlq[k], pos);
  }

  /** If the history d + q grows to d' + q' and d to d', the element at position
      pos of q is in q' that much further up, or next in d'. */
  lemma HistoryFifo(d: seq<Pid>, q: seq<Pid>, d': seq<Pid>, q': seq<Pid>, pos: nat)
    requires d + q <= d' + q' && d <= d' && pos < |q|
    ensures |d'| - |d| <= pos ==> |d| + pos - |d'| < |q'| && q'[|d| + pos - |d'|] == q[pos]
    ensures |d'| - |d| > pos ==> d'[|d| + pos] == q[pos]
  {
    var n := |d| + pos;
    assert (d + q)[n] == q[pos] && (d' + q')[n] == (d + q)[n];
  }

  // ---- The turns of a CPU ---------------------------------------------------

  /** A CPU that is not stopped always has a next action. */
  lemma CpuProgress(s: Sys, c: nat)
    requires Inv(s) && c < |s.cpus| && s.cpus[c].at != Stopped
    ensures Next(s, CpuStep(c)).Some?
  {
    hide Put, Get, Note, Execute, Conserved;
    assert CpuOk(s, c);
  }

  /** n actions of CPU c in a row. */
  function Turns(s: Sys, c: nat, n: nat): Option<Sys>
    decreases n
  {
    if n == 0 then Some(s)
    else
      var t := Next(s, CpuStep(c));
      if t.None? then None else Turns(t.value, c, n - 1)
  }

  /** CPU c has process p for one instruction of a slice that leaves timeLeft, and
      waits for the next slot. */
  predicate RanOne(s: Sys, t: Sys, c: nat, p: Pid, timeLeft: int)
    requires c < |s.cpus|
  {
    && 0 < p <= |s.procs| && t.procs == s.procs[p - 1 := Execute(s.procs[p - 1])]
    && |t.cpus| == |s.cpus| && t.cpus[c].at == Slot && t.cpus[c].proc == p && t.cpus[c].timeLeft == timeLeft
  }

  lemma TurnsStep(s: Sys, c: nat, n: nat)
    ensures Turns(s, c, 0) == Some(s)
    ensures Next(s, CpuStep(c)).Some? ==> Turns(s, c, n + 1) == Turns(Next(s, CpuStep(c)).value, c, n)
  {
    hide Next;
  }

  lemma SliceStep(s: Sys, c: nat)
    requires Inv(s) && c < |s.cpus| && s.cpus[c].at == Recheck && s.cpus[c].proc != 0
    ensures 0 < s.cpus[c].proc <= |s.procs| && Next(s, CpuStep(c)).Some?
    ensures var t := Next(s, CpuStep(c)).value;
            && t.sched == s.sched && t.finished == s.finished && t.procs == s.procs && |t.cpus| == |s.cpus|
            && t.cpus[c].at == RunOne && t.cpus[c].proc == s.cpus[c].proc
            && t.cpus[c].timeLeft == if s.cpus[c].timeLeft == 0 then s.timeSlot else s.cpus[c].timeLeft
  {
    hide Conserved;
    assert CpuOk(s, c);
  }

  lemma ExecuteStep(s: Sys, c: nat)
    requires c < |s.cpus| && s.cpus[c].at == RunOne && 0 < s.cpus[c].proc <= |s.procs|
    ensures var t := Next(s, CpuStep(c));
            && t.Some? && t.value.sched == s.sched && t.value.finished == s.finished
            && RanOne(s, t.value, c, s.cpus[c].proc, s.cpus[c].timeLeft - 1)
  {
    hide Execute;
  }

  lemma RunPart(s: Sys, c: nat)
    requires Inv(s) && c < |s.cpus| && s.cpus[c].at == Recheck && s.cpus[c].proc != 0
    ensures var t := Turns(s, c, 2);
            && t.Some? && t.value.sched == s.sched && t.value.finished == s.finished
            && RanOne(s, t.value, c, s.cpus[c].proc,
                      (if s.cpus[c].timeLeft == 0 then s.timeSlot else s.cpus[c].timeLeft) - 1)
  {
    hide Next, Inv, Turns, Execute;
    SliceStep(s, c);
    var s1 := Next(s, CpuStep(c)).value;
    ExecuteStep(s1, c);
    TurnsStep(s, c, 1);
    TurnsStep(s1, c, 0);
    TurnsStep(Next(s1, CpuStep(c)).value, c, 0);
  }

  /** What a CPU does with what get_proc gave it: run one instruction of a new slice;
      or, with nothing to run, stop if and only if loading is done. */
  predicate AfterGet(s: Sys, t: Sys, c: nat, got: Pid)
    requires c < |s.cpus|
  {
    if got != 0 then RanOne(s, t, c, got, s.timeSlot - 1)
    else
      && t.procs == s.procs && |t.cpus| == |s.cpus| && t.cpus[c].proc == 0
      && t.cpus[c].at == if s.loaded then Stopped else Slot
  }

  /** get_proc by a CPU without a process: what it got is in its hands. */
  predicate Took(s: Sys, t: Sys, c: nat, at: CpuPc)
    requires c < |s.cpus|
  {
    && t.sched == Get(s.sched).0 && t.procs == s.procs && t.finished == s.finished
    && t.loaded == s.loaded && t.timeSlot == s.timeSlot
    && t.cpus == s.cpus[c := s.cpus[c].(at := at, proc := Get(s.sched).1)]
  }

  lemma GetStep(s: Sys, c: nat)
    requires Inv(s) && Gets(s, c)
    ensures var t := Next(s, CpuStep(c));
            && t.Some? && s.cpus[c].proc == 0 && s.cpus[c].timeLeft == 0
            && Took(s, t.value, c, if Get(s.sched).1 == 0 && s.cpus[c].at == Top then Slot else Recheck)
  {
    hide FirstReady, Conserved, Get;
    assert CpuOk(s, c);
  }

  lemma RecheckStep(s: Sys, c: nat)
    requires c < |s.cpus| && s.cpus[c].at == Recheck && s.cpus[c].proc == 0
    ensures Next(s, CpuStep(c)) == Some(s.(cpus := s.cpus[c := s.cpus[c].(at := if s.loaded then Stopped else Slot)]))
  {
  }

  lemma GetAndRun(s: Sys, c: nat)
    requires Inv(s) && c < |s.cpus| && s.cpus[c].at == GetNext && Get(s.sched).1 != 0
    ensures var t := Turns(s, c, 3); var (sched, got) := Get(s.sched);
            && t.Some? && RanOne(s, t.value, c, got, s.timeSlot - 1)
            && t.value.finished == s.finished && t.value.sched == sched
  {
    hide Turns, Get, Next, Inv, RanOne;
    GetStep(s, c);
    var s1 := Next(s, CpuStep(c)).value;
    NextInv(s, CpuStep(c), s1);
    RunPart(s1, c);
    TurnsStep(s, c, 2);
    RanCarries(s, s1, Turns(s1, c, 2).value, c, Get(s.sched).1, s.timeSlot - 1);
  }

  lemma GetAndLeave(s: Sys, c: nat)
    requires Inv(s) && c < |s.cpus| && s.cpus[c].at == GetNext && Get(s.sched).1 == 0
    ensures var t := Turns(s, c, 2);
            t.Some? && AfterGet(s, t.value, c, 0) && t.value.finished == s.finished && t.value.sched == Get(s.sched).0
  {
    hide Turns, Get, Next, Inv, RanOne;
    GetStep(s, c);
    var s1 := Next(s, CpuStep(c)).value;
    RecheckStep(s1, c);
    TurnsStep(s, c, 1);
    TurnsStep(s1, c, 0);
    TurnsStep(Next(s1, CpuStep(c)).value, c, 0);
  }

  lemma GetPart(s: Sys, c: nat) returns (n: nat)
    requires Inv(s) && c < |s.cpus| && s.cpus[c].at == GetNext
    ensures n <= 3 && var t := Turns(s, c, n); var (sched, got) := Get(s.sched);
                      && t.Some? && AfterGet(s, t.value, c, got)
                      && t.value.finished == s.finished && t.value.sched == sched
  {
    hide Turns, Get, Inv, RanOne;
    if Get(s.sched).1 != 0 {
      GetAndRun(s, c);
      n := 3;
    } else {
      GetAndLeave(s, c);
      n := 2;
    }
  }

  /** The CPU gives its process up, as finished or by putting it back. */
  lemma GiveUpStep(s: Sys, c: nat)
    requires Inv(s) && c < |s.cpus| && s.cpus[c].at == Top && s.cpus[c].proc != 0
    ensures s.cpus[c].proc <= |s.procs| && Next(s, CpuStep(c)).Some?
    ensures var t := Next(s, CpuStep(c)).value; var cpu := s.cpus[c]; var pcb := s.procs[cpu.proc - 1];
            && t.procs == s.procs && t.loaded == s.loaded && t.timeSlot == s.timeSlot && |t.cpus| == |s.cpus|
            && if pcb.pc == pcb.size then
                 t.sched == s.sched && t.finished == s.finished + [cpu.proc] && t.cpus[c].at == GetNext
               else if cpu.timeLeft == 0 then
                 t.sched == Put(s.sched, cpu.proc, pcb.prio) && t.finished == s.finished && t.cpus[c].at == GetNext
               else
                 t.sched == s.sched && t.finished == s.finished && t.cpus[c] == cpu.(at := Recheck)
  {
    hide Put, Note, Conserved;
    assert CpuOk(s, c);
  }

  lemma RanCarries(s: Sys, s1: Sys, t: Sys, c: nat, p: Pid, timeLeft: int)
    requires c < |s.cpus| == |s1.cpus| && s1.procs == s.procs
    ensures RanOne(s1, t, c, p, timeLeft) == RanOne(s, t, c, p, timeLeft)
  {
    hide Execute;
  }

  lemma AfterGetCarries(s: Sys, s1: Sys, t: Sys, c: nat, got: Pid)
    requires c < |s.cpus| == |s1.cpus| && s1.procs == s.procs && s1.loaded == s.loaded && s1.timeSlot == s.timeSlot
    ensures AfterGet(s1, t, c, got) == AfterGet(s, t, c, got)
  {
    hide RanOne;
    if got != 0 { RanCarries(s, s1, t, c, got, s.timeSlot - 1); }
  }

  /** A turn of cpu_routine's loop is its own actions from the top of the loop up to
      next_slot or the exit.  Without a process, the CPU takes the best ready one
      and runs an instruction of it; with none ready it waits for the next slot, and
      does not look at `done`. */
  lemma TurnIdle(s: Sys, c: nat) returns (n: nat)
    requires Inv(s) && c < |s.cpus| && s.cpus[c].at == Top && s.cpus[c].proc == 0
    ensures n <= 3 && Turns(s, c, n).Some?
    ensures var t := Turns(s, c, n).value; var (sched, got) := Get(s.sched);
            && t.sched == sched && t.finished == s.finished
            && if got != 0 then RanOne(s, t, c, got, s.timeSlot - 1)
               else t.procs == s.procs && t.cpus == s.cpus[c := s.cpus[c].(at := Slot)]
  {
    hide FirstReady, Execute, Turns, Get, Next, Inv, RanOne;
    GetStep(s, c);
    var s1 := Next(s, CpuStep(c)).value;
    NextInv(s, CpuStep(c), s1);
    if Get(s.sched).1 == 0 {
      TurnsStep(s, c, 0);
      TurnsStep(s1, c, 0);
      n := 1;
    } else {
      RunPart(s1, c);
      TurnsStep(s, c, 2);
      RanCarries(s, s1, Turns(s1, c, 2).value, c, Get(s.sched).1, s.timeSlot - 1);
      n := 3;
    }
  }

  /** With a finished process the CPU drops it, with a used-up slice it puts the
      process back, and then takes the best ready one; with nothing to take it stops
      if and only if loading is done. */
  lemma TurnGivesUp(s: Sys, c: nat) returns (n: nat)
    requires Inv(s) && c < |s.cpus| && s.cpus[c].at == Top && 0 < s.cpus[c].proc <= |s.procs|
    requires s.procs[s.cpus[c].proc - 1].pc == s.procs[s.cpus[c].proc - 1].size || s.cpus[c].timeLeft == 0
    ensures n <= 4 && Turns(s, c, n).Some?
    ensures var t := Turns(s, c, n).value; var cpu := s.cpus[c]; var pcb := s.procs[cpu.proc - 1];
            var (sched, got) := Get(if pcb.pc == pcb.size then s.sched else Put(s.sched, cpu.proc, pcb.prio));
            && t.sched == sched && AfterGet(s, t, c, got)
            && t.finished == s.finished + if pcb.pc == pcb.size then [cpu.proc] else []
  {
    hide FirstReady, Execute, Turns, Get, Put, Next, Inv, AfterGet;
    GiveUpStep(s, c);
    var s1 := Next(s, CpuStep(c)).value;
    NextInv(s, CpuStep(c), s1);
    var m := GetPart(s1, c);
    TurnsStep(s, c, m);
    n := m + 1;
    AfterGetCarries(s, s1, Turns(s1, c, m).value, c, Get(s1.sched).1);
  }

  /** Inside a slice the CPU runs one more instruction. */
  lemma TurnRuns(s: Sys, c: nat)
    requires Inv(s) && c < |s.cpus| && s.cpus[c].at == Top && 0 < s.cpus[c].proc <= |s.procs|
    requires s.procs[s.cpus[c].proc - 1].pc != s.procs[s.cpus[c].proc - 1].size && s.cpus[c].timeLeft != 0
    ensures Turns(s, c, 3).Some?
    ensures var t := Turns(s, c, 3).value;
            t.sched == s.sched && t.finished == s.finished && RanOne(s, t, c, s.cpus[c].proc, s.cpus[c].timeLeft - 1)
  {
    hide Execute, Turns, Put, Next, Inv, RanOne;
    GiveUpStep(s, c);
    var s1 := Next(s, CpuStep(c)).value;
    NextInv(s, CpuStep(c), s1);
    RunPart(s1, c);
    TurnsStep(s, c, 2);
    RanCarries(s, s1, Turns(s1, c, 2).value, c, s.cpus[c].proc, s.cpus[c].timeLeft - 1);
  }

  // ---- Stopping -------------------------------------------------------------

  /** A CPU that has stopped did so after loading was done. */
  lemma StoppedWhenDone(run: seq<Sys>, j: nat, c: nat)
    requires IsRun(run) && j < |run| && c < |run[j].cpus|
    ensures run[j].cpus[c].at == Stopped ==> run[j].loaded && run[j].cpus[c].proc == 0
  {
    RunInv(run, j);
    assert CpuOk(run[j], c);
  }

  /** A CPU waiting at the top of its loop without a process. */
  predicate Idle(s: Sys, c: nat) { c < |s.cpus| && s.cpus[c].proc == 0 && s.cpus[c].at in {Top, Slot} }

  lemma IdleStep(s: Sys, step: Step, s': Sys, c: nat)
    requires Next(s, step) == Some(s') && Idle(s, c) && c < |s'.cpus| && s'.cpus[c].proc == 0
    ensures Idle(s', c)
  {
    hide FirstReady, Execute, Get, Put, Note, Add;
  }

  /** An idle CPU never stops: as long as it gets no process it stays in its waiting
      loop, where `done` is not looked at. */
  lemma {:induction false} IdleNeverStops(run: seq<Sys>, i: nat, j: nat, c: nat)
    requires IsRun(run) && i <= j < |run| && Idle(run[i], c)
    requires forall m :: i <= m <= j ==> c < |run[m].cpus| && run[m].cpus[c].proc == 0
    ensures Idle(run[j], c)
    decreases j
  {
    hide Next, Idle, Init;
    if i < j {
      IdleNeverStops(run, i, j - 1, c);
      assert Follows(run[j - 1], run[j - 1 + 1]);
      var step :| Next(run[j - 1], step) == Some(run[j]);
      IdleStep(run[j - 1], step, run[j], c);
    }
  }

  // ---- Slices and work ------------------------------------------------------

  /** A process that is put back has executed exactly time_slot instructions since
      it was dispatched and has instructions left; with a time slot that is not
      positive no process is ever put back. */
  lemma SliceExact(run: seq<Sys>, j: nat, c: nat)
    requires IsRun(run) && j < |run| && PutsBack(run[j], c)
    ensures var s := run[j]; var pcb := s.procs[s.cpus[c].proc - 1];
            pcb.pc == s.cpus[c].startPc + s.timeSlot && pcb.pc < pcb.size && s.timeSlot > 0
  {
    RunInv(run, j);
    assert CpuOk(run[j], c) && PcbOk(run[j].procs[run[j].cpus[c].proc - 1]);
  }

  /** Whatever CPUs it ran on, a process has executed instructions 0, 1, 2, ... in
      order, each once; when it has finished, all of them. */
  lemma InOrder(run: seq<Sys>, j: nat, p: Pid)
    requires IsRun(run) && j < |run| && 1 <= p <= |run[j].procs|
    ensures var pcb := run[j].procs[p - 1];
            && pcb.pc <= pcb.size && pcb.trace == seq(pcb.pc, i => i)
            && (p in run[j].finished ==> pcb.trace == seq(pcb.size, i => i))
  {
    RunInv(run, j);
    assert PcbOk(run[j].procs[p - 1]);
  }

  /** Instructions still to be executed by the loaded processes. */
  function Work(procs: seq<Pcb>): int {
    if procs == [] then 0 else procs[0].size - procs[0].pc + Work(procs[1..])
  }

  lemma {:induction false} WorkUpdate(procs: seq<Pcb>, i: nat, p: Pcb)
    requires i < |procs|
    ensures Work(procs[i := p]) == Work(procs) - (procs[i].size - procs[i].pc) + (p.size - p.pc)
  {
    if i == 0 {
      assert procs[i := p][1..] == procs[1..];
    } else {
      assert procs[i := p][1..] == procs[1..][i - 1 := p];
      WorkUpdate(procs[1..], i - 1, p);
    }
  }

  lemma {:induction false} WorkNonNegative(procs: seq<Pcb>)
    requires forall p :: 0 <= p < |procs| ==> PcbOk(procs[p])
    ensures Work(procs) >= 0
  {
    if procs != [] {
      assert PcbOk(procs[0]);
      WorkNonNegative(procs[1..]);
    }
  }

  /** Total remaining work is never negative, drops by exactly one with each run
      of a non-empty program, and is left alone by every other CPU step. */
  lemma WorkMeasure(run: seq<Sys>, j: nat, c: nat)
    requires IsRun(run) && j + 1 < |run|
    requires Next(run[j], CpuStep(c)) == Some(run[j + 1])
    ensures var s, s' := run[j], run[j + 1];
            && Work(s'.procs) >= 0
            && Work(s'.procs) == Work(s.procs) - (if RunsOne(s, c) then 1 else 0)
  {
    hide Work, CpuNext, Conserved, Init;
    var s, s' := run[j], run[j + 1];
    ProcsGrow(s, CpuStep(c), s');
    RunInv(run, j);
    RunInv(run, j + 1);
    WorkNonNegative(s'.procs);
    assert CpuOk(s, c);
    WorkStep(s, c, s');
  }

  /** CPU c is about to run an instruction of a non-empty program. */
  predicate RunsOne(s: Sys, c: nat) {
    && c < |s.cpus| && s.cpus[c].at == RunOne && 0 < s.cpus[c].proc <= |s.procs|
    && s.procs[s.cpus[c].proc - 1].size > 0
  }

  lemma WorkStep(s: Sys, c: nat, s': Sys)
    requires c < |s.cpus| && CpuOk(s, c) && CpuNext(s, c) == Some(s')
    ensures Work(s'.procs) == Work(s.procs) - (if RunsOne(s, c) then 1 else 0)
  {
    hide Get, Put, FirstReady, Work, Note;
    var cpu := s.cpus[c];
    if cpu.at == RunOne && 0 < cpu.proc <= |s.procs| {
      WorkUpdate(s.procs, cpu.proc - 1, Execute(s.procs[cpu.proc - 1]));
    }
  }
}
