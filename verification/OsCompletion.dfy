/** How a run of the simulator ends (src/os.c:49-147, 275-293): every process is
    the configured job, some thread can always move, and when the CPUs have stopped
    no process is left waiting. */
module OsCompletion {
  import opened Wrappers
  import opened Queue
  import opened Scheduler
  import B = TimerBarrier
  import P = BarrierProgress
  import C = CpuLoop
  import L = Loader
  import R = SchedulerRuns
  import O = OsRuns

  // ---- The invariant --------------------------------------------------------

  /** The processes are the first i jobs, in order. */
  predicate JobsOk(jobs: seq<O.Job>, s: O.Os) {
    && |s.sys.procs| == s.i == |s.loads| <= |jobs|
    && forall k :: 0 <= k < s.i ==> s.sys.procs[k].prio == jobs[k].prio && s.sys.procs[k].size == jobs[k].size
  }

  /** A thread inside or past detach_event. */
  predicate Gone(d: B.Dev) { d.pc != B.Working && !L.InNextSlot(d.pc) }

  /** Whether the slot of the last load is over. */
  predicate LoadsOver(s: O.Os) { |s.loads| > 0 ==> s.loads[|s.loads| - 1] < s.barrier.time }

  /** The loader: it raises `done` only after the last job, in a later slot than
      that job's, and leaves only after that. */
  predicate LoaderOk(jobs: seq<O.Job>, s: O.Os) {
    |s.barrier.devs| > 0 ==>
      var d := s.barrier.devs[0];
      && (s.sys.loaded ==> s.i == |jobs| && LoadsOver(s))
      && (Gone(d) ==> s.sys.loaded)
      && (s.needSlot ==> d.pc == B.Working)
      && (!Gone(d) && !s.needSlot && |s.loads| > 0 ==> s.loads[|s.loads| - 1] < L.NextSlot(d))
  }

  /** CPU c has stopped, or has found nothing ready after the last load was over and
      is on its way to the exit test. */
  predicate Doomed(s: O.Os, c: nat) {
    c < |s.sys.cpus| ==>
      var cpu := s.sys.cpus[c];
      cpu.at == C.Stopped || (cpu.at == C.Recheck && cpu.proc == 0 && LoadsOver(s))
  }

  predicate SomeReady(s: C.Sys) { Get(s.sched).1 != 0 }

  /** Once every job is loaded, while a process is ready some CPU will still look. */
  ghost predicate Alive(jobs: seq<O.Job>, s: O.Os) {
    s.i == |jobs| && |s.sys.cpus| > 0 && SomeReady(s.sys) ==> exists c: nat :: !Doomed(s, c)
  }

  ghost predicate Inv(jobs: seq<O.Job>, s: O.Os) {
    O.Inv(jobs, s) && JobsOk(jobs, s) && LoaderOk(jobs, s) && Alive(jobs, s)
  }

  lemma InitInv(jobs: seq<O.Job>, s: O.Os)
    requires O.Init(s)
    ensures Inv(jobs, s)
  {
    O.InitInv(jobs, s);
    if |s.sys.cpus| > 0 { assert !Doomed(s, 0); }
  }

  // ---- Jobs -----------------------------------------------------------------

  lemma ProcsKept(s: C.Sys, c: nat, s': C.Sys)
    requires c < |s.cpus| && C.CpuNext(s, c) == Some(s')
    ensures |s'.procs| == |s.procs| && s'.loaded == s.loaded
    ensures forall k :: 0 <= k < |s.procs| ==>
              s'.procs[k].prio == s.procs[k].prio && s'.procs[k].size == s.procs[k].size
  {
    hide Get, Put, FirstReady, C.Note;
  }

  lemma LoadShape(s: C.Sys, prio: nat, size: nat, s': C.Sys)
    requires C.Next(s, C.Load(prio, size)) == Some(s')
    ensures s'.procs == s.procs + [C.Pcb(prio, size, 0, [])] && !s.loaded && !s'.loaded && s'.cpus == s.cpus
  {
  }

  lemma JobsStep(jobs: seq<O.Job>, s: O.Os, step: O.Step, s': O.Os)
    requires JobsOk(jobs, s) && O.Next(jobs, s, step) == Some(s')
    ensures JobsOk(jobs, s')
  {
    hide B.Next, C.Next, C.CpuNext;
    match step
    case Inside(_) =>
    case Ld =>
      if s'.i != s.i { LoadShape(s.sys, jobs[s.i].prio, jobs[s.i].size, s'.sys); }
    case Cpu(c) =>
      if s.sys.cpus[c].at != C.Stopped { ProcsKept(s.sys, c, s'.sys); }
  }

  // ---- The loader -----------------------------------------------------------

  /** The clock does not run back, and stands still while a device is at work. */
  lemma TimeForward(b: B.State, step: B.Step, b': B.State)
    requires B.Next(b, step) == Some(b')
    ensures b.time <= b'.time && (step.CallNextSlot? || step.CallDetach? ==> b'.time == b.time)
  {
  }

  /** The loader's clock through a step that is not its own. */
  lemma LoaderKept(jobs: seq<O.Job>, s: O.Os, s': O.Os)
    requires LoaderOk(jobs, s) && |s'.barrier.devs| == |s.barrier.devs| > 0
    requires s'.i == s.i && s'.loads == s.loads && s'.needSlot == s.needSlot && s'.sys.loaded == s.sys.loaded
    requires O.DeviceKept(s.barrier, s'.barrier, 0) && s.barrier.time <= s'.barrier.time
    requires Gone(s.barrier.devs[0]) ==> Gone(s'.barrier.devs[0])
    ensures LoaderOk(jobs, s')
  {
  }

  lemma GoneStays(b: B.State, step: B.Step, b': B.State, i: nat)
    requires B.Next(b, step) == Some(b') && i < |b.devs| == |b'.devs|
    ensures Gone(b.devs[i]) ==> Gone(b'.devs[i])
  {
    hide B.TimerNext;
    if step.Timer? { L.TimerKeepsSlots(b, b'); }
  }

  lemma LoaderInside(jobs: seq<O.Job>, s: O.Os, st: B.Step, s': O.Os)
    requires LoaderOk(jobs, s) && |s.barrier.devs| > 0 && st != B.CallNextSlot(0) && st != B.CallDetach(0)
    requires B.Next(s.barrier, st) == Some(s'.barrier)
    requires s'.i == s.i && s'.loads == s.loads && s'.needSlot == s.needSlot && s'.sys.loaded == s.sys.loaded
    ensures LoaderOk(jobs, s')
  {
    hide B.Next, LoaderOk, O.DeviceKept;
    TimeForward(s.barrier, st, s'.barrier);
    O.CallKept(s.barrier, st, s'.barrier, 0);
    DevicesKept(s.barrier, s'.barrier, 0);
    GoneStays(s.barrier, st, s'.barrier, 0);
    LoaderKept(jobs, s, s');
  }

  lemma DevicesKept(b: B.State, b': B.State, i: nat)
    requires O.DeviceKept(b, b', i)
    ensures |b'.devs| == |b.devs|
  {
  }

  lemma LoaderOwn(jobs: seq<O.Job>, s: O.Os, s': O.Os)
    requires O.Inv(jobs, s) && JobsOk(jobs, s) && LoaderOk(jobs, s) && O.LdNext(jobs, s) == Some(s')
    ensures LoaderOk(jobs, s')
  {
    hide B.Next, C.Next, O.ClockOk, B.Inv, C.Inv, L.LdInv;
    O.WorkingSlot(s.barrier, 0);
    if s.needSlot || (s.i < |jobs| && s.barrier.time < jobs[s.i].start) {
      O.CalledDevice(s.barrier, B.CallNextSlot(0), s'.barrier, 0);
      TimeForward(s.barrier, B.CallNextSlot(0), s'.barrier);
      NeedSlot(jobs, s);
    } else if s.i >= |jobs| {
      if s.sys.loaded {
        O.CalledDevice(s.barrier, B.CallDetach(0), s'.barrier, 0);
        TimeForward(s.barrier, B.CallDetach(0), s'.barrier);
      }
    } else {
      LoadShape(s.sys, jobs[s.i].prio, jobs[s.i].size, s'.sys);
    }
  }

  /** The last load was in the current slot while its next_slot is still to come. */
  lemma NeedSlot(jobs: seq<O.Job>, s: O.Os)
    requires O.Inv(jobs, s)
    ensures s.needSlot ==> |s.loads| > 0 && s.loads[|s.loads| - 1] == s.barrier.devs[0].slots
  {
    hide O.ClockOk, B.Inv, C.Inv;
  }

  lemma LoaderStep(jobs: seq<O.Job>, s: O.Os, step: O.Step, s': O.Os)
    requires O.Inv(jobs, s) && JobsOk(jobs, s) && LoaderOk(jobs, s) && O.Next(jobs, s, step) == Some(s')
    ensures LoaderOk(jobs, s')
  {
    hide B.Next, C.CpuNext, O.LdNext, B.Inv, C.Inv, L.LdInv, O.ClockOk, LoaderOk, JobsOk;
    match step
    case Inside(st) => LoaderInside(jobs, s, st, s');
    case Ld => LoaderOwn(jobs, s, s');
    case Cpu(c) =>
      if s.sys.cpus[c].at == C.Stopped {
        LoaderInside(jobs, s, B.CallDetach(c + 1), s');
      } else {
        ProcsKept(s.sys, c, s'.sys);
        if s.sys.cpus[c].at == C.Slot {
          LoaderInside(jobs, s, B.CallNextSlot(c + 1), s');
        } else {
          LoaderSame(jobs, s, s');
        }
      }
  }

  lemma LoaderSame(jobs: seq<O.Job>, s: O.Os, s': O.Os)
    requires LoaderOk(jobs, s) && s'.barrier == s.barrier
    requires s'.i == s.i && s'.loads == s.loads && s'.needSlot == s.needSlot && s'.sys.loaded == s.sys.loaded
    ensures LoaderOk(jobs, s')
  {
  }

  // ---- No process is left behind --------------------------------------------

  /** A CPU that is not doomed stays so through a step of the barrier: the clock does
      not tick while it is at the exit test. */
  lemma NotDoomedInside(jobs: seq<O.Job>, s: O.Os, st: B.Step, s': O.Os, c: nat)
    requires O.Inv(jobs, s) && B.Next(s.barrier, st) == Some(s'.barrier) && !Doomed(s, c)
    requires s'.sys.cpus == s.sys.cpus && s'.loads == s.loads
    ensures !Doomed(s', c)
  {
    hide B.Next, B.Inv, C.Inv, L.LdInv;
    assert O.ClockOk(s, c);
    if s.sys.cpus[c].at == C.Recheck { B.TimeStableWhileWorking(s.barrier, st, s'.barrier, c + 1); }
  }

  lemma AliveInside(jobs: seq<O.Job>, s: O.Os, st: B.Step, s': O.Os)
    requires O.Inv(jobs, s) && Alive(jobs, s) && B.Next(s.barrier, st) == Some(s'.barrier)
    requires s'.sys.cpus == s.sys.cpus && s'.sys.sched == s.sys.sched && s'.loads == s.loads && s'.i == s.i
    ensures Alive(jobs, s')
  {
    hide B.Next, O.Inv, Doomed, Get;
    if s'.i == |jobs| && |s'.sys.cpus| > 0 && SomeReady(s'.sys) {
      var c: nat :| !Doomed(s, c);
      NotDoomedInside(jobs, s, st, s', c);
    }
  }

  lemma AliveLd(jobs: seq<O.Job>, s: O.Os, s': O.Os)
    requires O.Inv(jobs, s) && JobsOk(jobs, s) && Alive(jobs, s) && O.LdNext(jobs, s) == Some(s')
    ensures Alive(jobs, s')
  {
    hide B.Next, C.Next, O.Inv, Get, Doomed;
    if s.needSlot || (s.i < |jobs| && s.barrier.time < jobs[s.i].start) {
      AliveInside(jobs, s, B.CallNextSlot(0), s');
    } else if s.i >= |jobs| {
      if s.sys.loaded {
        AliveInside(jobs, s, B.CallDetach(0), s');
      } else if SomeReady(s.sys) && |s.sys.cpus| > 0 {
        var c: nat :| !Doomed(s, c);
        RaisedDone(s, s', c);
      }
    } else {
      LoadShape(s.sys, jobs[s.i].prio, jobs[s.i].size, s'.sys);
      if |s.sys.cpus| > 0 { JustLoaded(jobs, s, s'); }
    }
  }

  lemma RaisedDone(s: O.Os, s': O.Os, c: nat)
    requires !Doomed(s, c) && s' == s.(sys := s.sys.(loaded := true))
    ensures !Doomed(s', c)
  {
  }

  /** Right after a load no CPU is doomed. */
  lemma JustLoaded(jobs: seq<O.Job>, s: O.Os, s': O.Os)
    requires O.Inv(jobs, s) && !s.sys.loaded && |s.sys.cpus| > 0 && s'.sys.cpus == s.sys.cpus
    requires s'.loads == s.loads + [s.barrier.time] && s'.barrier == s.barrier
    ensures !Doomed(s', 0)
  {
    O.InvCpu(s.sys, 0);
  }

  /** What CPU c's own step makes of its being doomed. */
  lemma OwnDoom(s: C.Sys, c: nat, s': C.Sys)
    requires C.Inv(s) && c < |s.cpus| && C.CpuNext(s, c) == Some(s')
    ensures |s'.cpus| == |s.cpus| && forall d :: 0 <= d < |s.cpus| && d != c ==> s'.cpus[d] == s.cpus[d]
    ensures s'.cpus[c].at == C.Recheck && s'.cpus[c].proc == 0 ==> !SomeReady(s')
    ensures s'.cpus[c].at == C.Stopped ==>
              s.loaded && s.cpus[c].at == C.Recheck && s.cpus[c].proc == 0 && s'.sched == s.sched
  {
    hide Put, FirstReady, C.Note, C.Execute, C.Conserved, Get;
    O.InvCpu(s, c);
    O.CpuTouches(s, c, s');
    if Get(s.sched).1 == 0 { NoneLeft(s); }
  }

  lemma HeadIsPid(s: C.Sys, k: nat)
    requires C.Inv(s) && k < LEVELS && s.sched.mlq[k] != []
    ensures s.sched.mlq[k][0] >= 1
  {
    assert C.LevelOk(s, k);
    assert s.sched.mlq[k][0] in s.sched.mlq[k];
  }

  /** A get_proc that finds nothing leaves nothing to find. */
  lemma NoneLeft(s: C.Sys)
    requires C.Inv(s) && Get(s.sched).1 == 0
    ensures Get(Get(s.sched).0).1 == 0
  {
    hide FirstReady, C.Inv;
    forall k: nat | k < LEVELS && s.sched.mlq[k] != [] ensures s.sched.mlq[k][0] >= 1 { HeadIsPid(s, k); }
  }

  lemma AliveCpu(jobs: seq<O.Job>, s: O.Os, c: nat, s': O.Os)
    requires O.Inv(jobs, s) && LoaderOk(jobs, s) && Alive(jobs, s) && O.CpuNext(s, c) == Some(s')
    ensures Alive(jobs, s')
  {
    hide B.Next, C.CpuNext, O.ClockOk, Get, B.Inv, C.Inv, L.LdInv, LoaderOk;
    if s.sys.cpus[c].at == C.Stopped {
      AliveInside(jobs, s, B.CallDetach(c + 1), s');
    } else if s'.i == |jobs| && SomeReady(s'.sys) {
      OwnDoom(s.sys, c, s'.sys);
      SameTime(s, c, s');
      if s'.sys.cpus[c].at == C.Stopped {
        DoneIsOver(jobs, s);
        var d: nat :| !Doomed(s, d);
        assert !Doomed(s', d);
      } else {
        assert !Doomed(s', c);
      }
    }
  }

  lemma SameTime(s: O.Os, c: nat, s': O.Os)
    requires O.CpuNext(s, c) == Some(s')
    ensures s'.barrier.time == s.barrier.time && s'.loads == s.loads && s'.i == s.i
  {
    hide B.Next, C.CpuNext;
    if s'.barrier != s.barrier {
      var st := if s.sys.cpus[c].at == C.Stopped then B.CallDetach(c + 1) else B.CallNextSlot(c + 1);
      TimeForward(s.barrier, st, s'.barrier);
    }
  }

  lemma DoneIsOver(jobs: seq<O.Job>, s: O.Os)
    requires LoaderOk(jobs, s) && |s.barrier.devs| > 0 && s.sys.loaded
    ensures LoadsOver(s)
  {
  }

  // ---- Every run ------------------------------------------------------------

  lemma NextInv(jobs: seq<O.Job>, s: O.Os, step: O.Step, s': O.Os)
    requires Inv(jobs, s) && O.Next(jobs, s, step) == Some(s')
    ensures Inv(jobs, s')
  {
    hide B.Next, C.CpuNext, O.LdNext, O.CpuNext, O.Inv, JobsOk, LoaderOk, Alive;
    O.NextInv(jobs, s, step, s');
    JobsStep(jobs, s, step, s');
    LoaderStep(jobs, s, step, s');
    match step
    case Inside(st) => AliveInside(jobs, s, st, s');
    case Ld => AliveLd(jobs, s, s');
    case Cpu(c) => AliveCpu(jobs, s, c, s');
  }

  lemma {:induction false} RunInv(jobs: seq<O.Job>, run: seq<O.Os>, j: nat)
    requires O.IsRun(jobs, run) && j < |run|
    ensures Inv(jobs, run[j])
    decreases j
  {
    hide O.Next, Inv, O.Init;
    if j == 0 {
      InitInv(jobs, run[0]);
    } else {
      RunInv(jobs, run, j - 1);
      assert O.Follows(jobs, run[j - 1], run[j - 1 + 1]);
      var step :| O.Next(jobs, run[j - 1], step) == Some(run[j]);
      NextInv(jobs, run[j - 1], step, run[j]);
    }
  }

  /** Every process is its configured job: in every state of every run the processes
      are the first jobs in order, each with its own priority and program, and the
      k-th was added in slot max(start_k, L_{k-1} + 1). */
  lemma ProcessesAreJobs(jobs: seq<O.Job>, run: seq<O.Os>, j: nat)
    requires O.IsRun(jobs, run) && j < |run|
    ensures var s := run[j];
            && |s.sys.procs| == |s.loads| <= |jobs|
            && forall k :: 0 <= k < |s.sys.procs| ==>
                 && s.sys.procs[k].prio == jobs[k].prio && s.sys.procs[k].size == jobs[k].size
                 && s.loads[k] == L.LoadSlot(O.Starts(jobs), k)
  {
    hide O.Inv, LoaderOk, Alive, L.LoadSlot;
    RunInv(jobs, run, j);
    O.LoadsOnTime(jobs, run, j);
  }

  /** A thread that has left means every job was added: the loader leaves only after
      the last, and a CPU inside or past detach_event has stopped, which it does only
      once loading is done. */
  lemma GoneMeansAllAdded(jobs: seq<O.Job>, run: seq<O.Os>, j: nat, i: nat)
    requires O.IsRun(jobs, run) && j < |run| && i < |run[j].barrier.devs| && Gone(run[j].barrier.devs[i])
    ensures run[j].sys.loaded && |run[j].sys.procs| == |jobs|
    ensures i > 0 ==> i - 1 < |run[j].sys.cpus| && run[j].sys.cpus[i - 1].at == C.Stopped
  {
    hide Alive, B.Inv, L.LdInv;
    RunInv(jobs, run, j);
    if i > 0 {
      assert O.ClockOk(run[j], i - 1);
      O.InvCpu(run[j].sys, i - 1);
    }
  }

  predicate AllStopped(s: O.Os) { forall c :: 0 <= c < |s.sys.cpus| ==> s.sys.cpus[c].at == C.Stopped }

  /** No process is left behind: when the CPUs have stopped, every job was added and
      none is waiting or held, so each process is finished or was lost to a full
      level.  A load never slips in between a CPU's last get_proc and its exit test,
      because `done` is raised in a later slot than the last load. */
  lemma NothingLeftBehind(jobs: seq<O.Job>, run: seq<O.Os>, j: nat, p: Pid)
    requires O.IsRun(jobs, run) && j < |run| && |run[j].sys.cpus| > 0 && AllStopped(run[j])
    requires 1 <= p <= |jobs|
    ensures |run[j].sys.procs| == |jobs|
    ensures !R.Ready(run[j].sys, p) && !R.Taken(run[j].sys, p)
  {
    hide Alive, B.Inv, L.LdInv, Get, R.Ready, O.Next;
    var s := run[j];
    RunInv(jobs, run, j);
    O.InvCpu(s.sys, 0);
    NoneReady(jobs, s);
    var crun, brun, lrun := O.RunParts(jobs, run, j);
    R.StrictPriority(crun, |crun| - 1);
    NotInEmpty(s.sys, p);
    forall c | 0 <= c < |s.sys.cpus| ensures s.sys.cpus[c].proc != p { O.InvCpu(s.sys, c); }
  }

  lemma NoneReady(jobs: seq<O.Job>, s: O.Os)
    requires Alive(jobs, s) && s.i == |jobs| && |s.sys.cpus| > 0 && AllStopped(s)
    ensures Get(s.sys.sched).1 == 0
  {
    hide Get;
  }

  lemma NotInEmpty(s: C.Sys, p: Pid)
    requires forall k :: 0 <= k < LEVELS ==> s.sched.mlq[k] == []
    ensures !R.Ready(s, p)
  {
  }

  /** Every job runs to completion: with at most 50 jobs of priorities below 140,
      when the CPUs have stopped, every job has executed each of its instructions
      once, in order, and has finished. */
  lemma EveryJobCompletes(jobs: seq<O.Job>, run: seq<O.Os>, j: nat, p: Pid)
    requires O.IsRun(jobs, run) && j < |run| && |run[j].sys.cpus| > 0 && AllStopped(run[j])
    requires |jobs| <= 50 && (forall k :: 0 <= k < |jobs| ==> jobs[k].prio < 140) && 1 <= p <= |jobs|
    ensures var s := run[j].sys;
            && |s.procs| == |jobs| && p in s.finished
            && s.procs[p - 1].trace == seq(jobs[p - 1].size, i => i)
  {
    hide O.Inv, LoaderOk, Alive, R.Ready, R.Taken, R.AtMostOnce, O.Next, C.Next;
    NothingLeftBehind(jobs, run, j, p);
    RunInv(jobs, run, j);
    var crun, brun, lrun := O.RunParts(jobs, run, j);
    R.ExactlyOnePlace(crun, |crun| - 1);
    assert R.Somewhere(run[j].sys, p);
    R.InOrder(crun, |crun| - 1, p);
  }

  // ---- Something can always move --------------------------------------------

  /** A thread outside the barrier always has a next action. */
  lemma WorkingMoves(jobs: seq<O.Job>, s: O.Os, i: nat) returns (step: O.Step)
    requires Inv(jobs, s) && O.Works(s, i)
    ensures step == if i == 0 then O.Ld else O.Cpu(i - 1)
    ensures O.Next(jobs, s, step).Some?
  {
    hide B.Inv, L.LdInv, O.ClockOk, Alive, C.CpuNext;
    if i == 0 {
      step := O.Ld;
    } else {
      step := O.Cpu(i - 1);
      if s.sys.cpus[i - 1].at != C.Stopped { R.CpuProgress(s.sys, i - 1); }
    }
  }

  /** No deadlock in the whole simulator: in every state of every run, unless every
      thread has exited, some step other than a spurious wake-up is enabled. */
  lemma NeverStuck(jobs: seq<O.Job>, run: seq<O.Os>, j: nat) returns (step: O.Step)
    requires O.IsRun(jobs, run) && j < |run| && !P.AllExited(run[j].barrier)
    ensures O.Next(jobs, run[j], step).Some?
    ensures step.Inside? ==> P.Internal(step.step)
  {
    hide Inv, O.LdNext, O.CpuNext, B.Next;
    RunInv(jobs, run, j);
    var s := run[j];
    if P.SomeWorking(s.barrier) {
      var i :| 0 <= i < |s.barrier.devs| && s.barrier.devs[i].pc == B.Working;
      step := WorkingMoves(jobs, s, i);
    } else {
      InvBarrier(jobs, s);
      var inner := P.NoDeadlock(s.barrier);
      step := O.Inside(inner);
    }
  }

  lemma InvBarrier(jobs: seq<O.Job>, s: O.Os)
    requires Inv(jobs, s)
    ensures B.Inv(s.barrier)
  {
  }
}
