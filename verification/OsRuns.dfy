/** The whole simulator: the loader and N copies of cpu_routine as devices of the
    timer barrier (src/os.c:49-147 over src/timer.c).  Here a time slot is the
    barrier's, so what the scheduler counts in instructions is also counted in
    slots. */
module OsRuns {
  import opened Wrappers
  import opened Queue
  import opened Scheduler
  import B = TimerBarrier
  import C = CpuLoop
  import L = Loader
  import R = SchedulerRuns

  /** A configured process: start time, priority, program size. */
  datatype Job = Job(start: nat, prio: nat, size: nat)

  /** Device 0 is the loader, device c + 1 is CPU c.  `i` and `needSlot` are the
      loader's locals.  `loads`, `began` and `ran` are history: _time at each add,
      at the start of each CPU's slice, and at each instruction of each CPU. */
  datatype Os = Os(barrier: B.State, sys: C.Sys, i: nat, needSlot: bool,
                   loads: seq<nat>, began: seq<nat>, ran: seq<seq<nat>>)

  datatype Step =
    | Inside(step: B.Step) // a thread inside the barrier, a spurious wake-up, or stop_timer
    | Ld // the loader, outside the barrier
    | Cpu(c: nat) // CPU c, outside the barrier

  // ---- Transitions ----------------------------------------------------------

  predicate Works(s: Os, i: nat) { i < |s.barrier.devs| && s.barrier.devs[i].pc == B.Working }

  function Call(s: Os, step: B.Step): Option<Os> {
    var b := B.Next(s.barrier, step);
    if b.None? then None else Some(s.(barrier := b.value))
  }

  /** The loader: wait a slot, add the next process, raise `done`, or detach. */
  function LdNext(jobs: seq<Job>, s: Os): Option<Os> {
    if !Works(s, 0) then None
    else if s.needSlot then Call(s.(needSlot := false), B.CallNextSlot(0))
    else if s.i >= |jobs| then
      if s.sys.loaded then Call(s, B.CallDetach(0)) else Some(s.(sys := s.sys.(loaded := true)))
    else if s.barrier.time < jobs[s.i].start then Call(s, B.CallNextSlot(0))
    else
      var sys := C.Next(s.sys, C.Load(jobs[s.i].prio, jobs[s.i].size));
      if sys.None? then None
      else Some(s.(sys := sys.value, i := s.i + 1, needSlot := true, loads := s.loads + [s.barrier.time]))
  }

  /** A CPU: its next action, where next_slot and detach_event are barrier calls. */
  function CpuNext(s: Os, c: nat): Option<Os> {
    if c >= |s.sys.cpus| || c >= |s.began| || c >= |s.ran| || !Works(s, c + 1) then None
    else
      var cpu := s.sys.cpus[c];
      if cpu.at == C.Stopped then Call(s, B.CallDetach(c + 1))
      else
        var sys := C.CpuNext(s.sys, c);
        if sys.None? then None
        else if cpu.at == C.Slot then Call(s.(sys := sys.value), B.CallNextSlot(c + 1))
        else if cpu.at == C.Recheck && cpu.proc != 0 && cpu.timeLeft == 0
          then Some(s.(sys := sys.value, began := s.began[c := s.barrier.time]))
        else if cpu.at == C.RunOne
          then Some(s.(sys := sys.value, ran := s.ran[c := s.ran[c] + [s.barrier.time]]))
        else Some(s.(sys := sys.value))
  }

  function Next(jobs: seq<Job>, s: Os, step: Step): Option<Os> {
    match step
    case Inside(st) => if st.CallNextSlot? || st.CallDetach? then None else Call(s, st)
    case Ld => LdNext(jobs, s)
    case Cpu(c) => CpuNext(s, c)
  }

  predicate Init(s: Os) {
    && B.Init(s.barrier) && C.Init(s.sys) && |s.barrier.devs| == |s.sys.cpus| + 1
    && s.i == 0 && !s.needSlot && s.loads == []
    && s.began == seq(|s.sys.cpus|, _ => 0) && s.ran == seq(|s.sys.cpus|, _ => [])
  }

  ghost predicate Follows(jobs: seq<Job>, s: Os, s': Os) { exists step :: Next(jobs, s, step) == Some(s') }

  ghost predicate IsRun(jobs: seq<Job>, run: seq<Os>) {
    && |run| > 0 && Init(run[0])
    && forall j :: 0 <= j < |run| - 1 ==> Follows(jobs, run[j], run[j + 1])
  }

  // ---- The parts ------------------------------------------------------------

  function Starts(jobs: seq<Job>): (r: seq<nat>)
    ensures |r| == |jobs| && forall i :: 0 <= i < |jobs| ==> r[i] == jobs[i].start
  {
    seq(|jobs|, i requires 0 <= i < |jobs| => jobs[i].start)
  }

  function LoaderView(s: Os): L.Sys { L.Sys(s.barrier, s.i, s.needSlot, s.loads) }

  /** What a step is for the barrier, for the scheduler and CPUs, and for the
      loader: one of their own steps, or nothing. */
  ghost predicate PartsStep(jobs: seq<Job>, s: Os, s': Os) {
    && (s'.barrier == s.barrier || B.Follows(s.barrier, s'.barrier))
    && (s'.sys == s.sys || C.Follows(s.sys, s'.sys))
    && (LoaderView(s') == LoaderView(s) || L.SysFollows(Starts(jobs), LoaderView(s), LoaderView(s')))
  }

  lemma LdParts(jobs: seq<Job>, s: Os, s': Os)
    requires LdNext(jobs, s) == Some(s')
    ensures PartsStep(jobs, s, s')
  {
    hide B.Next, C.Next;
    var starts := Starts(jobs);
    if s.needSlot || (s.i < |jobs| && s.barrier.time < jobs[s.i].start) {
      assert B.Next(s.barrier, B.CallNextSlot(0)) == Some(s'.barrier);
      assert L.SysNext(starts, LoaderView(s), L.Ld) == Some(LoaderView(s'));
    } else if s.i >= |jobs| {
      if s.sys.loaded {
        assert B.Next(s.barrier, B.CallDetach(0)) == Some(s'.barrier);
        assert L.SysNext(starts, LoaderView(s), L.Ld) == Some(LoaderView(s'));
      } else {
        assert C.Next(s.sys, C.LoadDone) == Some(s'.sys) by { LoadDoneNext(s.sys); }
      }
    } else {
      assert C.Next(s.sys, C.Load(jobs[s.i].prio, jobs[s.i].size)) == Some(s'.sys);
      assert L.SysNext(starts, LoaderView(s), L.Ld) == Some(LoaderView(s'));
    }
  }

  lemma LoadDoneNext(s: C.Sys)
    requires !s.loaded
    ensures C.Next(s, C.LoadDone) == Some(s.(loaded := true))
  {
  }

  lemma CpuParts(jobs: seq<Job>, s: Os, c: nat, s': Os)
    requires CpuNext(s, c) == Some(s')
    ensures PartsStep(jobs, s, s')
  {
    hide B.Next, C.CpuNext;
    var cpu := s.sys.cpus[c];
    if cpu.at == C.Stopped || cpu.at == C.Slot {
      var st := if cpu.at == C.Stopped then B.CallDetach(c + 1) else B.CallNextSlot(c + 1);
      assert B.Next(s.barrier, st) == Some(s'.barrier);
      assert L.SysNext(Starts(jobs), LoaderView(s), L.Other(st)) == Some(LoaderView(s'));
    }
    if cpu.at != C.Stopped { assert C.Next(s.sys, C.CpuStep(c)) == Some(s'.sys); }
  }

  lemma StepParts(jobs: seq<Job>, s: Os, step: Step, s': Os)
    requires Next(jobs, s, step) == Some(s')
    ensures PartsStep(jobs, s, s')
  {
    hide B.Next, LdNext, CpuNext, PartsStep;
    match step
    case Inside(st) => InsideParts(jobs, s, st, s');
    case Ld => LdParts(jobs, s, s');
    case Cpu(c) => CpuParts(jobs, s, c, s');
  }

  lemma InsideParts(jobs: seq<Job>, s: Os, st: B.Step, s': Os)
    requires !st.CallNextSlot? && !st.CallDetach? && Call(s, st) == Some(s')
    ensures PartsStep(jobs, s, s')
  {
    hide B.Next;
    assert B.Next(s.barrier, st) == Some(s'.barrier);
    assert L.SysNext(Starts(jobs), LoaderView(s), L.Other(st)) == Some(LoaderView(s'));
  }

  /** Every run of the simulator is, without its idle steps, a run of the scheduler
      and CPU loop, a run of the barrier and a run of the loader: so everything
      proved of those holds here. */
  lemma {:induction false} RunParts(jobs: seq<Job>, run: seq<Os>, j: nat)
    returns (crun: seq<C.Sys>, brun: seq<B.State>, lrun: seq<L.Sys>)
    requires IsRun(jobs, run) && j < |run|
    ensures C.IsRun(crun) && crun[|crun| - 1] == run[j].sys
    ensures B.IsRun(brun) && brun[|brun| - 1] == run[j].barrier
    ensures L.IsSysRun(Starts(jobs), lrun) && lrun[|lrun| - 1] == LoaderView(run[j])
    decreases j
  {
    hide Next, C.Next, B.Next, L.SysNext, C.Init, B.Init;
    if j == 0 {
      crun, brun, lrun := [run[0].sys], [run[0].barrier], [LoaderView(run[0])];
    } else {
      crun, brun, lrun := RunParts(jobs, run, j - 1);
      assert Follows(jobs, run[j - 1], run[j - 1 + 1]);
      var step :| Next(jobs, run[j - 1], step) == Some(run[j]);
      StepParts(jobs, run[j - 1], step, run[j]);
      if run[j].sys != run[j - 1].sys { crun := crun + [run[j].sys]; }
      if run[j].barrier != run[j - 1].barrier { brun := brun + [run[j].barrier]; }
      if LoaderView(run[j]) != LoaderView(run[j - 1]) { lrun := lrun + [LoaderView(run[j])]; }
    }
  }

  // ---- Slots and slices -----------------------------------------------------

  /** A CPU inside a slice. */
  predicate InSlice(cpu: C.Cpu) {
    cpu.proc != 0 && (cpu.at in {C.RunOne, C.Slot, C.Top} || (cpu.at == C.Recheck && cpu.timeLeft != 0))
  }

  /** The slot CPU c will next work in, not counting one it has already used. */
  function Due(s: Os, c: nat): nat
    requires c < |s.sys.cpus| && c + 1 < |s.barrier.devs|
  {
    L.NextSlot(s.barrier.devs[c + 1]) + (if s.sys.cpus[c].at == C.Slot then 1 else 0)
  }

  predicate Increasing(ts: seq<nat>) { forall i, j :: 0 <= i < j < |ts| ==> ts[i] < ts[j] }

  /** CPU c against the barrier: outside next_slot except at the top of its loop;
      each unit of the slice used is one slot since the slice began; and its
      instructions fell in distinct slots, all before the one that is due. */
  predicate ClockOk(s: Os, c: nat) {
    c < |s.sys.cpus| && c + 1 < |s.barrier.devs| && c < |s.began| && c < |s.ran| ==>
      var cpu, d := s.sys.cpus[c], s.barrier.devs[c + 1];
      && (cpu.at != C.Top && cpu.at != C.Stopped ==> d.pc == B.Working)
      && (cpu.at == C.Top ==> d.pc == B.Working || L.InNextSlot(d.pc))
      && (InSlice(cpu) ==> Due(s, c) == s.began[c] + (s.sys.timeSlot - cpu.timeLeft))
      && Increasing(s.ran[c])
      && (cpu.at != C.Stopped ==> forall k :: 0 <= k < |s.ran[c]| ==> s.ran[c][k] < Due(s, c))
  }

  ghost predicate Inv(jobs: seq<Job>, s: Os) {
    && B.Inv(s.barrier) && C.Inv(s.sys) && L.LdInv(Starts(jobs), LoaderView(s))
    && |s.barrier.devs| == |s.sys.cpus| + 1 && |s.began| == |s.sys.cpus| == |s.ran|
    && forall c: nat :: ClockOk(s, c)
  }

  lemma InitInv(jobs: seq<Job>, s: Os)
    requires Init(s)
    ensures Inv(jobs, s)
  {
    B.InitInv(s.barrier);
    C.InitInv(s.sys);
  }

  /** A working device is at the current slot. */
  lemma WorkingSlot(b: B.State, i: nat)
    requires B.Inv(b) && i < |b.devs| && b.devs[i].pc == B.Working
    ensures b.devs[i].slots == b.time
  {
    assert B.DevOk(b, i);
  }

  /** Device i moves on by itself only: at work it stays there, and inside
      next_slot it goes on to the same slot. */
  predicate DeviceKept(b: B.State, b': B.State, i: nat) {
    && i < |b.devs| == |b'.devs|
    && var d, d' := b.devs[i], b'.devs[i];
       && (d.pc == B.Working ==> d'.pc == B.Working && d'.slots == d.slots)
       && (L.InNextSlot(d.pc) ==> (L.InNextSlot(d'.pc) || d'.pc == B.Working) && L.NextSlot(d') == L.NextSlot(d))
  }

  /** A step that is not CPU c's own leaves its clock alone. */
  lemma OthersClock(s: Os, s': Os, c: nat)
    requires ClockOk(s, c) && DeviceKept(s.barrier, s'.barrier, c + 1) && s'.sys.timeSlot == s.sys.timeSlot
    requires c < |s.sys.cpus| == |s'.sys.cpus| && s'.sys.cpus[c] == s.sys.cpus[c]
    requires c < |s.began| == |s'.began| && s'.began[c] == s.began[c]
    requires c < |s.ran| == |s'.ran| && s'.ran[c] == s.ran[c]
    ensures ClockOk(s', c)
  {
    hide Increasing;
  }

  lemma SameBarrierKept(b: B.State, i: nat)
    requires i < |b.devs|
    ensures DeviceKept(b, b, i)
  {
  }

  lemma CallKept(b: B.State, step: B.Step, b': B.State, i: nat)
    requires B.Next(b, step) == Some(b') && i < |b.devs| && step != B.CallNextSlot(i) && step != B.CallDetach(i)
    ensures DeviceKept(b, b', i)
  {
    hide B.Next;
    L.OtherKeeps(b, step, b', i);
  }

  /** What a step of CPU c does to the CPUs. */
  lemma CpuTouches(s: C.Sys, c: nat, s': C.Sys)
    requires c < |s.cpus| && C.CpuNext(s, c) == Some(s') && C.CpuOk(s, c)
    ensures |s'.cpus| == |s.cpus| && s'.timeSlot == s.timeSlot
    ensures forall d :: 0 <= d < |s.cpus| && d != c ==> s'.cpus[d] == s.cpus[d]
    ensures var cpu, cpu' := s.cpus[c], s'.cpus[c];
            && (cpu.at == C.Slot <==> cpu'.at == C.Top)
            && (cpu.at == C.Slot ==> cpu' == cpu.(at := C.Top))
            && (cpu.at == C.RunOne ==> cpu' == cpu.(at := C.Slot, timeLeft := cpu.timeLeft - 1))
            && (cpu.at == C.Recheck && cpu.proc != 0 ==>
                  && cpu'.at == C.RunOne && cpu'.proc == cpu.proc
                  && cpu'.timeLeft == if cpu.timeLeft == 0 then s.timeSlot else cpu.timeLeft)
            && (InSlice(cpu') ==> cpu.proc == cpu'.proc)
            && (cpu.at == C.Top && InSlice(cpu') ==> cpu' == cpu.(at := C.Recheck))
            && (cpu.at == C.GetNext ==> !InSlice(cpu'))
  {
    hide Get, Put, FirstReady, C.Note, C.Execute;
  }

  /** A step of CPU c keeps its own clock. */
  lemma OwnClock(jobs: seq<Job>, s: Os, c: nat, s': Os)
    requires Inv(jobs, s) && CpuNext(s, c) == Some(s')
    ensures ClockOk(s', c)
  {
    hide B.Next, B.Inv, C.Inv, L.LdInv, C.CpuNext, Starts;
    var cpu := s.sys.cpus[c];
    assert ClockOk(s, c);
    WorkingSlot(s.barrier, c + 1);
    InvCpu(s.sys, c);
    if cpu.at == C.Stopped {
      CalledDevice(s.barrier, B.CallDetach(c + 1), s'.barrier, c + 1);
    } else {
      CpuTouches(s.sys, c, s'.sys);
      if cpu.at == C.Slot { CalledDevice(s.barrier, B.CallNextSlot(c + 1), s'.barrier, c + 1); }
    }
  }

  lemma InvCpu(s: C.Sys, c: nat)
    requires C.Inv(s)
    ensures C.CpuOk(s, c)
  {
  }

  lemma CalledDevice(b: B.State, step: B.Step, b': B.State, i: nat)
    requires B.Next(b, step) == Some(b') && (step == B.CallNextSlot(i) || step == B.CallDetach(i))
    ensures i < |b.devs| == |b'.devs| && b'.devs[i].slots == b.devs[i].slots
    ensures b'.devs[i].pc == if step.CallNextSlot? then B.NsLockE else B.DtLockE
  {
  }

  /** A step of CPU c keeps the clocks of the others. */
  lemma CpuClocks(jobs: seq<Job>, s: Os, c: nat, s': Os, d: nat)
    requires Inv(jobs, s) && CpuNext(s, c) == Some(s') && d < |s.sys.cpus| && d != c
    ensures ClockOk(s', d)
  {
    hide B.Next, B.Inv, C.Inv, L.LdInv, C.CpuNext, Starts, ClockOk, DeviceKept;
    var cpu := s.sys.cpus[c];
    assert ClockOk(s, d);
    InvCpu(s.sys, c);
    if cpu.at != C.Stopped { CpuTouches(s.sys, c, s'.sys); }
    if cpu.at == C.Stopped {
      CallKept(s.barrier, B.CallDetach(c + 1), s'.barrier, d + 1);
    } else if cpu.at == C.Slot {
      CallKept(s.barrier, B.CallNextSlot(c + 1), s'.barrier, d + 1);
    } else {
      SameBarrierKept(s.barrier, d + 1);
    }
    OthersClock(s, s', d);
  }

  lemma CpuShape(jobs: seq<Job>, s: Os, c: nat, s': Os)
    requires Inv(jobs, s) && CpuNext(s, c) == Some(s')
    ensures |s'.sys.cpus| == |s.sys.cpus| && |s'.began| == |s.began| && |s'.ran| == |s.ran|
    ensures |s'.barrier.devs| == |s.barrier.devs|
  {
    hide B.Next, B.Inv, C.Inv, L.LdInv, C.CpuNext, Starts, ClockOk;
    var cpu := s.sys.cpus[c];
    InvCpu(s.sys, c);
    if cpu.at == C.Stopped {
      CalledDevice(s.barrier, B.CallDetach(c + 1), s'.barrier, c + 1);
    } else {
      CpuTouches(s.sys, c, s'.sys);
      if cpu.at == C.Slot { CalledDevice(s.barrier, B.CallNextSlot(c + 1), s'.barrier, c + 1); }
    }
  }

  /** The loader and the barrier's own steps keep every CPU's clock. */
  lemma LdClocks(jobs: seq<Job>, s: Os, s': Os, d: nat)
    requires Inv(jobs, s) && LdNext(jobs, s) == Some(s') && d < |s.sys.cpus|
    ensures ClockOk(s', d)
  {
    hide B.Next, B.Inv, C.Inv, L.LdInv, Starts, ClockOk, DeviceKept, Add, C.Note;
    assert ClockOk(s, d);
    if s.needSlot || (s.i < |jobs| && s.barrier.time < jobs[s.i].start) {
      CallKept(s.barrier, B.CallNextSlot(0), s'.barrier, d + 1);
    } else if s.i >= |jobs| && s.sys.loaded {
      CallKept(s.barrier, B.CallDetach(0), s'.barrier, d + 1);
    } else {
      SameBarrierKept(s.barrier, d + 1);
    }
    OthersClock(s, s', d);
  }

  lemma LdShape(jobs: seq<Job>, s: Os, s': Os)
    requires LdNext(jobs, s) == Some(s')
    ensures |s'.sys.cpus| == |s.sys.cpus| && s'.began == s.began && s'.ran == s.ran
    ensures |s'.barrier.devs| == |s.barrier.devs|
  {
    hide B.Next, Add, C.Note;
    if s.needSlot || (s.i < |jobs| && s.barrier.time < jobs[s.i].start) {
      CalledDevice(s.barrier, B.CallNextSlot(0), s'.barrier, 0);
    } else if s.i >= |jobs| && s.sys.loaded {
      CalledDevice(s.barrier, B.CallDetach(0), s'.barrier, 0);
    }
  }

  /** The invariants of the parts carry over. */
  lemma PartsInv(jobs: seq<Job>, s: Os, s': Os)
    requires B.Inv(s.barrier) && C.Inv(s.sys) && L.LdInv(Starts(jobs), LoaderView(s)) && PartsStep(jobs, s, s')
    ensures B.Inv(s'.barrier) && C.Inv(s'.sys) && L.LdInv(Starts(jobs), LoaderView(s'))
  {
    hide B.Inv, C.Inv, L.LdInv, B.Next, C.Next, L.SysNext, Starts;
    if s'.barrier != s.barrier {
      var step :| B.Next(s.barrier, step) == Some(s'.barrier);
      B.NextInv(s.barrier, step, s'.barrier);
    }
    if s'.sys != s.sys {
      var step :| C.Next(s.sys, step) == Some(s'.sys);
      C.NextInv(s.sys, step, s'.sys);
    }
    if LoaderView(s') != LoaderView(s) {
      var step :| L.SysNext(Starts(jobs), LoaderView(s), step) == Some(LoaderView(s'));
      L.SysStepInv(Starts(jobs), LoaderView(s), step, LoaderView(s'));
    }
  }

  lemma InsideClocks(jobs: seq<Job>, s: Os, st: B.Step, s': Os)
    requires Inv(jobs, s) && !st.CallNextSlot? && !st.CallDetach? && Call(s, st) == Some(s')
    ensures |s'.barrier.devs| == |s.barrier.devs| && forall c: nat :: ClockOk(s', c)
  {
    hide B.Next, B.Inv, C.Inv, L.LdInv, Starts, ClockOk;
    CallKept(s.barrier, st, s'.barrier, 0);
    forall c: nat ensures ClockOk(s', c) {
      assert ClockOk(s, c);
      if c < |s.sys.cpus| {
        CallKept(s.barrier, st, s'.barrier, c + 1);
        OthersClock(s, s', c);
      } else {
        NoCpu(s', c);
      }
    }
  }

  lemma NoCpu(s: Os, c: nat)
    requires c >= |s.sys.cpus|
    ensures ClockOk(s, c)
  {
  }

  /** Every step of every thread keeps the invariant of the whole. */
  lemma NextInv(jobs: seq<Job>, s: Os, step: Step, s': Os)
    requires Inv(jobs, s) && Next(jobs, s, step) == Some(s')
    ensures Inv(jobs, s')
  {
    hide B.Inv, C.Inv, L.LdInv, B.Next, LdNext, CpuNext, ClockOk, PartsStep, Starts;
    StepParts(jobs, s, step, s');
    PartsInv(jobs, s, s');
    match step
    case Inside(st) => InsideClocks(jobs, s, st, s');
    case Ld =>
      LdShape(jobs, s, s');
      forall d: nat ensures ClockOk(s', d) {
        if d < |s.sys.cpus| { LdClocks(jobs, s, s', d); } else { NoCpu(s', d); }
      }
    case Cpu(c) =>
      CpuShape(jobs, s, c, s');
      forall d: nat ensures ClockOk(s', d) {
        if d >= |s.sys.cpus| { NoCpu(s', d); }
        else if d == c { OwnClock(jobs, s, c, s'); }
        else { CpuClocks(jobs, s, c, s', d); }
      }
  }

  lemma {:induction false} RunInv(jobs: seq<Job>, run: seq<Os>, j: nat)
    requires IsRun(jobs, run) && j < |run|
    ensures Inv(jobs, run[j])
    decreases j
  {
    hide Next, Inv, Init;
    if j == 0 {
      InitInv(jobs, run[0]);
    } else {
      RunInv(jobs, run, j - 1);
      assert Follows(jobs, run[j - 1], run[j - 1 + 1]);
      var step :| Next(jobs, run[j - 1], step) == Some(run[j]);
      NextInv(jobs, run[j - 1], step, run[j]);
    }
  }

  // ---- What a slot means ----------------------------------------------------

  /** A CPU runs at most one instruction per slot: in every reachable state of the
      simulator its instructions so far fell in distinct, increasing slots. */
  lemma OnePerSlot(jobs: seq<Job>, run: seq<Os>, j: nat, c: nat)
    requires IsRun(jobs, run) && j < |run| && c < |run[j].sys.cpus|
    ensures c < |run[j].ran| && Increasing(run[j].ran[c])
  {
    RunInv(jobs, run, j);
    assert ClockOk(run[j], c);
  }

  /** Whenever CPU c is about to run its process, the slots since its slice began
      are the slice units used, and so many instructions of the program have been
      executed in the slice: one in each of these slots. */
  lemma InstructionSlot(jobs: seq<Job>, run: seq<Os>, j: nat, c: nat)
    requires IsRun(jobs, run) && j < |run| && R.RunsOne(run[j].sys, c) && Works(run[j], c + 1)
    ensures var s := run[j]; var cpu := s.sys.cpus[c];
            && c < |s.began| && s.barrier.time == s.began[c] + (s.sys.timeSlot - cpu.timeLeft)
            && s.sys.procs[cpu.proc - 1].pc == cpu.startPc + (s.barrier.time - s.began[c])
  {
    hide Increasing, B.Inv;
    RunInv(jobs, run, j);
    assert ClockOk(run[j], c);
    WorkingSlot(run[j].barrier, c + 1);
    InvCpu(run[j].sys, c);
  }

  /** A slice lasts time_slot slots: when CPU c puts its process back, exactly
      time_slot slots have passed since the slice began, and the process has
      executed exactly one instruction in each. */
  lemma SliceInSlots(jobs: seq<Job>, run: seq<Os>, j: nat, c: nat)
    requires IsRun(jobs, run) && j < |run| && C.PutsBack(run[j].sys, c) && Works(run[j], c + 1)
    ensures var s := run[j]; var cpu := s.sys.cpus[c];
            && c < |s.began| && s.barrier.time == s.began[c] + s.sys.timeSlot
            && s.sys.procs[cpu.proc - 1].pc == cpu.startPc + (s.barrier.time - s.began[c])
  {
    hide Increasing, B.Inv;
    RunInv(jobs, run, j);
    assert ClockOk(run[j], c);
    WorkingSlot(run[j].barrier, c + 1);
    InvCpu(run[j].sys, c);
    assert C.PcbOk(run[j].sys.procs[run[j].sys.cpus[c].proc - 1]);
  }

  /** Loads happen on time in the whole simulator: process k is added in slot
      max(start_k, L_{k-1} + 1), whatever the CPUs do. */
  lemma LoadsOnTime(jobs: seq<Job>, run: seq<Os>, j: nat)
    requires IsRun(jobs, run) && j < |run|
    ensures |run[j].loads| <= |jobs|
    ensures forall k :: 0 <= k < |run[j].loads| ==> run[j].loads[k] == L.LoadSlot(Starts(jobs), k)
  {
    hide B.Inv, C.Inv, ClockOk;
    RunInv(jobs, run, j);
  }

  /** Strict priority in the whole simulator, as an instance of RunParts: whatever
      get_proc would return now heads its own level, and no better process is
      ready. */
  lemma BestRunsFirst(jobs: seq<Job>, run: seq<Os>, j: nat)
    requires IsRun(jobs, run) && j < |run|
    ensures var s := run[j].sys; var p := Get(s.sched).1;
            p != 0 ==> R.Ready(s, p) && forall q :: R.Ready(s, q) ==> s.procs[p - 1].prio <= s.procs[q - 1].prio
  {
    hide Get, R.Ready;
    var crun, brun, lrun := RunParts(jobs, run, j);
    R.StrictPriority(crun, |crun| - 1);
  }
}
