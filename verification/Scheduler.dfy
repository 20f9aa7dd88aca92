// The scheduler's round-robin scan on one processor, and how long a runnable
// slot can be passed over.
module Scheduler {
  import opened ProcTable
  import opened ProcInvariant

  // The table and the slot that the scan in scheduler() is at. A process runs
  // exactly when the slot at the cursor is RUNNING.
  datatype Cpu = Cpu(t: Table, cursor: nat)

  datatype Step =
    | Skip               // the slot at the cursor is not RUNNABLE
    | Choose             // it is: switch to it
    | Act(e: Event)      // a step of the running process, or an interrupt

  predicate Busy(s: Cpu) { s.cursor < |s.t.ps| && s.t.ps[s.cursor].state == Running }

  function Next(cursor: nat, n: nat): nat { if cursor + 1 >= n then 0 else cursor + 1 }

  // The process an event belongs to is the one on the processor.
  predicate OfRunning(e: Event, c: nat) {
    match e
    case EvWakeup(_) => true
    case EvKill(_) => true
    case EvDispatch(_) => false
    case _ => e.c == c
  }

  predicate CanStep(s: Cpu, a: Step) {
    && s.cursor < |s.t.ps|
    && match a
       case Skip => !Busy(s) && s.t.ps[s.cursor].state != Runnable
       case Choose => !Busy(s) && s.t.ps[s.cursor].state == Runnable
       case Act(e) => Enabled(s.t, e) && OfRunning(e, s.cursor) && (Busy(s) || e.EvWakeup?)
  }

  function DoStep(s: Cpu, a: Step): Cpu
    requires CanStep(s, a)
  {
    match a
    case Skip => s.(cursor := Next(s.cursor, |s.t.ps|))
    case Choose => s.(t := Apply(s.t, EvDispatch(s.cursor)))
    case Act(e) =>
      var t' := Apply(s.t, e);
      if Busy(s) && !Busy(Cpu(t', s.cursor)) then Cpu(t', Next(s.cursor, |s.t.ps|))
      else s.(t := t')
  }

  ghost predicate Follows(run: seq<Cpu>, steps: seq<Step>, i: nat)
    requires i < |steps| < |run|
  {
    CanStep(run[i], steps[i]) && run[i + 1] == DoStep(run[i], steps[i])
  }

  ghost predicate IsRun(run: seq<Cpu>, steps: seq<Step>, n: nat) {
    && n > 0
    && |run| == |steps| + 1
    && run[0] == Cpu(Boot(n), 0)
    && forall i :: 0 <= i < |steps| ==> Follows(run, steps, i)
  }

  // Nobody runs but the process at the cursor.
  ghost predicate CpuInv(s: Cpu, n: nat) {
    && Inv(s.t) && |s.t.ps| == n && s.cursor < n
    && (forall c :: 0 <= c < n && c != s.cursor ==> s.t.ps[c].state != Running)
  }

  lemma {:induction false} NoForkStartsRunning(t: Table, e: Event, c: nat)
    requires Inv(t) && Enabled(t, e) && c < |t.ps| && t.ps[c].state != Running
    requires e.EvForkAlloc? || e.EvForkAbort? || e.EvForkLink? || e.EvForkReady?
    ensures |Apply(t, e).ps| == |t.ps| && Apply(t, e).ps[c].state != Running
  {
  }

  lemma {:induction false} OnlyDispatchStartsRunning(t: Table, e: Event, c: nat)
    requires Inv(t) && Enabled(t, e) && c < |t.ps| && e != EvDispatch(c)
    requires t.ps[c].state != Running
    ensures |Apply(t, e).ps| == |t.ps| && Apply(t, e).ps[c].state != Running
  {
    if e.EvForkAlloc? || e.EvForkAbort? || e.EvForkLink? || e.EvForkReady? {
      NoForkStartsRunning(t, e, c);
    } else if e.EvExit? {
      assert Apply(t, e).ps[c] == ExitSlot(t.ps, e.c, c);
    }
  }

  lemma {:induction false} CpuInvStep(s: Cpu, a: Step, n: nat)
    requires CpuInv(s, n) && CanStep(s, a)
    ensures CpuInv(DoStep(s, a), n)
  {
    if a.Choose? {
      InvStep(s.t, EvDispatch(s.cursor));
    } else if a.Act? {
      InvStep(s.t, a.e);
      forall c | 0 <= c < n && s.t.ps[c].state != Running
        ensures |Apply(s.t, a.e).ps| == n && Apply(s.t, a.e).ps[c].state != Running
      {
        OnlyDispatchStartsRunning(s.t, a.e, c);
      }
    }
  }

  lemma {:induction false} CpuInvAlongRun(run: seq<Cpu>, steps: seq<Step>, n: nat, i: nat)
    requires IsRun(run, steps, n) && i < |run|
    ensures CpuInv(run[i], n)
  {
    if i == 0 {
      BootInv(n);
    } else {
      CpuInvAlongRun(run, steps, n, i - 1);
      assert Follows(run, steps, i - 1);
      CpuInvStep(run[i - 1], steps[i - 1], n);
    }
  }

  // How many slots the scan has still to pass before it reaches slot c.
  function Distance(cursor: nat, c: nat, n: nat): int
    requires cursor < n && c < n
  {
    if cursor <= c then c - cursor else n - cursor + c
  }

  // The ticks that can still be spent before slot c is dispatched: what is left
  // of the running slice, and a longest slice for every other slot on the way.
  function Budget(s: Cpu, c: nat): int
    requires s.cursor < |s.t.ps| && c < |s.t.ps|
  {
    var n := |s.t.ps|;
    if Busy(s) then
      s.t.ps[s.cursor].prio + 1 - s.t.ps[s.cursor].cpucount + (Distance(s.cursor, c, n) - 1) * (n + 1)
    else
      Distance(s.cursor, c, n) * (n + 1)
  }

  predicate IsTick(a: Step) { a.Act? && a.e.EvTick? }

  lemma {:induction false} NextIsOneCloser(cursor: nat, c: nat, n: nat)
    requires cursor < n && c < n && cursor != c
    ensures Distance(Next(cursor, n), c, n) == Distance(cursor, c, n) - 1
    ensures (Distance(cursor, c, n) - 1) * (n + 1) == Distance(cursor, c, n) * (n + 1) - (n + 1)
  {
  }

  // The slice of the running process after a step that leaves it running.
  lemma {:induction false} RunningSlice(t: Table, e: Event, c: nat)
    requires Inv(t) && Enabled(t, e) && OfRunning(e, c) && c < |t.ps| && t.ps[c].state == Running
    requires |Apply(t, e).ps| == |t.ps| && Apply(t, e).ps[c].state == Running
    ensures Apply(t, e).ps[c].prio == t.ps[c].prio
    ensures Apply(t, e).ps[c].cpucount == t.ps[c].cpucount + (if e.EvTick? then 1 else 0)
  {
  }

  // A process that has just left the processor was at its last tick if it
  // left by a tick.
  lemma {:induction false} LeavingSlice(t: Table, e: Event, c: nat)
    requires Inv(t) && Enabled(t, e) && OfRunning(e, c) && c < |t.ps| && t.ps[c].state == Running
    requires |Apply(t, e).ps| == |t.ps| && Apply(t, e).ps[c].state != Running
    ensures (if e.EvTick? then 1 else 0) <= t.ps[c].prio + 1 - t.ps[c].cpucount
  {
    assert SlotOk(t.ps, c);
  }

  lemma {:induction false} BudgetActs(s: Cpu, e: Event, n: nat, c: nat)
    requires CpuInv(s, n) && CanStep(s, Act(e)) && c < n
    requires s.t.ps[c].state == Runnable && Busy(s)
    requires |Apply(s.t, e).ps| == n
    ensures DoStep(s, Act(e)).cursor < n
    ensures !Busy(DoStep(s, Act(e))) || DoStep(s, Act(e)).cursor == s.cursor
    ensures Budget(DoStep(s, Act(e)), c) + (if e.EvTick? then 1 else 0) <= Budget(s, c)
  {
    if Apply(s.t, e).ps[s.cursor].state == Running {
      RunningSlice(s.t, e, s.cursor);
    } else {
      NextIsOneCloser(s.cursor, c, n);
      LeavingSlice(s.t, e, s.cursor);
      LeftIdle(s, e, n);
    }
  }

  // When the process at the cursor goes off, nobody is on.
  lemma {:induction false} LeftIdle(s: Cpu, e: Event, n: nat)
    requires CpuInv(s, n) && CanStep(s, Act(e)) && Busy(s)
    requires |Apply(s.t, e).ps| == n && Apply(s.t, e).ps[s.cursor].state != Running
    ensures !Busy(DoStep(s, Act(e)))
  {
    var d := Next(s.cursor, n);
    if d != s.cursor {
      OnlyDispatchStartsRunning(s.t, e, d);
    }
  }

  lemma {:induction false} BudgetScans(s: Cpu, a: Step, n: nat, c: nat)
    requires CpuInv(s, n) && CanStep(s, a) && c < n && !a.Act?
    requires s.t.ps[c].state == Runnable
    requires DoStep(s, a).cursor < |DoStep(s, a).t.ps| == n && DoStep(s, a).t.ps[c].state == Runnable
    ensures Budget(DoStep(s, a), c) <= Budget(s, c)
  {
    assert s.cursor != c;
    NextIsOneCloser(s.cursor, c, n);
    if a.Choose? {
      CpuInvStep(s, a, n);
      assert SlotOk(DoStep(s, a).t.ps, s.cursor);
    } else if n > 1 {
      assert !Busy(DoStep(s, a));
    }
  }

  lemma {:induction false} BudgetStep(s: Cpu, a: Step, n: nat, c: nat)
    requires CpuInv(s, n) && CanStep(s, a) && c < n
    requires s.t.ps[c].state == Runnable
    requires DoStep(s, a).cursor < |DoStep(s, a).t.ps| == n && DoStep(s, a).t.ps[c].state == Runnable
    ensures Budget(DoStep(s, a), c) + (if IsTick(a) then 1 else 0) <= Budget(s, c)
  {
    if !a.Act? {
      BudgetScans(s, a, n, c);
    } else if Busy(s) {
      BudgetActs(s, a.e, n, c);
    }
  }

  function TickCount(steps: seq<Step>, i: nat, j: nat): nat
    requires i <= j <= |steps|
    decreases j
  {
    if i == j then 0 else TickCount(steps, i, j - 1) + (if IsTick(steps[j - 1]) then 1 else 0)
  }

  // Slot c is RUNNABLE from step i to step j.
  ghost predicate Waits(run: seq<Cpu>, n: nat, i: nat, j: nat, c: nat)
    requires j < |run|
  {
    forall k :: i <= k <= j ==> c < |run[k].t.ps| == n && run[k].cursor < n && run[k].t.ps[c].state == Runnable
  }

  lemma {:induction false} BudgetStepInRun(run: seq<Cpu>, steps: seq<Step>, n: nat, j: nat, c: nat)
    requires IsRun(run, steps, n) && j < |steps| && Waits(run, n, j, j + 1, c)
    ensures Budget(run[j + 1], c) + (if IsTick(steps[j]) then 1 else 0) <= Budget(run[j], c)
  {
    CpuInvAlongRun(run, steps, n, j);
    assert Follows(run, steps, j);
    assert run[j].t.ps[c].state == run[j + 1].t.ps[c].state == Runnable;
    BudgetStep(run[j], steps[j], n, c);
  }

  lemma {:induction false} BudgetAlongRun(run: seq<Cpu>, steps: seq<Step>, n: nat, i: nat, j: nat, c: nat)
    requires IsRun(run, steps, n) && i <= j < |run| && Waits(run, n, i, j, c)
    ensures Budget(run[j], c) + TickCount(steps, i, j) <= Budget(run[i], c)
    decreases j
  {
    if i < j {
      BudgetAlongRun(run, steps, n, i, j - 1, c);
      BudgetStepInRun(run, steps, n, j - 1, c);
    }
  }

  lemma {:induction false} MulMono(a: int, b: int, k: int)
    requires 0 <= a <= b && 0 <= k
    ensures 0 <= a * k <= b * k
  {
  }

  lemma {:induction false} BudgetBounds(s: Cpu, n: nat, c: nat)
    requires CpuInv(s, n) && c < n && s.t.ps[c].state == Runnable
    ensures 0 <= Budget(s, c) <= (n - 1) * (n + 1)
    ensures Budget(s, c) == 0 ==> !Busy(s) && s.cursor == c
  {
    assert SlotOk(s.t.ps, s.cursor);
    var d := Distance(s.cursor, c, n);
    if Busy(s) {
      MulMono(d - 1, n - 2, n + 1);
      assert (n - 2) * (n + 1) + (n + 1) == (n - 1) * (n + 1);
    } else {
      MulMono(d, n - 1, n + 1);
      if d > 0 {
        MulMono(1, d, n + 1);
      }
    }
  }

  // The slots that the scan passes, each for a turn or for nothing.
  function PassCount(run: seq<Cpu>, i: nat, j: nat): nat
    requires i <= j < |run|
    decreases j
  {
    if i == j then 0 else PassCount(run, i, j - 1) + (if run[j].cursor != run[j - 1].cursor then 1 else 0)
  }

  lemma {:induction false} DistanceStep(s: Cpu, a: Step, n: nat, c: nat)
    requires CpuInv(s, n) && CanStep(s, a) && c < n && s.t.ps[c].state == Runnable
    requires |DoStep(s, a).t.ps| == n
    ensures DoStep(s, a).cursor < n
    ensures Distance(DoStep(s, a).cursor, c, n) + (if DoStep(s, a).cursor != s.cursor then 1 else 0) <= Distance(s.cursor, c, n)
  {
    if s.cursor != c {
      NextIsOneCloser(s.cursor, c, n);
    }
  }

  lemma {:induction false} DistanceStepInRun(run: seq<Cpu>, steps: seq<Step>, n: nat, j: nat, c: nat)
    requires IsRun(run, steps, n) && j < |steps| && Waits(run, n, j, j + 1, c)
    ensures Distance(run[j + 1].cursor, c, n) + (if run[j + 1].cursor != run[j].cursor then 1 else 0) <= Distance(run[j].cursor, c, n)
  {
    CpuInvAlongRun(run, steps, n, j);
    assert Follows(run, steps, j);
    assert run[j].t.ps[c].state == run[j + 1].t.ps[c].state == Runnable;
    DistanceStep(run[j], steps[j], n, c);
  }

  lemma {:induction false} DistanceAlongRun(run: seq<Cpu>, steps: seq<Step>, n: nat, i: nat, j: nat, c: nat)
    requires IsRun(run, steps, n) && i <= j < |run| && Waits(run, n, i, j, c)
    ensures Distance(run[j].cursor, c, n) + PassCount(run, i, j) <= Distance(run[i].cursor, c, n)
    decreases j
  {
    if i < j {
      DistanceAlongRun(run, steps, n, i, j - 1, c);
      DistanceStepInRun(run, steps, n, j - 1, c);
    }
  }

  // While a slot stays RUNNABLE, the scan passes at most NPROC-1 others, and at
  // most (NPROC-1)*(NPROC+1) ticks go to them.
  lemma {:induction false} RunnableSlotIsNotStarved(run: seq<Cpu>, steps: seq<Step>, n: nat, i: nat, j: nat, c: nat)
    requires IsRun(run, steps, n) && i <= j < |run| && Waits(run, n, i, j, c)
    ensures PassCount(run, i, j) <= n - 1
    ensures TickCount(steps, i, j) <= (n - 1) * (n + 1)
  {
    BudgetAlongRun(run, steps, n, i, j, c);
    DistanceAlongRun(run, steps, n, i, j, c);
    CpuInvAlongRun(run, steps, n, i);
    CpuInvAlongRun(run, steps, n, j);
    BudgetBounds(run[i], n, c);
    BudgetBounds(run[j], n, c);
  }

  // And at the end of its budget it is the scan's next choice: with nobody
  // running and no slot left to pass, the only step is to dispatch it.
  lemma {:induction false} ReachedSlotIsDispatched(s: Cpu, n: nat, c: nat, a: Step)
    requires CpuInv(s, n) && c < n && s.t.ps[c].state == Runnable && CanStep(s, a)
    requires Budget(s, c) == 0
    ensures (a == Choose && s.cursor == c) || (a.Act? && a.e.EvWakeup?)
  {
    BudgetBounds(s, n, c);
  }
}
