// What every run of the process table promises: the forest of parents, the
// absence of lost wakeups, whom kill and set_prio reach, and the time slice.
module ProcRuns {
  import opened Common
  import opened ProcTable
  import opened ProcInvariant

  ghost predicate Follows(run: seq<Table>, es: seq<Event>, i: nat)
    requires i < |es| < |run|
  {
    Enabled(run[i], es[i]) && run[i + 1] == Apply(run[i], es[i])
  }

  // run[0], es[0], run[1], ..., run[|es|]: any interleaving of the processes.
  ghost predicate IsRun(run: seq<Table>, es: seq<Event>, n: nat) {
    && n > 0
    && |run| == |es| + 1
    && run[0] == Boot(n)
    && forall i :: 0 <= i < |es| ==> Follows(run, es, i)
  }

  lemma {:induction false} InvAlongRun(run: seq<Table>, es: seq<Event>, n: nat, i: nat)
    requires IsRun(run, es, n) && i < |run|
    ensures Inv(run[i]) && |run[i].ps| == n
  {
    if i == 0 {
      BootInv(n);
    } else {
      InvAlongRun(run, es, n, i - 1);
      assert Follows(run, es, i - 1);
      InvStep(run[i - 1], es[i - 1]);
    }
  }

  // ---------------------------------------------------------------- the forest

  predicate Live(p: Proc) { p.Up() || p.state == Zombie }

  // Pids are never shared, and every live process but init has a parent that
  // is up and older, however often slots have been freed and reused.
  lemma {:induction false} ParentsAreUpAndOlder(run: seq<Table>, es: seq<Event>, n: nat, i: nat, c: nat)
    requires IsRun(run, es, n) && i < |run| && c < n && c != INIT
    requires |run[i].ps| == n && Live(run[i].ps[c])
    ensures forall d :: 0 <= d < n && d != c ==> run[i].ps[d].pid != run[i].ps[c].pid
    ensures 0 < run[i].ps[c].pid < run[i].nextpid
    ensures run[i].ps[c].parent.Some?
    ensures var q := run[i].ps[c].parent.value;
      q < n && run[i].ps[q].Up() && run[i].ps[q].pid < run[i].ps[c].pid
  {
    InvAlongRun(run, es, n, i);
    assert SlotOk(run[i].ps, c);
    forall d | 0 <= d < n && d != c
      ensures run[i].ps[d].pid != run[i].ps[c].pid
    {
      assert run[i].ps[c].pid != 0;
    }
  }

  // A chain of parents, each up and older than the one before, down to init.
  ghost predicate LeadsToInit(ps: seq<Proc>, chain: seq<nat>) {
    && |chain| > 0 && chain[0] < |ps|
    && (chain[0] == INIT ==> |chain| == 1)
    && (chain[0] != INIT ==>
          && |chain| > 1 && chain[1] < |ps|
          && ps[chain[0]].parent == Some(chain[1])
          && ps[chain[1]].Up() && ps[chain[1]].pid < ps[chain[0]].pid
          && LeadsToInit(ps, chain[1..]))
  }

  ghost function Chain(t: Table, c: nat): (chain: seq<nat>)
    requires Inv(t) && c < |t.ps| && Live(t.ps[c])
    ensures |chain| > 0 && chain[0] == c && LeadsToInit(t.ps, chain)
    decreases t.ps[c].pid
  {
    assert SlotOk(t.ps, c);
    if c == INIT then [INIT]
    else
      var rest := Chain(t, t.ps[c].parent.value);
      assert ([c] + rest)[1..] == rest;
      [c] + rest
  }

  lemma {:induction false} EveryChainEndsAtInit(run: seq<Table>, es: seq<Event>, n: nat, i: nat, c: nat)
    requires IsRun(run, es, n) && i < |run| && c < n
    requires |run[i].ps| == n && Live(run[i].ps[c])
    ensures exists chain: seq<nat> :: LeadsToInit(run[i].ps, chain) && chain[0] == c
  {
    InvAlongRun(run, es, n, i);
    var chain := Chain(run[i], c);
    assert LeadsToInit(run[i].ps, chain);
  }

  // ---------------------------------------------------------------- the wakeups

  // A process asleep in wait always has something to wait for: a child, no
  // zombie child already there to be reaped, and no pending kill.
  lemma {:induction false} NoLostWakeup(run: seq<Table>, es: seq<Event>, n: nat, i: nat, c: nat)
    requires IsRun(run, es, n) && i < |run| && c < n && |run[i].ps| == n
    requires run[i].ps[c].state == Sleeping && run[i].ps[c].chan == ProcChan(c)
    ensures exists j :: 0 <= j < n && run[i].ps[j].parent == Some(c)
    ensures forall j :: 0 <= j < n && run[i].ps[j].parent == Some(c) ==> run[i].ps[j].state != Zombie
    ensures !run[i].ps[c].killed
  {
    InvAlongRun(run, es, n, i);
    assert WaiterOk(run[i].ps, c);
    forall j | 0 <= j < n && run[i].ps[j].parent == Some(c)
      ensures run[i].ps[j].state != Zombie
    {
      assert !IsZombieChild(run[i].ps[j], c);
    }
  }

  // No process channel is ever slept on by anyone but its own process in wait.
  lemma {:induction false} OnlyWaitersSleepOnProcesses(run: seq<Table>, es: seq<Event>, n: nat, i: nat, c: nat)
    requires IsRun(run, es, n) && i < |run| && c < n && |run[i].ps| == n
    requires run[i].ps[c].state == Sleeping && run[i].ps[c].chan.ProcChan?
    ensures run[i].ps[c].chan == ProcChan(c)
  {
    InvAlongRun(run, es, n, i);
    assert WaiterOk(run[i].ps, c);
  }

  // ------------------------------------------------------ whom a pid reaches

  // set_prio searches by pid, and yet changes the caller's slot alone.
  lemma {:induction false} SetPrioChangesOnlyTheCaller(run: seq<Table>, es: seq<Event>, n: nat, i: nat, c: nat, v: int)
    requires IsRun(run, es, n) && i < |run| && c < n && |run[i].ps| == n
    requires run[i].ps[c].state == Running
    ensures SetNice(run[i].ps, run[i].ps[c].pid, v) == run[i].ps[c := run[i].ps[c].(nice := v)]
  {
    InvAlongRun(run, es, n, i);
    var ps := run[i].ps;
    forall d | 0 <= d < n && d != c
      ensures ps[d].pid != ps[c].pid
    {
    }
  }

  // kill strikes the live process with that pid and no other slot. Its success
  // without such a process is exactly a free slot that still carries the pid:
  // pid 0, or the pid of a fork that failed.
  lemma {:induction false} KillStrikesTheLiveProcess(run: seq<Table>, es: seq<Event>, n: nat, i: nat, pid: int)
    requires IsRun(run, es, n) && i < |run| && |run[i].ps| == n
    ensures var ps, k := run[i].ps, FirstWithPid(run[i].ps, pid);
      && (forall c :: 0 <= c < n && ps[c].state != Unused && ps[c].pid == pid ==> c == k)
      && (forall c :: 0 <= c < n && c != k ==> KillPid(ps, pid)[c] == ps[c])
      && (k < n ==> KillPid(ps, pid)[k].killed && KillPid(ps, pid)[k].state != Sleeping)
      && ((k < n && forall c :: 0 <= c < n && ps[c].state != Unused ==> ps[c].pid != pid)
          <==> (k < n && ps[k].state == Unused))
  {
    InvAlongRun(run, es, n, i);
    var ps, k := run[i].ps, FirstWithPid(run[i].ps, pid);
    forall c | 0 <= c < n && ps[c].state != Unused && ps[c].pid == pid
      ensures c == k
    {
      assert ps[c].pid != 0 && k <= c;
    }
  }

  // -------------------------------------------------------------- the time slice

  // The process goes off the processor other than by the timer.
  predicate Blocks(e: Event, c: nat) {
    e == EvExit(c) || e == EvWait(c) || (e.EvSleep? && e.c == c)
  }

  function Ticks(es: seq<Event>, i: nat, j: nat, c: nat): nat
    requires i <= j <= |es|
    decreases j
  {
    if i == j then 0 else Ticks(es, i, j - 1, c) + (if es[j - 1] == EvTick(c) then 1 else 0)
  }

  // The running process c has the slice it had.
  ghost predicate SameSlice(t: Table, t': Table, c: nat) {
    && c < |t.ps| == |t'.ps| && t'.ps[c].state == Running
    && t'.ps[c].cpucount == t.ps[c].cpucount && t'.ps[c].prio == t.ps[c].prio
  }

  lemma {:induction false} SliceThroughFork(t: Table, e: Event, c: nat)
    requires Inv(t) && Enabled(t, e) && c < |t.ps| && t.ps[c].state == Running
    requires e.EvForkAlloc? || e.EvForkAbort? || e.EvForkLink? || e.EvForkReady?
    ensures SameSlice(t, Apply(t, e), c)
  {
    assert SlotOk(t.ps, e.c);
  }

  // It keeps its slice through everybody else's steps.
  lemma {:induction false} SliceKept(t: Table, e: Event, c: nat)
    requires Inv(t) && Enabled(t, e) && c < |t.ps|
    requires t.ps[c].state == Running && !Blocks(e, c) && e != EvTick(c)
    ensures SameSlice(t, Apply(t, e), c)
  {
    if e.EvForkAlloc? || e.EvForkAbort? || e.EvForkLink? || e.EvForkReady? {
      SliceThroughFork(t, e, c);
    } else if e.EvExit? {
      assert Apply(t, e).ps[c] == ExitSlot(t.ps, e.c, c);
    }
  }

  // A dispatched process starts its slice at zero.
  lemma {:induction false} SliceStarts(t: Table, c: nat)
    requires Inv(t) && Enabled(t, EvDispatch(c))
    ensures |Apply(t, EvDispatch(c)).ps| == |t.ps|
    ensures Apply(t, EvDispatch(c)).ps[c].state == Running && Apply(t, EvDispatch(c)).ps[c].cpucount == 0
  {
    assert SlotOk(t.ps, c) && QuantumOk(t.ps, c);
  }

  lemma {:induction false} SliceTicks(t: Table, c: nat)
    requires Enabled(t, EvTick(c)) && t.ps[c].cpucount + 1 <= t.ps[c].prio
    ensures |Apply(t, EvTick(c)).ps| == |t.ps|
    ensures var p := Apply(t, EvTick(c)).ps[c];
      p.state == t.ps[c].state && p.prio == t.ps[c].prio && p.cpucount == t.ps[c].cpucount + 1
  {
  }

  lemma {:induction false} SliceStep(t: Table, e: Event, t': Table, c: nat)
    requires Inv(t) && Enabled(t, e) && t' == Apply(t, e) && c < |t.ps| && t.ps[c].state == Running && !Blocks(e, c)
    requires e == EvTick(c) ==> t.ps[c].cpucount + 1 <= t.ps[c].prio
    ensures |t'.ps| == |t.ps| && t'.ps[c].state == Running && t'.ps[c].prio == t.ps[c].prio
    ensures t'.ps[c].cpucount == t.ps[c].cpucount + (if e == EvTick(c) then 1 else 0)
  {
    if e != EvTick(c) {
      SliceKept(t, e, c);
    } else {
      SliceTicks(t, c);
    }
  }

  lemma {:induction false} TicksStep(es: seq<Event>, i: nat, j: nat, c: nat)
    requires i < j <= |es|
    ensures Ticks(es, i, j, c) == Ticks(es, i, j - 1, c) + (if es[j - 1] == EvTick(c) then 1 else 0)
  {
  }

  lemma {:induction false} SliceStepInRun(run: seq<Table>, es: seq<Event>, n: nat, j: nat, c: nat)
    requires IsRun(run, es, n) && j < |es| && c < |run[j].ps| && run[j].ps[c].state == Running && !Blocks(es[j], c)
    requires es[j] == EvTick(c) ==> run[j].ps[c].cpucount + 1 <= run[j].ps[c].prio
    ensures |run[j + 1].ps| == |run[j].ps| && run[j + 1].ps[c].state == Running
    ensures run[j + 1].ps[c].prio == run[j].ps[c].prio
    ensures run[j + 1].ps[c].cpucount == run[j].ps[c].cpucount + (if es[j] == EvTick(c) then 1 else 0)
  {
    InvAlongRun(run, es, n, j);
    assert Follows(run, es, j);
    SliceStep(run[j], es[j], run[j + 1], c);
  }

  // Dispatched at step i, and not blocking before step j: with as many ticks
  // as its rank behind it, still running; at one more, out.
  lemma {:induction false} SliceSpent(run: seq<Table>, es: seq<Event>, n: nat, i: nat, j: nat, c: nat)
    requires IsRun(run, es, n) && i < j < |run| && c < n
    requires es[i] == EvDispatch(c)
    requires forall k :: i < k < j ==> !Blocks(es[k], c)
    requires |run[i + 1].ps| == n && Ticks(es, i + 1, j, c) <= run[i + 1].ps[c].prio
    ensures |run[j].ps| == n && run[j].ps[c].state == Running
    ensures run[j].ps[c].prio == run[i + 1].ps[c].prio && run[j].ps[c].cpucount == Ticks(es, i + 1, j, c)
    decreases j
  {
    if j == i + 1 {
      assert Ticks(es, i + 1, j, c) == 0;
      InvAlongRun(run, es, n, i);
      assert Follows(run, es, i);
      SliceStarts(run[i], c);
    } else {
      TicksStep(es, i + 1, j, c);
      SliceSpent(run, es, n, i, j - 1, c);
      SliceStepInRun(run, es, n, j - 1, c);
    }
  }

  // The slice is exactly prio + 1 ticks, and prio is a rank among the slots.
  lemma {:induction false} YieldsAtExactlyItsLastTick(run: seq<Table>, es: seq<Event>, n: nat, i: nat, j: nat, c: nat)
    requires IsRun(run, es, n) && i < j < |es| && c < n
    requires es[i] == EvDispatch(c) && es[j] == EvTick(c)
    requires forall k :: i < k < j ==> !Blocks(es[k], c)
    requires |run[i + 1].ps| == n && Ticks(es, i + 1, j, c) <= run[i + 1].ps[c].prio
    ensures 1 <= run[i + 1].ps[c].prio <= n
    ensures |run[j + 1].ps| == n
    ensures run[j + 1].ps[c].state ==
      if Ticks(es, i + 1, j + 1, c) == run[i + 1].ps[c].prio + 1 then Runnable else Running
  {
    InvAlongRun(run, es, n, i + 1);
    SliceSpent(run, es, n, i, i + 1, c);
    assert SlotOk(run[i + 1].ps, c);
    SliceSpent(run, es, n, i, j, c);
    assert Follows(run, es, j);
  }

  // The rank orders by nice value: the nicer of two live processes gets the
  // strictly longer slice if both are ranked in the same table.
  lemma {:induction false} BelowGrows(ps: seq<Proc>, lo: int, hi: int)
    requires lo <= hi
    ensures Below(ps, lo) <= Below(ps, hi)
  {
    if |ps| > 0 {
      BelowGrows(ps[..|ps| - 1], lo, hi);
    }
  }

  lemma {:induction false} NicerRanksLater(ps: seq<Proc>, c: nat, d: nat)
    requires c < |ps| && d < |ps| && ps[c].state != Unused && ps[c].nice < ps[d].nice
    ensures Rank(ps, ps[c].nice) < Rank(ps, ps[d].nice)
  {
    BelowStrict(ps, ps[c].nice, ps[d].nice, c);
  }

  lemma {:induction false} BelowStrict(ps: seq<Proc>, lo: int, hi: int, c: nat)
    requires c < |ps| && ps[c].state != Unused && lo <= ps[c].nice < hi
    ensures Below(ps, lo) < Below(ps, hi)
  {
    if c < |ps| - 1 {
      BelowStrict(ps[..|ps| - 1], lo, hi, c);
    } else {
      BelowGrows(ps[..|ps| - 1], lo, hi);
    }
  }
}
