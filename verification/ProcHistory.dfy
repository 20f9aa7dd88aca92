// What a slot of the process table holds, told by the steps that have come
// before: who sleeps and until when, who was dispatched how often, with what
// nice value and rank, whose child it is, and what wait gives back.
module ProcHistory {
  import opened Common
  import opened ProcTable
  import opened ProcInvariant
  import opened ProcRuns

  predicate IsFork(e: Event) { e.EvForkAlloc? || e.EvForkAbort? || e.EvForkLink? || e.EvForkReady? }

  // ---------------------------------------------------------------- the sleepers

  predicate SleepsOn(p: Proc, chan: Chan) { p.state == Sleeping && p.chan == chan }

  // After a wakeup on a channel nobody sleeps there: all who did can run, and
  // nothing else has changed.
  lemma {:induction false} WakeupWakesAllSleepers(run: seq<Table>, es: seq<Event>, n: nat, i: nat, id: int)
    requires IsRun(run, es, n) && i < |es| && es[i] == EvWakeup(id)
    ensures |run[i].ps| == |run[i + 1].ps| == n && run[i + 1].nextpid == run[i].nextpid
    ensures forall c :: 0 <= c < n ==>
      var p := run[i].ps[c];
      run[i + 1].ps[c] == if p.state == Sleeping && p.chan == OtherChan(id) then p.(state := Runnable) else p
    ensures forall p :: p in run[i + 1].ps && p.state == Sleeping ==> p.chan != OtherChan(id)
  {
    InvAlongRun(run, es, n, i);
    assert Follows(run, es, i);
  }

  // The end of a sleep on a channel that is not a process.
  predicate Ends(e: Event, id: int, pid: nat) { e == EvWakeup(id) || e == EvKill(pid) }

  ghost predicate SleepStep(p: Proc, e: Event, p': Proc, id: int) {
    SleepsOn(p, OtherChan(id)) ==>
      p'.pid == p.pid && (if Ends(e, id, p.pid) then p'.state == Runnable else SleepsOn(p', OtherChan(id)))
  }

  lemma {:induction false} SleepThroughFork(t: Table, e: Event, c: nat, id: int)
    requires Inv(t) && Enabled(t, e) && c < |t.ps| && IsFork(e)
    ensures |Apply(t, e).ps| == |t.ps| && SleepStep(t.ps[c], e, Apply(t, e).ps[c], id)
  {
    assert SlotOk(t.ps, e.c) && SlotOk(t.ps, c);
  }

  lemma {:induction false} SleepThroughExit(t: Table, e: Event, c: nat, id: int)
    requires Inv(t) && Enabled(t, e) && c < |t.ps| && e.EvExit?
    ensures |Apply(t, e).ps| == |t.ps| && SleepStep(t.ps[c], e, Apply(t, e).ps[c], id)
  {
    assert SlotOk(t.ps, e.c);
    assert Apply(t, e).ps[c] == ExitSlot(t.ps, e.c, c);
  }

  lemma {:induction false} SleepThroughKill(t: Table, e: Event, c: nat, id: int)
    requires Inv(t) && Enabled(t, e) && c < |t.ps| && e.EvKill?
    ensures |Apply(t, e).ps| == |t.ps| && SleepStep(t.ps[c], e, Apply(t, e).ps[c], id)
  {
    if t.ps[c].state == Sleeping {
      KilledSlot(t, c, e.pid);
    }
  }

  // A pid that a slot in use has leads kill to that slot.
  lemma {:induction false} KilledSlot(t: Table, c: nat, pid: int)
    requires PidsOk(t) && c < |t.ps| && t.ps[c].state != Unused
    ensures FirstWithPid(t.ps, pid) == c <==> pid == t.ps[c].pid
  {
    assert t.ps[c].pid != 0;
  }

  lemma {:induction false} SleepThroughOther(t: Table, e: Event, c: nat, id: int)
    requires Inv(t) && Enabled(t, e) && c < |t.ps| && !IsFork(e) && !e.EvExit? && !e.EvKill?
    ensures |Apply(t, e).ps| == |t.ps| && SleepStep(t.ps[c], e, Apply(t, e).ps[c], id)
  {
  }

  lemma {:induction false} SleepInRun(run: seq<Table>, es: seq<Event>, n: nat, j: nat, c: nat, id: int)
    requires IsRun(run, es, n) && j < |es| && c < n
    ensures |run[j + 1].ps| == |run[j].ps| == n && SleepStep(run[j].ps[c], es[j], run[j + 1].ps[c], id)
  {
    InvAlongRun(run, es, n, j);
    assert Follows(run, es, j);
    var t, e := run[j], es[j];
    if IsFork(e) {
      SleepThroughFork(t, e, c, id);
    } else if e.EvExit? {
      SleepThroughExit(t, e, c, id);
    } else if e.EvKill? {
      SleepThroughKill(t, e, c, id);
    } else {
      SleepThroughOther(t, e, c, id);
    }
  }

  lemma {:induction false} FallsAsleep(run: seq<Table>, es: seq<Event>, n: nat, i: nat, c: nat, id: int)
    requires IsRun(run, es, n) && i < |es| && es[i] == EvSleep(c, id)
    ensures c < n && |run[i].ps| == |run[i + 1].ps| == n
    ensures SleepsOn(run[i + 1].ps[c], OtherChan(id)) && run[i + 1].ps[c].pid == run[i].ps[c].pid
  {
    InvAlongRun(run, es, n, i);
    assert Follows(run, es, i);
  }

  lemma {:induction false} AsleepUntil(run: seq<Table>, es: seq<Event>, n: nat, i: nat, j: nat, c: nat, id: int)
    requires IsRun(run, es, n) && i < j < |run| && es[i] == EvSleep(c, id)
    requires c < n && |run[i].ps| == n
    requires forall k :: i < k < j ==> !Ends(es[k], id, run[i].ps[c].pid)
    ensures |run[j].ps| == n && SleepsOn(run[j].ps[c], OtherChan(id)) && run[j].ps[c].pid == run[i].ps[c].pid
    decreases j
  {
    if j == i + 1 {
      FallsAsleep(run, es, n, i, c, id);
    } else {
      AsleepUntil(run, es, n, i, j - 1, c, id);
      SleepInRun(run, es, n, j - 1, c, id);
    }
  }

  // Step m ends such a sleep, and no step between i and m does.
  ghost predicate FirstToEnd(es: seq<Event>, i: nat, m: nat, id: int, pid: nat)
    requires i < m < |es|
  {
    Ends(es[m], id, pid) && forall k :: i < k < m ==> !Ends(es[k], id, pid)
  }

  // A process that goes to sleep on a channel at step i is asleep all the time
  // up to step j exactly when there has been no wakeup on that channel and no
  // kill with its pid; whichever comes first makes it runnable.
  lemma {:induction false} SleepsExactlyUntilWokenOrKilled(run: seq<Table>, es: seq<Event>, n: nat, i: nat, j: nat, c: nat, id: int)
    requires IsRun(run, es, n) && i < j < |run| && es[i] == EvSleep(c, id)
    ensures c < n && forall k :: i <= k <= j ==> |run[k].ps| == n
    ensures (forall k :: i < k <= j ==> run[k].ps[c].state == Sleeping)
       <==> (forall k :: i < k < j ==> es[k] != EvWakeup(id) && es[k] != EvKill(run[i].ps[c].pid))
    ensures forall m :: i < m < j && FirstToEnd(es, i, m, id, run[i].ps[c].pid) ==> run[m + 1].ps[c].state == Runnable
  {
    FallsAsleep(run, es, n, i, c, id);
    var pid := run[i].ps[c].pid;
    forall k | i <= k <= j
      ensures |run[k].ps| == n
    {
      InvAlongRun(run, es, n, k);
    }
    forall k | i < k <= j && forall l :: i < l < k ==> !Ends(es[l], id, pid)
      ensures run[k].ps[c].state == Sleeping
    {
      AsleepUntil(run, es, n, i, k, c, id);
    }
    forall m | i < m < j && FirstToEnd(es, i, m, id, pid)
      ensures run[m + 1].ps[c].state == Runnable
    {
      AsleepUntil(run, es, n, i, m, c, id);
      SleepInRun(run, es, n, m, c, id);
    }
    if exists k :: i < k < j && Ends(es[k], id, pid) {
      var m := FirstEnd(es, id, pid, i + 1, j);
      assert FirstToEnd(es, i, m, id, pid);
      assert run[m + 1].ps[c].state == Runnable;
    }
  }

  lemma {:induction false} FirstEnd(es: seq<Event>, id: int, pid: nat, i: nat, j: nat) returns (m: nat)
    requires j <= |es| && exists k :: i <= k < j && Ends(es[k], id, pid)
    ensures i <= m < j && Ends(es[m], id, pid) && forall k :: i <= k < m ==> !Ends(es[k], id, pid)
    decreases j - i
  {
    m := i;
    if !Ends(es[i], id, pid) {
      m := FirstEnd(es, id, pid, i + 1, j);
    }
  }

  // The end of process c's sleep in wait: a kill, the exit of a child of its
  // own, or, for init, the exit of a process that leaves it a zombie.
  ghost predicate EndsWait(ps: seq<Proc>, e: Event, c: nat)
    requires c < |ps|
  {
    || e == EvKill(ps[c].pid)
    || (e.EvExit? && e.c < |ps| && ps[e.c].parent == Some(c))
    || (e.EvExit? && c == INIT && exists j :: 0 <= j < |ps| && ps[j].state == Zombie && ps[j].parent == Some(e.c))
  }

  ghost predicate WaitStep(ps: seq<Proc>, e: Event, ps': seq<Proc>, c: nat) {
    c < |ps| == |ps'| &&
    (SleepsOn(ps[c], ProcChan(c)) ==>
      ps'[c].pid == ps[c].pid
      && (if EndsWait(ps, e, c) then ps'[c].state == Runnable else SleepsOn(ps'[c], ProcChan(c))))
  }

  lemma {:induction false} WaitThroughFork(t: Table, e: Event, c: nat)
    requires Inv(t) && Enabled(t, e) && c < |t.ps| && IsFork(e)
    ensures WaitStep(t.ps, e, Apply(t, e).ps, c)
  {
    assert SlotOk(t.ps, e.c) && SlotOk(t.ps, c);
  }

  lemma {:induction false} WaitThroughExit(t: Table, e: Event, c: nat)
    requires Inv(t) && Enabled(t, e) && c < |t.ps| && e.EvExit?
    ensures WaitStep(t.ps, e, Apply(t, e).ps, c)
  {
    assert SlotOk(t.ps, e.c);
    assert Apply(t, e).ps[c] == ExitSlot(t.ps, e.c, c);
  }

  lemma {:induction false} WaitThroughKill(t: Table, e: Event, c: nat)
    requires Inv(t) && Enabled(t, e) && c < |t.ps| && e.EvKill?
    ensures WaitStep(t.ps, e, Apply(t, e).ps, c)
  {
    if t.ps[c].state == Sleeping {
      KilledSlot(t, c, e.pid);
    }
  }

  lemma {:induction false} WaitThroughOther(t: Table, e: Event, c: nat)
    requires Inv(t) && Enabled(t, e) && c < |t.ps| && !IsFork(e) && !e.EvExit? && !e.EvKill?
    ensures WaitStep(t.ps, e, Apply(t, e).ps, c)
  {
  }

  lemma {:induction false} WaitInRun(run: seq<Table>, es: seq<Event>, n: nat, j: nat, c: nat)
    requires IsRun(run, es, n) && j < |es| && c < n
    ensures |run[j].ps| == n && WaitStep(run[j].ps, es[j], run[j + 1].ps, c)
  {
    InvAlongRun(run, es, n, j);
    assert Follows(run, es, j);
    var t, e := run[j], es[j];
    if IsFork(e) {
      WaitThroughFork(t, e, c);
    } else if e.EvExit? {
      WaitThroughExit(t, e, c);
    } else if e.EvKill? {
      WaitThroughKill(t, e, c);
    } else {
      WaitThroughOther(t, e, c);
    }
  }

  // A process asleep in wait at step i is asleep there all the time up to step
  // j exactly when no kill with its pid, no exit of a child of its own and, if
  // it is init, no exit that leaves it a zombie has come; the first to come
  // makes it runnable.
  lemma {:induction false} WaitsExactlyUntilAChildExits(run: seq<Table>, es: seq<Event>, n: nat, i: nat, j: nat, c: nat)
    requires IsRun(run, es, n) && i <= j < |run| && c < n && |run[i].ps| == n
    requires SleepsOn(run[i].ps[c], ProcChan(c))
    ensures forall k :: i <= k <= j ==> |run[k].ps| == n
    ensures (forall k :: i <= k <= j ==> run[k].ps[c].state == Sleeping)
       <==> (forall k :: i <= k < j ==> !EndsWait(run[k].ps, es[k], c))
    ensures (forall k :: i <= k < j ==> !EndsWait(run[k].ps, es[k], c)) ==>
      SleepsOn(run[j].ps[c], ProcChan(c))
      && (j < |es| && EndsWait(run[j].ps, es[j], c) ==> |run[j + 1].ps| == n && run[j + 1].ps[c].state == Runnable)
    decreases j
  {
    forall k | i <= k <= j
      ensures |run[k].ps| == n
    {
      InvAlongRun(run, es, n, k);
    }
    if j > i {
      WaitsExactlyUntilAChildExits(run, es, n, i, j - 1, c);
      WaitInRun(run, es, n, j - 1, c);
    }
    if j < |es| {
      WaitInRun(run, es, n, j, c);
    }
  }
}
