// What kill does to a slot that holds no process: when the process table stays
// clean of such kills, and which of the processes forked later start killed.
module ProcKills {
  import opened ProcTable
  import opened ProcInvariant
  import opened ProcRuns

  // A slot whose process is not up yet, or that has none.
  predicate Free(p: Proc) { p.state == Unused || p.state == Embryo }

  // The step is a kill that strikes slot k.
  predicate Hits(t: Table, e: Event, k: nat) {
    e.EvKill? && k < |t.ps| && FirstWithPid(t.ps, e.pid) == k
  }

  predicate HitsFree(t: Table, e: Event) {
    e.EvKill? && var k := FirstWithPid(t.ps, e.pid); k < |t.ps| && Free(t.ps[k])
  }

  // The step is a wait that frees slot k.
  predicate Reaps(t: Table, e: Event, k: nat) {
    e.EvWait? && e.c < |t.ps| && k < |t.ps| && FirstZombieChild(t.ps, e.c) == k
  }

  ghost predicate Clean(t: Table) {
    forall k :: 0 <= k < |t.ps| && Free(t.ps[k]) ==> !t.ps[k].killed
  }

  // ------------------------------------------------------------------ one step

  // A free slot was free before, and nothing but a kill has marked it.
  ghost predicate FreeAsBefore(t: Table, e: Event, t': Table, k: nat) {
    k < |t.ps| == |t'.ps| &&
    (Free(t'.ps[k]) ==> Free(t.ps[k]) && (t'.ps[k].killed <==> t.ps[k].killed || Hits(t, e, k)))
  }

  lemma {:induction false} FreeAfterFork(t: Table, e: Event, k: nat)
    requires Inv(t) && Enabled(t, e) && k < |t.ps|
    requires e.EvForkAlloc? || e.EvForkAbort? || e.EvForkLink? || e.EvForkReady?
    ensures FreeAsBefore(t, e, Apply(t, e), k)
  {
    assert SlotOk(t.ps, e.c);
  }

  lemma {:induction false} FreeAfterExit(t: Table, e: Event, k: nat)
    requires Inv(t) && Enabled(t, e) && k < |t.ps| && e.EvExit?
    ensures FreeAsBefore(t, e, Apply(t, e), k)
  {
    assert Apply(t, e).ps[k] == ExitSlot(t.ps, e.c, k);
  }

  lemma {:induction false} FreeAfterWait(t: Table, e: Event, k: nat)
    requires Inv(t) && Enabled(t, e) && k < |t.ps| && e.EvWait?
    ensures |Apply(t, e).ps| == |t.ps|
    ensures if Reaps(t, e, k) then Free(Apply(t, e).ps[k]) && !Apply(t, e).ps[k].killed
            else FreeAsBefore(t, e, Apply(t, e), k)
  {
  }

  lemma {:induction false} FreeAfterOther(t: Table, e: Event, k: nat)
    requires Inv(t) && Enabled(t, e) && k < |t.ps|
    requires e.EvSleep? || e.EvWakeup? || e.EvKill? || e.EvFault? || e.EvTick? || e.EvDispatch? || e.EvSetPrio?
    ensures FreeAsBefore(t, e, Apply(t, e), k)
  {
  }

  lemma {:induction false} FreeStep(t: Table, e: Event, k: nat)
    requires Inv(t) && Enabled(t, e) && k < |t.ps|
    ensures |Apply(t, e).ps| == |t.ps|
    ensures if Reaps(t, e, k) then Free(Apply(t, e).ps[k]) && !Apply(t, e).ps[k].killed
            else FreeAsBefore(t, e, Apply(t, e), k)
  {
    if e.EvForkAlloc? || e.EvForkAbort? || e.EvForkLink? || e.EvForkReady? {
      FreeAfterFork(t, e, k);
    } else if e.EvExit? {
      FreeAfterExit(t, e, k);
    } else if e.EvWait? {
      FreeAfterWait(t, e, k);
    } else {
      FreeAfterOther(t, e, k);
    }
  }

  // No free slot is marked as killed, until a kill strikes one.
  lemma {:induction false} CleanStepExactlyWhen(t: Table, e: Event)
    requires Inv(t) && Enabled(t, e) && Clean(t)
    ensures Clean(Apply(t, e)) <==> !HitsFree(t, e)
  {
    var t' := Apply(t, e);
    if HitsFree(t, e) {
      var k := FirstWithPid(t.ps, e.pid);
      assert Free(t'.ps[k]) && t'.ps[k].killed;
    } else {
      forall k | 0 <= k < |t'.ps| && Free(t'.ps[k])
        ensures !t'.ps[k].killed
      {
        SameLength(t, e);
        FreeStep(t, e, k);
      }
    }
  }

  lemma {:induction false} SameLength(t: Table, e: Event)
    requires Inv(t) && Enabled(t, e)
    ensures |Apply(t, e).ps| == |t.ps|
  {
    FreeStep(t, e, INIT);
  }

  // ------------------------------------------------------------------ every run

  lemma {:induction false} CleanUntil(run: seq<Table>, es: seq<Event>, n: nat, i: nat)
    requires IsRun(run, es, n) && i < |run|
    requires forall m :: 0 <= m < i ==> !HitsFree(run[m], es[m])
    ensures Clean(run[i])
  {
    if i > 0 {
      CleanUntil(run, es, n, i - 1);
      InvAlongRun(run, es, n, i - 1);
      assert Follows(run, es, i - 1);
      CleanStepExactlyWhen(run[i - 1], es[i - 1]);
    }
  }

  // A run is clean throughout exactly when no kill in it strikes a free slot.
  lemma {:induction false} CleanRunExactlyWhen(run: seq<Table>, es: seq<Event>, n: nat)
    requires IsRun(run, es, n)
    ensures (forall i :: 0 <= i < |run| ==> Clean(run[i])) <==> (forall i :: 0 <= i < |es| ==> !HitsFree(run[i], es[i]))
  {
    if forall i :: 0 <= i < |es| ==> !HitsFree(run[i], es[i]) {
      forall i | 0 <= i < |run|
        ensures Clean(run[i])
      {
        CleanUntil(run, es, n, i);
      }
    }
    if i :| 0 <= i < |es| && HitsFree(run[i], es[i]) && Clean(run[i]) {
      InvAlongRun(run, es, n, i);
      assert Follows(run, es, i);
      CleanStepExactlyWhen(run[i], es[i]);
      assert !Clean(run[i + 1]);
    }
  }

  // Before step j a kill has struck slot k, and nobody has reaped it since.
  ghost predicate StruckSinceReaped(run: seq<Table>, es: seq<Event>, k: nat, j: nat)
    requires j <= |es| < |run|
  {
    exists m :: 0 <= m < j && Hits(run[m], es[m], k) && forall l :: m < l < j ==> !Reaps(run[l], es[l], k)
  }

  lemma {:induction false} StruckStep(run: seq<Table>, es: seq<Event>, k: nat, j: nat)
    requires j < |es| < |run|
    ensures StruckSinceReaped(run, es, k, j + 1) <==>
      Hits(run[j], es[j], k) || (StruckSinceReaped(run, es, k, j) && !Reaps(run[j], es[j], k))
  {
    if StruckSinceReaped(run, es, k, j) && !Reaps(run[j], es[j], k) {
      var m :| 0 <= m < j && Hits(run[m], es[m], k) && forall l :: m < l < j ==> !Reaps(run[l], es[l], k);
      assert forall l :: m < l < j + 1 ==> !Reaps(run[l], es[l], k);
    }
  }

  lemma {:induction false} FreeSlotIsKilledExactlyWhen(run: seq<Table>, es: seq<Event>, n: nat, j: nat, k: nat)
    requires IsRun(run, es, n) && j <= |es| && k < n
    requires |run[j].ps| == n && Free(run[j].ps[k])
    ensures run[j].ps[k].killed <==> StruckSinceReaped(run, es, k, j)
  {
    if j > 0 {
      InvAlongRun(run, es, n, j - 1);
      assert Follows(run, es, j - 1);
      FreeStep(run[j - 1], es[j - 1], k);
      StruckStep(run, es, k, j - 1);
      if !Reaps(run[j - 1], es[j - 1], k) {
        FreeSlotIsKilledExactlyWhen(run, es, n, j - 1, k);
      }
    }
  }

  lemma {:induction false} ReadyTakesItOver(t: Table, c: nat)
    requires Inv(t) && Enabled(t, EvForkReady(c))
    ensures var k, t' := t.ps[c].act.child, Apply(t, EvForkReady(c));
      k < |t.ps| == |t'.ps| && Free(t.ps[k]) && t'.ps[k] == t.ps[k].(state := Runnable)
  {
    assert SlotOk(t.ps, c);
  }

  // A forked process starts killed exactly when a kill has struck its slot
  // since the slot was last reaped, or since boot if it never was.
  lemma {:induction false} ChildStartsKilledExactlyWhen(run: seq<Table>, es: seq<Event>, n: nat, j: nat)
    requires IsRun(run, es, n) && j < |es| && es[j].EvForkReady?
    ensures Enabled(run[j], es[j])
    ensures var k := run[j].ps[es[j].c].act.child;
      && k < n == |run[j + 1].ps| && run[j + 1].ps[k].state == Runnable
      && (run[j + 1].ps[k].killed <==> StruckSinceReaped(run, es, k, j))
  {
    InvAlongRun(run, es, n, j);
    assert Follows(run, es, j);
    ReadyTakesItOver(run[j], es[j].c);
    FreeSlotIsKilledExactlyWhen(run, es, n, j, run[j].ps[es[j].c].act.child);
  }

  // --------------------------------------------------------- it does happen

  // The three parts of a fork into a free slot that is marked already.
  ghost predicate Marked(t: Table, c: nat, k: nat) {
    && Runs(t, c) && t.ps[c].act.Idle? && c < k == FirstUnused(t.ps) < |t.ps| && t.ps[k].killed
  }

  lemma {:induction false} MarkedFork(t: Table, c: nat, k: nat) returns (t1: Table, t2: Table, t3: Table)
    requires Marked(t, c, k)
    ensures Enabled(t, EvForkAlloc(c)) && t1 == Apply(t, EvForkAlloc(c))
    ensures Enabled(t1, EvForkLink(c)) && t2 == Apply(t1, EvForkLink(c))
    ensures Enabled(t2, EvForkReady(c)) && t3 == Apply(t2, EvForkReady(c))
    ensures |t3.ps| == |t.ps| && t3.ps[k].state == Runnable && t3.ps[k].killed
  {
    t1 := Apply(t, EvForkAlloc(c));
    t2 := Apply(t1, EvForkLink(c));
    t3 := Apply(t2, EvForkReady(c));
  }

  lemma {:induction false} KillZeroMarks() returns (t1: Table, t2: Table)
    ensures Enabled(Boot(2), EvDispatch(0)) && t1 == Apply(Boot(2), EvDispatch(0))
    ensures t2 == Apply(t1, EvKill(0))
    ensures |t2.ps| == 2 && Marked(t2, 0, 1)
  {
    t1 := Apply(Boot(2), EvDispatch(0));
    assert FirstWithPid(t1.ps, 0) == FirstWithPid(t1.ps, 0, 1) == 1;
    t2 := Apply(t1, EvKill(0));
    assert FirstUnused(t2.ps) == FirstUnused(t2.ps, 1) == 1;
  }

  // kill(0) marks a slot that was never used, and the process born there has
  // been killed before it ever ran.
  lemma {:induction false} KillZeroPoisonsTheNextFork() returns (run: seq<Table>, es: seq<Event>)
    ensures IsRun(run, es, 2)
    ensures EvKill(0) in es && forall e :: e in es && e.EvKill? ==> e == EvKill(0)
    ensures |run[|es|].ps| == 2
    ensures run[|es|].ps[1].state == Runnable && run[|es|].ps[1].killed
  {
    es := [EvDispatch(0), EvKill(0), EvForkAlloc(0), EvForkLink(0), EvForkReady(0)];
    var t1, t2 := KillZeroMarks();
    var t3, t4, t5 := MarkedFork(t2, 0, 1);
    run := [Boot(2), t1, t2, t3, t4, t5];
  }
}
