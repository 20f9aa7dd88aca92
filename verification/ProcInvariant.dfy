// The process table as a transition system, over every interleaving of the
// calls of any number of processes on any number of processors, and what holds
// of every table it can reach.
module ProcInvariant {
  import opened Common
  import opened ProcTable

  datatype Event =
    | EvForkAlloc(c: nat)
    | EvForkAbort(c: nat, copied: bool)
    | EvForkLink(c: nat)
    | EvForkReady(c: nat)
    | EvExit(c: nat)
    | EvWait(c: nat)
    | EvSleep(c: nat, id: int)
    | EvWakeup(id: int)
    | EvKill(pid: int)
    | EvFault(c: nat)
    | EvTick(c: nat)
    | EvDispatch(c: nat)
    | EvSetPrio(c: nat, n: int)

  predicate Runs(t: Table, c: nat) {
    c < |t.ps| && t.ps[c].state == Running
  }

  // Which steps the code can take next. A process that has been switched back
  // to inside wait still holds the table lock, so it can only scan again.
  predicate Enabled(t: Table, e: Event) {
    match e
    case EvForkAlloc(c) => Runs(t, c) && t.ps[c].act.Idle?
    case EvForkAbort(c, _) => Runs(t, c) && t.ps[c].act.Forking? && !t.ps[c].act.linked && t.ps[c].act.child < |t.ps|
    case EvForkLink(c) => Runs(t, c) && t.ps[c].act.Forking? && !t.ps[c].act.linked && t.ps[c].act.child < |t.ps|
    case EvForkReady(c) => Runs(t, c) && t.ps[c].act.Forking? && t.ps[c].act.linked && t.ps[c].act.child < |t.ps|
    case EvExit(c) => Runs(t, c) && t.ps[c].act.Idle? && c != INIT
    case EvWait(c) => Runs(t, c) && !t.ps[c].act.Forking?
    case EvSleep(c, _) => Runs(t, c) && t.ps[c].act.Idle?
    case EvWakeup(_) => true
    case EvKill(_) => true
    case EvFault(c) => Runs(t, c) && t.ps[c].act.Idle?
    case EvTick(c) => Runs(t, c) && !t.ps[c].act.InWait?
    case EvDispatch(c) => c < |t.ps| && t.ps[c].state == Runnable
    case EvSetPrio(c, n) => Runs(t, c) && t.ps[c].act.Idle? && n > 0
  }

  function Apply(t: Table, e: Event): Table
    requires Enabled(t, e)
  {
    match e
    case EvForkAlloc(c) => ForkAlloc(t, c)
    case EvForkAbort(c, copied) => t.(ps := ForkAbort(t.ps, c, copied))
    case EvForkLink(c) => t.(ps := ForkLink(t.ps, c))
    case EvForkReady(c) => t.(ps := ForkReady(t.ps, c))
    case EvExit(c) => t.(ps := ExitAll(t.ps, c))
    case EvWait(c) => t.(ps := WaitAll(t.ps, c))
    case EvSleep(c, id) => t.(ps := SleepOn(t.ps, c, id))
    case EvWakeup(id) => t.(ps := WakeAll(t.ps, OtherChan(id)))
    case EvKill(pid) => t.(ps := KillPid(t.ps, pid))
    case EvFault(c) => t.(ps := t.ps[c := t.ps[c].(killed := true)])
    case EvTick(c) => t.(ps := t.ps[c := TickSlot(t.ps[c])])
    case EvDispatch(c) => t.(ps := Dispatch(t.ps, c))
    case EvSetPrio(c, n) => t.(ps := SetNice(t.ps, t.ps[c].pid, n))
  }

  // ------------------------------------------------------------ the invariant

  ghost predicate PidsOk(t: Table) {
    && (forall i :: 0 <= i < |t.ps| ==> t.ps[i].pid < t.nextpid)
    && (forall i :: 0 <= i < |t.ps| && t.ps[i].state != Unused ==> t.ps[i].pid != 0)
    && (forall i, j :: 0 <= i < j < |t.ps| && t.ps[i].pid == t.ps[j].pid ==> t.ps[i].pid == 0)
  }

  ghost predicate InitOk(ps: seq<Proc>) {
    |ps| > 0 && ps[INIT].Up() && ps[INIT].pid == 1 && ps[INIT].parent == None
  }

  // Slot p's parent field, whoever p is.
  ghost predicate ParentOk(ps: seq<Proc>, i: nat)
    requires i < |ps|
  {
    && (ps[i].state == Unused ==> ps[i].parent == None)
    && (ps[i].Up() || ps[i].state == Zombie ==> i == INIT || ps[i].parent.Some?)
    && (ps[i].parent.Some? ==>
          var q := ps[i].parent.value;
          q < |ps| && ps[q].Up() && ps[q].pid < ps[i].pid)
  }

  ghost predicate ForkOk(ps: seq<Proc>, f: nat)
    requires f < |ps|
  {
    && (!ps[f].Up() ==> ps[f].act == Idle)
    && (ps[f].act.Forking? ==>
          var k := ps[f].act.child;
          && k < |ps| && k != f
          && ps[f].state != Sleeping
          && ps[k].state == Embryo
          && ps[f].pid < ps[k].pid
          && ps[k].parent == if ps[f].act.linked then Some(f) else None)
  }

  ghost predicate OneForkerEach(ps: seq<Proc>) {
    forall f, g :: 0 <= f < g < |ps| && ps[f].act.Forking? && ps[g].act.Forking?
      ==> ps[f].act.child != ps[g].act.child
  }

  // What must be true of a process asleep in wait for it to be woken in time.
  ghost predicate WaiterOk(ps: seq<Proc>, i: nat)
    requires i < |ps|
  {
    ps[i].state == Sleeping && ps[i].chan.ProcChan? ==>
      && ps[i].chan.slot == i
      && ps[i].act == InWait
      && !ps[i].killed
      && HasKid(ps, i)
      && !HasZombieKid(ps, i)
  }

  ghost predicate QuantumOk(ps: seq<Proc>, i: nat)
    requires i < |ps|
  {
    if ps[i].state == Running then 1 <= ps[i].prio <= |ps| && ps[i].cpucount <= ps[i].prio
    else ps[i].cpucount == 0
  }

  ghost predicate SlotOk(ps: seq<Proc>, i: nat)
    requires i < |ps|
  {
    ParentOk(ps, i) && ForkOk(ps, i) && QuantumOk(ps, i)
  }

  ghost predicate Structure(t: Table) {
    && PidsOk(t)
    && InitOk(t.ps)
    && (forall i :: 0 <= i < |t.ps| ==> SlotOk(t.ps, i))
    && OneForkerEach(t.ps)
  }

  ghost predicate Waiters(ps: seq<Proc>) {
    forall i :: 0 <= i < |ps| ==> WaiterOk(ps, i)
  }

  ghost predicate Inv(t: Table) {
    Structure(t) && Waiters(t.ps)
  }

  lemma {:induction false} BootInv(n: nat)
    requires n > 0
    ensures Inv(Boot(n))
  {
  }

  // ------------------------------------- frames: what most steps do not touch

  // A waiter stays safe if it loses no child and gets no new zombie child.
  lemma {:induction false} WaiterKept(ps: seq<Proc>, ps': seq<Proc>, i: nat)
    requires |ps'| == |ps| && i < |ps| && WaiterOk(ps, i)
    requires ps'[i].state == Sleeping && ps'[i].chan.ProcChan? ==>
      ps[i].state == Sleeping && ps[i].chan == ps'[i].chan && ps[i].act == ps'[i].act && ps[i].killed == ps'[i].killed
    requires ps'[i].state == Sleeping ==>
      forall j :: 0 <= j < |ps| && ps[j].parent == Some(i) ==> ps'[j].parent == Some(i)
    requires ps'[i].state == Sleeping ==>
      forall j :: 0 <= j < |ps| && IsZombieChild(ps'[j], i) ==> IsZombieChild(ps[j], i)
    ensures WaiterOk(ps', i)
  {
    if ps'[i].state == Sleeping && ps'[i].chan.ProcChan? {
      var j :| 0 <= j < |ps| && ps[j].parent == Some(i);
      assert ps'[j].parent == Some(i);
    }
  }

  // A slot after a step that neither makes, ends, links nor frees a process.
  ghost predicate Quiet(p: Proc, p': Proc) {
    && p'.pid == p.pid && p'.parent == p.parent
    && p'.Up() == p.Up() && (!p.Up() ==> p'.state == p.state)
    && (p'.act == p.act || (p'.act.Idle? && p.act.InWait?))
    && (p'.act.Forking? ==> p'.state != Sleeping)
    && (p'.state == Sleeping && p'.chan.ProcChan? ==>
          p.state == Sleeping && p.chan == p'.chan && p.act == p'.act && p.killed == p'.killed)
  }

  lemma {:induction false} QuietStructure(t: Table, t': Table)
    requires Structure(t) && |t'.ps| == |t.ps| && t'.nextpid == t.nextpid
    requires forall i :: 0 <= i < |t.ps| ==> Quiet(t.ps[i], t'.ps[i])
    requires forall i :: 0 <= i < |t.ps| ==> QuantumOk(t'.ps, i)
    ensures Structure(t')
  {
    var ps, ps' := t.ps, t'.ps;
    forall i | 0 <= i < |ps|
      ensures SlotOk(ps', i)
    {
      assert SlotOk(ps, i) && Quiet(ps[i], ps'[i]);
      if ps[i].parent.Some? {
        assert Quiet(ps[ps[i].parent.value], ps'[ps[i].parent.value]);
      }
      if ps[i].act.Forking? {
        assert Quiet(ps[ps[i].act.child], ps'[ps[i].act.child]);
      }
    }
    assert Quiet(ps[INIT], ps'[INIT]);
    forall f, g | 0 <= f < g < |ps| && ps'[f].act.Forking? && ps'[g].act.Forking?
      ensures ps'[f].act.child != ps'[g].act.child
    {
      assert Quiet(ps[f], ps'[f]) && Quiet(ps[g], ps'[g]);
    }
    PidsKept(t, t');
  }

  lemma {:induction false} QuietWaiters(ps: seq<Proc>, ps': seq<Proc>)
    requires Waiters(ps) && |ps'| == |ps|
    requires forall i :: 0 <= i < |ps| ==> Quiet(ps[i], ps'[i])
    ensures Waiters(ps')
  {
    forall i | 0 <= i < |ps|
      ensures WaiterOk(ps', i)
    {
      assert Quiet(ps[i], ps'[i]);
      forall j | 0 <= j < |ps|
        ensures IsZombieChild(ps'[j], i) ==> IsZombieChild(ps[j], i)
        ensures ps'[j].parent == ps[j].parent
      {
        assert Quiet(ps[j], ps'[j]);
      }
      WaiterKept(ps, ps', i);
    }
  }

  lemma {:induction false} PidsKept(t: Table, t': Table)
    requires PidsOk(t) && |t'.ps| == |t.ps| && t'.nextpid == t.nextpid
    requires forall i :: 0 <= i < |t.ps| ==>
      t'.ps[i].pid == t.ps[i].pid && (t'.ps[i].state != Unused ==> t.ps[i].state != Unused)
    ensures PidsOk(t')
  {
    forall i, j | 0 <= i < j < |t.ps| && t'.ps[i].pid == t'.ps[j].pid
      ensures t'.ps[i].pid == 0
    {
      assert t.ps[i].pid == t.ps[j].pid;
    }
  }

  lemma {:induction false} BelowSkipsSelf(ps: seq<Proc>, n: int, i: nat)
    requires i < |ps| && ps[i].nice >= n
    ensures Below(ps, n) <= |ps| - 1
  {
    if i < |ps| - 1 {
      BelowSkipsSelf(ps[..|ps| - 1], n, i);
    }
  }

  predicate IsQuiet(e: Event) {
    e.EvSleep? || e.EvWakeup? || e.EvKill? || e.EvFault? || e.EvTick? || e.EvSetPrio? || e.EvDispatch?
  }

  lemma {:induction false} DispatchedSlot(t: Table, c: nat, i: nat)
    requires Inv(t) && Enabled(t, EvDispatch(c)) && i < |t.ps|
    ensures var ps' := Apply(t, EvDispatch(c)).ps; |ps'| == |t.ps| && Quiet(t.ps[i], ps'[i]) && QuantumOk(ps', i)
  {
    assert SlotOk(t.ps, i);
    if i == c {
      var p := FixNice(t.ps[i]);
      BelowSkipsSelf(t.ps[i := p], p.nice, i);
    }
  }

  lemma {:induction false} QuietSlot(t: Table, e: Event, i: nat)
    requires Inv(t) && Enabled(t, e) && IsQuiet(e) && i < |t.ps|
    ensures var ps' := Apply(t, e).ps; |ps'| == |t.ps| && Quiet(t.ps[i], ps'[i]) && QuantumOk(ps', i)
  {
    if e.EvDispatch? {
      DispatchedSlot(t, e.c, i);
    } else {
      assert SlotOk(t.ps, i);
    }
  }

  lemma {:induction false} QuietEvents(t: Table, e: Event)
    requires Inv(t) && Enabled(t, e) && IsQuiet(e)
    ensures Inv(Apply(t, e))
  {
    var t' := Apply(t, e);
    QuietSlot(t, e, INIT);
    forall i | 0 <= i < |t.ps|
      ensures Quiet(t.ps[i], t'.ps[i]) && QuantumOk(t'.ps, i)
    {
      QuietSlot(t, e, i);
    }
    QuietStructure(t, t');
    QuietWaiters(t.ps, t'.ps);
  }

  // ------------------------------------------------------------- fork, in parts

  // A step of fork changes the parent's activity and the child's slot only.
  ghost predicate ForkStep(ps: seq<Proc>, ps': seq<Proc>, c: nat, k: nat) {
    && |ps'| == |ps| && c < |ps| && k < |ps| && c != k
    && (forall i :: 0 <= i < |ps| && i != c && i != k ==> ps'[i] == ps[i])
    && ps'[c] == ps[c].(act := ps'[c].act)
    && ps[c].state == Running
  }

  lemma {:induction false} ForkStepWaiters(ps: seq<Proc>, ps': seq<Proc>, c: nat, k: nat)
    requires Waiters(ps) && ForkStep(ps, ps', c, k)
    requires ps[k].state == Unused || ps[k].state == Embryo
    requires ps[k].parent.None? || ps'[k].parent == ps[k].parent
    requires ps'[k].state != Sleeping && ps'[k].state != Zombie
    ensures Waiters(ps')
  {
    forall i | 0 <= i < |ps|
      ensures WaiterOk(ps', i)
    {
      forall j | 0 <= j < |ps|
        ensures IsZombieChild(ps'[j], i) ==> IsZombieChild(ps[j], i)
        ensures ps[j].parent == Some(i) ==> ps'[j].parent == Some(i)
      {
      }
      assert WaiterOk(ps, i);
      WaiterKept(ps, ps', i);
    }
  }

  lemma {:induction false} ForkStepSlots(ps: seq<Proc>, ps': seq<Proc>, c: nat, k: nat)
    requires InitOk(ps) && (forall i :: 0 <= i < |ps| ==> SlotOk(ps, i))
    requires ForkStep(ps, ps', c, k)
    requires ps[k].state == Unused || ps[k].state == Embryo
    requires forall i :: 0 <= i < |ps| && i != c && ps[i].act.Forking? ==> ps[i].act.child != k
    requires SlotOk(ps', k) && ForkOk(ps', c)
    ensures forall i :: 0 <= i < |ps| ==> SlotOk(ps', i)
  {
    forall i | 0 <= i < |ps| && i != k
      ensures SlotOk(ps', i)
    {
      assert SlotOk(ps, i);
    }
  }

  lemma {:induction false} OthersForkOthers(ps: seq<Proc>, c: nat)
    requires OneForkerEach(ps) && c < |ps| && ps[c].act.Forking?
    ensures forall i :: 0 <= i < |ps| && i != c && ps[i].act.Forking? ==> ps[i].act.child != ps[c].act.child
  {
    forall i | 0 <= i < |ps| && i != c && ps[i].act.Forking?
      ensures ps[i].act.child != ps[c].act.child
    {
      if i < c {
        assert ps[i].act.child != ps[c].act.child;
      }
    }
  }

  lemma {:induction false} ForkAllocPair(t: Table, c: nat)
    requires Structure(t) && Enabled(t, EvForkAlloc(c)) && FirstUnused(t.ps) < |t.ps|
    ensures var k, ps' := FirstUnused(t.ps), Apply(t, EvForkAlloc(c)).ps;
      ForkStep(t.ps, ps', c, k) && SlotOk(ps', k) && ForkOk(ps', c)
  {
    assert SlotOk(t.ps, FirstUnused(t.ps)) && SlotOk(t.ps, c);
  }

  lemma {:induction false} NobodyForksUnused(t: Table, k: nat)
    requires Structure(t) && k < |t.ps| && t.ps[k].state == Unused
    ensures forall i :: 0 <= i < |t.ps| && t.ps[i].act.Forking? ==> t.ps[i].act.child != k
  {
    forall i | 0 <= i < |t.ps| && t.ps[i].act.Forking?
      ensures t.ps[i].act.child != k
    {
      assert SlotOk(t.ps, i);
    }
  }

  lemma {:induction false} ForkAllocSlots(t: Table, c: nat)
    requires Structure(t) && Enabled(t, EvForkAlloc(c)) && FirstUnused(t.ps) < |t.ps|
    ensures forall i :: 0 <= i < |t.ps| ==> SlotOk(Apply(t, EvForkAlloc(c)).ps, i)
  {
    var k := FirstUnused(t.ps);
    ForkAllocPair(t, c);
    NobodyForksUnused(t, k);
    ForkStepSlots(t.ps, Apply(t, EvForkAlloc(c)).ps, c, k);
  }

  lemma {:induction false} ForkAllocPids(t: Table, c: nat)
    requires Structure(t) && Enabled(t, EvForkAlloc(c)) && FirstUnused(t.ps) < |t.ps|
    ensures PidsOk(Apply(t, EvForkAlloc(c)))
  {
  }

  lemma {:induction false} ForkAllocTable(t: Table, c: nat)
    requires Structure(t) && Enabled(t, EvForkAlloc(c)) && FirstUnused(t.ps) < |t.ps|
    ensures var t' := Apply(t, EvForkAlloc(c)); InitOk(t'.ps) && OneForkerEach(t'.ps)
  {
    NobodyForksUnused(t, FirstUnused(t.ps));
  }

  lemma {:induction false} ForkAllocWaiters(t: Table, c: nat)
    requires Inv(t) && Enabled(t, EvForkAlloc(c)) && FirstUnused(t.ps) < |t.ps|
    ensures Waiters(Apply(t, EvForkAlloc(c)).ps)
  {
    ForkAllocPair(t, c);
    assert SlotOk(t.ps, FirstUnused(t.ps));
    ForkStepWaiters(t.ps, Apply(t, EvForkAlloc(c)).ps, c, FirstUnused(t.ps));
  }

  lemma {:induction false} ForkAllocInv(t: Table, c: nat)
    requires Inv(t) && Enabled(t, EvForkAlloc(c))
    ensures Inv(Apply(t, EvForkAlloc(c)))
  {
    if FirstUnused(t.ps) < |t.ps| {
      ForkAllocSlots(t, c);
      ForkAllocTable(t, c);
      ForkAllocPids(t, c);
      ForkAllocWaiters(t, c);
      assert |Apply(t, EvForkAlloc(c)).ps| == |t.ps|;
    }
  }

  lemma {:induction false} ForkRestPair(t: Table, e: Event)
    requires Structure(t) && Enabled(t, e) && (e.EvForkAbort? || e.EvForkLink? || e.EvForkReady?)
    ensures var k, ps' := t.ps[e.c].act.child, Apply(t, e).ps;
      ForkStep(t.ps, ps', e.c, k) && SlotOk(ps', k) && ForkOk(ps', e.c) && t.ps[k].state == Embryo
  {
    assert SlotOk(t.ps, e.c) && SlotOk(t.ps, t.ps[e.c].act.child);
  }

  lemma {:induction false} ForkRestSlots(t: Table, e: Event)
    requires Structure(t) && Enabled(t, e) && (e.EvForkAbort? || e.EvForkLink? || e.EvForkReady?)
    ensures forall i :: 0 <= i < |t.ps| ==> SlotOk(Apply(t, e).ps, i)
  {
    ForkRestPair(t, e);
    OthersForkOthers(t.ps, e.c);
    ForkStepSlots(t.ps, Apply(t, e).ps, e.c, t.ps[e.c].act.child);
  }

  lemma {:induction false} ForkRestWaiters(t: Table, e: Event)
    requires Inv(t) && Enabled(t, e) && (e.EvForkAbort? || e.EvForkLink? || e.EvForkReady?)
    ensures Waiters(Apply(t, e).ps)
  {
    var k := t.ps[e.c].act.child;
    ForkRestPair(t, e);
    assert SlotOk(t.ps, e.c);
    ForkStepWaiters(t.ps, Apply(t, e).ps, e.c, k);
  }

  lemma {:induction false} ForkRestTable(t: Table, e: Event)
    requires Structure(t) && Enabled(t, e) && (e.EvForkAbort? || e.EvForkLink? || e.EvForkReady?)
    ensures InitOk(Apply(t, e).ps) && OneForkerEach(Apply(t, e).ps)
  {
    assert SlotOk(t.ps, e.c) && SlotOk(t.ps, t.ps[e.c].act.child);
  }

  lemma {:induction false} ForkRestPids(t: Table, e: Event)
    requires Structure(t) && Enabled(t, e) && (e.EvForkAbort? || e.EvForkLink? || e.EvForkReady?)
    ensures PidsOk(Apply(t, e))
  {
    assert SlotOk(t.ps, e.c) && SlotOk(t.ps, t.ps[e.c].act.child);
    PidsKept(t, Apply(t, e));
  }

  lemma {:induction false} ForkRestInv(t: Table, e: Event)
    requires Inv(t) && Enabled(t, e) && (e.EvForkAbort? || e.EvForkLink? || e.EvForkReady?)
    ensures Inv(Apply(t, e))
  {
    ForkRestSlots(t, e);
    ForkRestWaiters(t, e);
    ForkRestTable(t, e);
    ForkRestPids(t, e);
    assert |Apply(t, e).ps| == |t.ps|;
  }

  // ------------------------------------------------------------ exit and wait

  lemma {:induction false} ExitSlots(t: Table, c: nat)
    requires Structure(t) && Enabled(t, EvExit(c))
    ensures forall i :: 0 <= i < |t.ps| ==> SlotOk(ExitAll(t.ps, c), i)
  {
    var ps, ps' := t.ps, ExitAll(t.ps, c);
    forall i | 0 <= i < |ps|
      ensures SlotOk(ps', i)
    {
      assert SlotOk(ps, i) && SlotOk(ps, c);
      assert ps'[i] == ExitSlot(ps, c, i) && ps'[INIT] == ExitSlot(ps, c, INIT);
      if ps[i].parent.Some? {
        var q := ps[i].parent.value;
        assert ps'[q] == ExitSlot(ps, c, q);
      }
      if ps[i].act.Forking? {
        assert ps'[ps[i].act.child] == ExitSlot(ps, c, ps[i].act.child);
      }
    }
  }

  lemma {:induction false} ExitStructure(t: Table, c: nat)
    requires Structure(t) && Enabled(t, EvExit(c))
    ensures Structure(Apply(t, EvExit(c)))
  {
    var ps, ps' := t.ps, ExitAll(t.ps, c);
    ExitSlots(t, c);
    forall f, g | 0 <= f < g < |ps| && ps'[f].act.Forking? && ps'[g].act.Forking?
      ensures ps'[f].act.child != ps'[g].act.child
    {
      assert ps'[f] == ExitSlot(ps, c, f) && ps'[g] == ExitSlot(ps, c, g);
      assert ps[f].act.child != ps[g].act.child;
    }
    assert ps'[INIT] == ExitSlot(ps, c, INIT);
    PidsKept(t, Apply(t, EvExit(c)));
  }

  // The heart of exit: whoever stays asleep in wait has lost no child, and the
  // new zombie and the orphaned zombies belong to processes that were woken.
  lemma {:induction false} ExitWaiters(t: Table, c: nat)
    requires Inv(t) && Enabled(t, EvExit(c))
    ensures Waiters(ExitAll(t.ps, c))
  {
    var ps, ps' := t.ps, ExitAll(t.ps, c);
    assert SlotOk(ps, c);
    forall i | 0 <= i < |ps|
      ensures WaiterOk(ps', i)
    {
      assert ps'[i] == ExitSlot(ps, c, i) && WaiterOk(ps, i);
      if ps'[i].state == Sleeping && ps'[i].chan.ProcChan? {
        forall j | 0 <= j < |ps|
          ensures IsZombieChild(ps'[j], i) ==> IsZombieChild(ps[j], i)
          ensures ps[j].parent == Some(i) ==> ps'[j].parent == Some(i)
        {
          assert ps'[j] == ExitSlot(ps, c, j);
        }
        WaiterKept(ps, ps', i);
      }
    }
  }

  lemma {:induction false} ExitInv(t: Table, c: nat)
    requires Inv(t) && Enabled(t, EvExit(c))
    ensures Inv(Apply(t, EvExit(c)))
  {
    ExitStructure(t, c);
    ExitWaiters(t, c);
  }

  lemma {:induction false} ReapParent(t: Table, c: nat, i: nat)
    requires Structure(t) && Enabled(t, EvWait(c)) && FirstZombieChild(t.ps, c) < |t.ps| && i < |t.ps|
    ensures ParentOk(Apply(t, EvWait(c)).ps, i)
  {
    assert SlotOk(t.ps, FirstZombieChild(t.ps, c)) && SlotOk(t.ps, i);
  }

  lemma {:induction false} ReapFork(t: Table, c: nat, i: nat)
    requires Structure(t) && Enabled(t, EvWait(c)) && FirstZombieChild(t.ps, c) < |t.ps| && i < |t.ps|
    ensures ForkOk(Apply(t, EvWait(c)).ps, i) && QuantumOk(Apply(t, EvWait(c)).ps, i)
  {
    assert SlotOk(t.ps, FirstZombieChild(t.ps, c)) && SlotOk(t.ps, i);
  }

  lemma {:induction false} ReapSlot(t: Table, c: nat, i: nat)
    requires Structure(t) && Enabled(t, EvWait(c)) && FirstZombieChild(t.ps, c) < |t.ps| && i < |t.ps|
    ensures SlotOk(Apply(t, EvWait(c)).ps, i)
  {
    ReapParent(t, c, i);
    ReapFork(t, c, i);
  }

  lemma {:induction false} ReapStructure(t: Table, c: nat)
    requires Structure(t) && Enabled(t, EvWait(c)) && FirstZombieChild(t.ps, c) < |t.ps|
    ensures Structure(Apply(t, EvWait(c)))
  {
    forall i | 0 <= i < |t.ps|
      ensures SlotOk(Apply(t, EvWait(c)).ps, i)
    {
      ReapSlot(t, c, i);
    }
  }

  lemma {:induction false} ReapInv(t: Table, c: nat)
    requires Inv(t) && Enabled(t, EvWait(c)) && FirstZombieChild(t.ps, c) < |t.ps|
    ensures Inv(Apply(t, EvWait(c)))
  {
    ReapStructure(t, c);
    var ps, ps' := t.ps, Apply(t, EvWait(c)).ps;
    forall i | 0 <= i < |ps|
      ensures WaiterOk(ps', i)
    {
      assert WaiterOk(ps, i);
      forall j | 0 <= j < |ps|
        ensures IsZombieChild(ps'[j], i) ==> IsZombieChild(ps[j], i)
        ensures ps[j].parent == Some(i) && i != c ==> ps'[j].parent == Some(i)
      {
      }
      WaiterKept(ps, ps', i);
    }
  }

  lemma {:induction false} SleepInWaitSlot(t: Table, c: nat, i: nat)
    requires Structure(t) && Enabled(t, EvWait(c)) && WaitOutcomeOf(t.ps, c) == Sleeps && i < |t.ps|
    ensures SlotOk(Apply(t, EvWait(c)).ps, i)
  {
    assert SlotOk(t.ps, i);
  }

  lemma {:induction false} SleepInWaitStructure(t: Table, c: nat)
    requires Structure(t) && Enabled(t, EvWait(c)) && WaitOutcomeOf(t.ps, c) == Sleeps
    ensures Structure(Apply(t, EvWait(c)))
  {
    var t' := Apply(t, EvWait(c));
    forall i | 0 <= i < |t.ps|
      ensures SlotOk(t'.ps, i)
    {
      SleepInWaitSlot(t, c, i);
    }
    PidsKept(t, t');
  }

  lemma {:induction false} SleepInWaitInv(t: Table, c: nat)
    requires Inv(t) && Enabled(t, EvWait(c)) && WaitOutcomeOf(t.ps, c) == Sleeps
    ensures Inv(Apply(t, EvWait(c)))
  {
    SleepInWaitStructure(t, c);
    var ps, ps' := t.ps, Apply(t, EvWait(c)).ps;
    forall i | 0 <= i < |ps|
      ensures WaiterOk(ps', i)
    {
      forall j | 0 <= j < |ps|
        ensures IsZombieChild(ps'[j], i) ==> IsZombieChild(ps[j], i)
        ensures ps[j].parent == ps'[j].parent
      {
      }
      if i != c {
        assert WaiterOk(ps, i);
        WaiterKept(ps, ps', i);
      } else {
        var j :| 0 <= j < |ps| && ps[j].parent == Some(c);
        assert ps'[j].parent == Some(c);
      }
    }
  }

  lemma {:induction false} NoChildrenInv(t: Table, c: nat)
    requires Inv(t) && Enabled(t, EvWait(c)) && WaitOutcomeOf(t.ps, c) == NoChildren
    ensures Inv(Apply(t, EvWait(c)))
  {
    var t' := Apply(t, EvWait(c));
    forall i | 0 <= i < |t.ps|
      ensures Quiet(t.ps[i], t'.ps[i]) && QuantumOk(t'.ps, i)
    {
      assert SlotOk(t.ps, i);
    }
    QuietStructure(t, t');
    QuietWaiters(t.ps, t'.ps);
  }

  lemma {:induction false} InvStep(t: Table, e: Event)
    requires Inv(t) && Enabled(t, e)
    ensures Inv(Apply(t, e))
  {
    match e {
      case EvForkAlloc(c) => ForkAllocInv(t, c);
      case EvForkAbort(_, _) => ForkRestInv(t, e);
      case EvForkLink(_) => ForkRestInv(t, e);
      case EvForkReady(_) => ForkRestInv(t, e);
      case EvExit(c) => ExitInv(t, c);
      case EvWait(c) => {
        match WaitOutcomeOf(t.ps, c) {
          case Reaped(_) => ReapInv(t, c);
          case NoChildren => NoChildrenInv(t, c);
          case Sleeps => SleepInWaitInv(t, c);
        }
      }
      case _ => QuietEvents(t, e);
    }
  }
}
