// What the fields of a slot hold along a run: its rank at a dispatch, how often
// it was dispatched, its nice value, whose child its process is, which pids are
// given out, and what wait gives back.
module ProcSlots {
  import opened Common
  import opened ProcTable
  import opened ProcInvariant
  import opened ProcRuns
  import opened ProcHistory

  // -------------------------------------------------------------------- the rank

  // The slots but c whose processes have a nice value below v.
  ghost function OthersBelow(ps: seq<Proc>, c: nat, v: int): set<int> {
    set d | 0 <= d < |ps| && d != c && ps[d].state != Unused && ps[d].nice < v
  }

  ghost function InUse(ps: seq<Proc>): set<int> { set d | 0 <= d < |ps| && ps[d].state != Unused }

  lemma {:induction false} OthersBelowFit(ps: seq<Proc>, c: nat, v: int)
    requires c < |ps| && ps[c].state != Unused
    ensures 1 + |OthersBelow(ps, c, v)| <= |InUse(ps)|
  {
    InUseFits(ps, |ps|);
    SubsetSize(OthersBelow(ps, c, v) + {c}, InUse(ps));
  }

  lemma {:induction false} InUseFits(ps: seq<Proc>, k: nat)
    requires k <= |ps|
    ensures InUse(ps[..k]) <= InUse(ps)
  {
  }

  lemma {:induction false} SubsetSize(a: set<int>, b: set<int>)
    requires a <= b
    ensures |a| <= |b|
  {
    assert b == a + (b - a);
  }

  lemma {:induction false} DispatchedRank(ps: seq<Proc>, c: nat, v: int)
    requires c < |ps| && v == FixNice(ps[c]).nice
    ensures Rank(ps[c := FixNice(ps[c])], v) == 1 + |OthersBelow(ps, c, v)|
  {
    var fixed := ps[c := FixNice(ps[c])];
    RankCounts(fixed, v);
    assert Nicer(fixed, v) == OthersBelow(ps, c, v);
  }

  // At every dispatch of a run the process gets nice value 1 if it has none,
  // and for prio one more than the number of processes with a smaller nice
  // value, so at most the number of slots in use; no other slot changes.
  lemma {:induction false} DispatchRanksAmongTheLive(run: seq<Table>, es: seq<Event>, n: nat, i: nat, c: nat)
    requires IsRun(run, es, n) && i < |es| && es[i] == EvDispatch(c)
    ensures c < n && |run[i].ps| == n && run[i].ps[c].state == Runnable && run[i + 1].nextpid == run[i].nextpid
    ensures var p := run[i].ps[c];
      var v := if p.nice == 0 then 1 else p.nice;
      var others := set d | 0 <= d < n && d != c && run[i].ps[d].state != Unused && run[i].ps[d].nice < v;
      && run[i + 1].ps == run[i].ps[c := p.(nice := v, prio := 1 + |others|, state := Running, count := p.count + 1, chan := NoChan)]
      && 1 + |others| <= |set d | 0 <= d < n && run[i].ps[d].state != Unused|
  {
    InvAlongRun(run, es, n, i);
    assert Follows(run, es, i);
    var ps := run[i].ps;
    DispatchedRank(ps, c, FixNice(ps[c]).nice);
    OthersBelowFit(ps, c, FixNice(ps[c]).nice);
    var v := FixNice(ps[c]).nice;
    assert OthersBelow(ps, c, v) == set d | 0 <= d < n && d != c && ps[d].state != Unused && ps[d].nice < v;
    assert InUse(ps) == set d | 0 <= d < n && ps[d].state != Unused;
  }

  // A process that is alone in the table when it is dispatched has rank 1, so
  // if it does not block it goes off at its second tick and not before.
  lemma {:induction false} AloneYieldsAtItsSecondTick(run: seq<Table>, es: seq<Event>, n: nat, i: nat, j: nat, c: nat)
    requires IsRun(run, es, n) && i < j < |es| && c < n && es[i] == EvDispatch(c) && es[j] == EvTick(c)
    requires |run[i].ps| == n && forall d :: 0 <= d < n && d != c ==> run[i].ps[d].state == Unused
    requires (forall k :: i < k < j ==> !Blocks(es[k], c)) && Ticks(es, i + 1, j, c) <= 1
    ensures |run[j + 1].ps| == n
    ensures run[j + 1].ps[c].state == if Ticks(es, i + 1, j + 1, c) == 2 then Runnable else Running
  {
    DispatchRanksAmongTheLive(run, es, n, i, c);
    var v := FixNice(run[i].ps[c]).nice;
    assert (set d | 0 <= d < n && d != c && run[i].ps[d].state != Unused && run[i].ps[d].nice < v) == {};
    assert run[i + 1].ps[c].prio == 1;
    YieldsAtExactlyItsLastTick(run, es, n, i, j, c);
  }

  // ------------------------------------------------- dispatches and the nice value

  function Dispatches(es: seq<Event>, j: nat, c: nat): nat
    requires j <= |es|
  {
    if j == 0 then 0 else Dispatches(es, j - 1, c) + (if es[j - 1] == EvDispatch(c) then 1 else 0)
  }

  // The value last set by the process in slot c, where a dispatch sets a 0 to 1.
  function LastNice(es: seq<Event>, j: nat, c: nat): int
    requires j <= |es|
  {
    if j == 0 then 0
    else if es[j - 1].EvSetPrio? && es[j - 1].c == c then es[j - 1].n
    else if es[j - 1] == EvDispatch(c) && LastNice(es, j - 1, c) == 0 then 1
    else LastNice(es, j - 1, c)
  }

  ghost predicate CountStep(p: Proc, e: Event, p': Proc, c: nat) {
    && p'.count == p.count + (if e == EvDispatch(c) then 1 else 0)
    && p'.nice == if e.EvSetPrio? && e.c == c then e.n else if e == EvDispatch(c) && p.nice == 0 then 1 else p.nice
  }

  lemma {:induction false} CountThroughFork(t: Table, e: Event, c: nat)
    requires Inv(t) && Enabled(t, e) && c < |t.ps| && IsFork(e)
    ensures CountStep(t.ps[c], e, Apply(t, e).ps[c], c)
  {
  }

  lemma {:induction false} CountThroughSetPrio(t: Table, e: Event, c: nat)
    requires Inv(t) && Enabled(t, e) && c < |t.ps| && e.EvSetPrio?
    ensures CountStep(t.ps[c], e, Apply(t, e).ps[c], c)
  {
    assert t.ps[e.c].pid != 0;
  }

  lemma {:induction false} CountThroughOther(t: Table, e: Event, c: nat)
    requires Inv(t) && Enabled(t, e) && c < |t.ps| && !IsFork(e) && !e.EvSetPrio?
    ensures |Apply(t, e).ps| == |t.ps| && CountStep(t.ps[c], e, Apply(t, e).ps[c], c)
  {
    if e.EvExit? {
      assert Apply(t, e).ps[c] == ExitSlot(t.ps, e.c, c);
    }
  }

  lemma {:induction false} CountInRun(run: seq<Table>, es: seq<Event>, n: nat, j: nat, c: nat)
    requires IsRun(run, es, n) && j < |es| && c < n
    ensures |run[j].ps| == |run[j + 1].ps| == n && CountStep(run[j].ps[c], es[j], run[j + 1].ps[c], c)
  {
    InvAlongRun(run, es, n, j);
    InvAlongRun(run, es, n, j + 1);
    assert Follows(run, es, j);
    if IsFork(es[j]) {
      CountThroughFork(run[j], es[j], c);
    } else if es[j].EvSetPrio? {
      CountThroughSetPrio(run[j], es[j], c);
    } else {
      CountThroughOther(run[j], es[j], c);
    }
  }

  // The count that get_proc_info reports and the nice value stay with the slot:
  // freeing it and giving it to a new process resets neither.
  lemma {:induction false} CountAndNiceStayWithTheSlot(run: seq<Table>, es: seq<Event>, n: nat, j: nat, c: nat)
    requires IsRun(run, es, n) && j <= |es| && c < n
    ensures |run[j].ps| == n
    ensures run[j].ps[c].count == Dispatches(es, j, c)
    ensures run[j].ps[c].nice == LastNice(es, j, c)
  {
    if j > 0 {
      CountAndNiceStayWithTheSlot(run, es, n, j - 1, c);
      CountInRun(run, es, n, j - 1, c);
    }
  }

  // So what get_proc_info reports of a process in use is from its own slot, and
  // the switches are those of all processes that slot has ever held.
  lemma {:induction false} InfoIsOfTheSlot(run: seq<Table>, es: seq<Event>, n: nat, j: nat, c: nat)
    requires IsRun(run, es, n) && j <= |es| && c < |run[j].ps| && run[j].ps[c].state != Unused
    ensures forall d :: LastLive(run[j].ps, run[j].ps[c].pid, d) <==> d == c
    ensures run[j].ps[c].count == Dispatches(es, j, c)
  {
    InvAlongRun(run, es, n, j);
    CountAndNiceStayWithTheSlot(run, es, n, j, c);
    assert run[j].ps[c].pid != 0;
  }

  // ------------------------------------------------------------ pids and parents

  // Pids are given out one by one from 2 on, each by an allocation that finds a
  // free slot, the first of them; no other step gives one.
  lemma {:induction false} AllocationGivesTheNextPid(run: seq<Table>, es: seq<Event>, n: nat, i: nat, c: nat)
    requires IsRun(run, es, n) && i < |es| && es[i] == EvForkAlloc(c)
    ensures c < n && |run[i].ps| == |run[i + 1].ps| == n
    ensures (forall k :: 0 <= k < n ==> run[i].ps[k].state != Unused) ==> run[i + 1] == run[i]
    ensures forall k :: 0 <= k < n && run[i].ps[k].state == Unused && (forall d :: 0 <= d < k ==> run[i].ps[d].state != Unused) ==>
      && run[i + 1].nextpid == run[i].nextpid + 1
      && run[i + 1].ps[k] == run[i].ps[k].(state := Embryo, pid := run[i].nextpid)
      && run[i + 1].ps[c] == run[i].ps[c].(act := Forking(k, false))
      && forall d :: 0 <= d < n && d != k && d != c ==> run[i + 1].ps[d] == run[i].ps[d]
  {
    InvAlongRun(run, es, n, i);
    assert Follows(run, es, i);
  }

  lemma {:induction false} OnlyAllocationGives(t: Table, e: Event)
    requires Inv(t) && Enabled(t, e)
    ensures Apply(t, e).nextpid == t.nextpid +
      if e.EvForkAlloc? && exists k :: 0 <= k < |t.ps| && t.ps[k].state == Unused then 1 else 0
  {
    if e.EvForkAlloc? {
      var k := FirstUnused(t.ps);
      assert k < |t.ps| ==> t.ps[k].state == Unused;
    }
  }

  // How many allocations have found a free slot before step j.
  ghost function Given(run: seq<Table>, es: seq<Event>, j: nat): nat
    requires j <= |es| < |run|
  {
    if j == 0 then 0
    else
      var ps := run[j - 1].ps;
      Given(run, es, j - 1) + if es[j - 1].EvForkAlloc? && exists k :: 0 <= k < |ps| && ps[k].state == Unused then 1 else 0
  }

  lemma {:induction false} NextPidCountsAllocations(run: seq<Table>, es: seq<Event>, n: nat, j: nat)
    requires IsRun(run, es, n) && j <= |es|
    ensures run[j].nextpid == 2 + Given(run, es, j)
  {
    if j > 0 {
      NextPidCountsAllocations(run, es, n, j - 1);
      InvAlongRun(run, es, n, j - 1);
      assert Follows(run, es, j - 1);
      OnlyAllocationGives(run[j - 1], es[j - 1]);
    }
  }

  ghost predicate PidStep(t: Table, t': Table, k: nat) {
    && k < |t.ps| == |t'.ps|
    && (t'.ps[k].pid == t.ps[k].pid || t'.ps[k].pid == 0 || t'.ps[k].pid == t.nextpid)
    && t.nextpid <= t'.nextpid
  }

  lemma {:induction false} PidThroughFork(t: Table, e: Event, k: nat)
    requires Inv(t) && Enabled(t, e) && k < |t.ps| && IsFork(e)
    ensures PidStep(t, Apply(t, e), k)
  {
  }

  lemma {:induction false} PidThroughOther(t: Table, e: Event, k: nat)
    requires Inv(t) && Enabled(t, e) && k < |t.ps| && !IsFork(e)
    ensures PidStep(t, Apply(t, e), k)
  {
    if e.EvExit? {
      assert Apply(t, e).ps[k] == ExitSlot(t.ps, e.c, k);
    }
  }

  lemma {:induction false} PidInRun(run: seq<Table>, es: seq<Event>, n: nat, j: nat, k: nat)
    requires IsRun(run, es, n) && j < |es| && k < n
    ensures PidStep(run[j], run[j + 1], k)
  {
    InvAlongRun(run, es, n, j);
    assert Follows(run, es, j);
    if IsFork(es[j]) {
      PidThroughFork(run[j], es[j], k);
    } else {
      PidThroughOther(run[j], es[j], k);
    }
  }

  // A pid that was given out and that no slot has is never seen again.
  ghost predicate Gone(t: Table, pid: nat) { 0 < pid < t.nextpid && forall p :: p in t.ps ==> p.pid != pid }

  lemma {:induction false} StaysGone(run: seq<Table>, es: seq<Event>, n: nat, i: nat, j: nat, pid: nat)
    requires IsRun(run, es, n) && i <= j < |run| && Gone(run[i], pid)
    ensures Gone(run[j], pid)
    decreases j
  {
    if i < j {
      StaysGone(run, es, n, i, j - 1, pid);
      InvAlongRun(run, es, n, j);
      PidInRun(run, es, n, j - 1, 0);
      forall p | p in run[j].ps
        ensures p.pid != pid
      {
        var k :| 0 <= k < n && run[j].ps[k] == p;
        PidInRun(run, es, n, j - 1, k);
      }
    }
  }

  // ------------------------------------------------------------------------ wait

  // Slot k has the first of c's zombie children.
  ghost predicate FirstZombieOf(ps: seq<Proc>, c: nat, k: nat) {
    && k < |ps| && ps[k].state == Zombie && ps[k].parent == Some(c)
    && forall d :: 0 <= d < k ==> !(ps[d].state == Zombie && ps[d].parent == Some(c))
  }

  lemma {:induction false} ReapedSlot(t: Table, c: nat, k: nat)
    requires Inv(t) && Enabled(t, EvWait(c)) && FirstZombieOf(t.ps, c, k)
    ensures FirstZombieChild(t.ps, c) == k != c && t.ps[k].pid != 0
    ensures Gone(Apply(t, EvWait(c)), t.ps[k].pid)
  {
    assert SlotOk(t.ps, k);
  }

  // A wait that finds a zombie child returns the pid of the first one and frees
  // its slot; from then on no slot ever has that pid again.
  lemma {:induction false} WaitReturnsTheReapedPid(run: seq<Table>, es: seq<Event>, n: nat, i: nat, c: nat, k: nat)
    requires IsRun(run, es, n) && i < |es| && es[i] == EvWait(c) && FirstZombieOf(run[i].ps, c, k)
    ensures c < n && k < n && k != c && |run[i].ps| == n
    ensures WaitOutcomeOf(run[i].ps, c) == Reaped(run[i].ps[k].pid) && run[i].ps[k].pid != 0
    ensures run[i + 1].nextpid == run[i].nextpid
    ensures run[i + 1].ps ==
      run[i].ps[k := run[i].ps[k].(pid := 0, parent := None, killed := false, state := Unused)]
               [c := run[i].ps[c].(act := Idle)]
    ensures forall j, p :: i < j < |run| && p in run[j].ps ==> p.pid != run[i].ps[k].pid
  {
    InvAlongRun(run, es, n, i);
    assert Follows(run, es, i);
    ReapedSlot(run[i], c, k);
    forall j, p | i < j < |run| && p in run[j].ps
      ensures p.pid != run[i].ps[k].pid
    {
      StaysGone(run, es, n, i + 1, j, run[i].ps[k].pid);
    }
  }

  // Without one it fails if there is no child at all or the caller is killed,
  // and otherwise goes to sleep on its own process.
  lemma {:induction false} WaitWithoutZombie(run: seq<Table>, es: seq<Event>, n: nat, i: nat, c: nat)
    requires IsRun(run, es, n) && i < |es| && es[i] == EvWait(c)
    requires forall p :: p in run[i].ps && p.parent == Some(c) ==> p.state != Zombie
    ensures c < n && |run[i].ps| == n && run[i + 1].nextpid == run[i].nextpid
    ensures var p := run[i].ps[c];
      if p.killed || (forall q :: q in run[i].ps ==> q.parent != Some(c)) then
        WaitOutcomeOf(run[i].ps, c) == NoChildren && run[i + 1].ps == run[i].ps[c := p.(act := Idle)]
      else
        && WaitOutcomeOf(run[i].ps, c) == Sleeps
        && run[i + 1].ps == run[i].ps[c := p.(state := Sleeping, chan := ProcChan(c), act := InWait, cpucount := 0)]
  {
    InvAlongRun(run, es, n, i);
    assert Follows(run, es, i);
    NoZombieFound(run[i].ps, c);
    assert HasKid(run[i].ps, c) <==> exists q :: q in run[i].ps && q.parent == Some(c);
  }

  lemma {:induction false} NoZombieFound(ps: seq<Proc>, c: nat)
    requires forall p :: p in ps && p.parent == Some(c) ==> p.state != Zombie
    ensures FirstZombieChild(ps, c) == |ps|
  {
  }

  // ------------------------------------------------------------ fork, exit, kill

  // The link of a fork, and what its child still knows of it.
  lemma {:induction false} LinkedChild(run: seq<Table>, es: seq<Event>, n: nat, i: nat, c: nat, k: nat)
    requires IsRun(run, es, n) && i < |es| && es[i] == EvForkLink(c) && c < |run[i].ps| && run[i].ps[c].act == Forking(k, false)
    ensures |run[i].ps| == n && c < n && k < n && k != c && run[i].ps[k].state == Embryo && run[i].ps[c].pid < run[i].ps[k].pid
    ensures run[i + 1].ps ==
      run[i].ps[k := run[i].ps[k].(ppid := run[i].ps[c].pid, parent := Some(c))][c := run[i].ps[c].(act := Forking(k, true))]
  {
    InvAlongRun(run, es, n, i);
    assert Follows(run, es, i);
    assert SlotOk(run[i].ps, c);
  }

  // A fork that goes through makes its child runnable; one that fails gives the
  // slot back with the pid still in it, and with a ppid if that was set before.
  lemma {:induction false} ForkEnds(run: seq<Table>, es: seq<Event>, n: nat, i: nat, c: nat, k: nat)
    requires IsRun(run, es, n) && i < |es| && c < |run[i].ps|
    requires run[i].ps[c].act.Forking? && run[i].ps[c].act.child == k
    ensures |run[i].ps| == n && c < n && k < n && k != c && run[i].ps[k].state == Embryo
    ensures es[i] == EvForkReady(c) ==>
      run[i + 1].ps == run[i].ps[k := run[i].ps[k].(state := Runnable)][c := run[i].ps[c].(act := Idle)]
    ensures es[i] == EvForkAbort(c, false) ==>
      run[i + 1].ps == run[i].ps[k := run[i].ps[k].(state := Unused)][c := run[i].ps[c].(act := Idle)]
    ensures es[i] == EvForkAbort(c, true) ==>
      run[i + 1].ps == run[i].ps[k := run[i].ps[k].(state := Unused, ppid := run[i].ps[c].pid)][c := run[i].ps[c].(act := Idle)]
  {
    InvAlongRun(run, es, n, i);
    assert Follows(run, es, i);
    assert SlotOk(run[i].ps, c);
  }

  ghost predicate FamilyStep(p: Proc, p': Proc) {
    p.state != Unused && p.parent.Some? && p'.state != Unused ==>
      p'.parent.Some? && p'.ppid == p.ppid && p'.pid == p.pid
  }

  lemma {:induction false} FamilyThroughFork(t: Table, e: Event, k: nat)
    requires Inv(t) && Enabled(t, e) && k < |t.ps| && IsFork(e)
    ensures |Apply(t, e).ps| == |t.ps| && FamilyStep(t.ps[k], Apply(t, e).ps[k])
  {
    assert SlotOk(t.ps, e.c);
  }

  lemma {:induction false} FamilyThroughOther(t: Table, e: Event, k: nat)
    requires Inv(t) && Enabled(t, e) && k < |t.ps| && !IsFork(e)
    ensures |Apply(t, e).ps| == |t.ps| && FamilyStep(t.ps[k], Apply(t, e).ps[k])
  {
    if e.EvExit? {
      assert Apply(t, e).ps[k] == ExitSlot(t.ps, e.c, k);
    }
  }

  lemma {:induction false} FamilyInRun(run: seq<Table>, es: seq<Event>, n: nat, j: nat, k: nat)
    requires IsRun(run, es, n) && j < |es| && k < n
    ensures |run[j].ps| == |run[j + 1].ps| == n && FamilyStep(run[j].ps[k], run[j + 1].ps[k])
  {
    InvAlongRun(run, es, n, j);
    assert Follows(run, es, j);
    if IsFork(es[j]) {
      FamilyThroughFork(run[j], es[j], k);
    } else {
      FamilyThroughOther(run[j], es[j], k);
    }
  }

  // For as long as a forked process is in the table, its ppid is the pid of the
  // process that forked it, also when that is gone and init its parent.
  lemma {:induction false} PpidIsTheForkersPid(run: seq<Table>, es: seq<Event>, n: nat, i: nat, j: nat, c: nat, k: nat)
    requires IsRun(run, es, n) && i < j < |run| && es[i] == EvForkLink(c)
    requires c < |run[i].ps| && run[i].ps[c].act == Forking(k, false)
    requires forall l :: i < l <= j ==> k < |run[l].ps| && run[l].ps[k].state != Unused
    ensures k < |run[i].ps| == |run[j].ps|
    ensures run[j].ps[k].ppid == run[i].ps[c].pid && run[j].ps[k].pid == run[i].ps[k].pid && run[j].ps[k].parent.Some?
    decreases j
  {
    LinkedChild(run, es, n, i, c, k);
    if i + 1 < j {
      PpidIsTheForkersPid(run, es, n, i, j - 1, c, k);
      FamilyInRun(run, es, n, j - 1, k);
    } else {
      InvAlongRun(run, es, n, j);
    }
  }

  // Process d is asleep in wait and the exit of process c concerns it.
  ghost predicate HearsOf(ps: seq<Proc>, c: nat, d: nat)
    requires c < |ps| && d < |ps|
  {
    && SleepsOn(ps[d], ProcChan(d))
    && (ps[c].parent == Some(d) || (d == INIT && exists j :: 0 <= j < |ps| && ps[j].state == Zombie && ps[j].parent == Some(c)))
  }

  // After an exit: a zombie, its children init's, and of the others only those
  // it concerns woken.
  lemma {:induction false} ExitHandsOver(run: seq<Table>, es: seq<Event>, n: nat, i: nat, c: nat)
    requires IsRun(run, es, n) && i < |es| && es[i] == EvExit(c)
    ensures c < n && c != INIT && |run[i].ps| == |run[i + 1].ps| == n && run[i + 1].nextpid == run[i].nextpid
    ensures run[i + 1].ps[c] == run[i].ps[c].(state := Zombie, cpucount := 0)
    ensures forall d :: 0 <= d < n && d != c ==>
      var p := run[i].ps[d];
      run[i + 1].ps[d] == p.(state := if HearsOf(run[i].ps, c, d) then Runnable else p.state,
                             parent := if p.parent == Some(c) then Some(INIT) else p.parent)
  {
    InvAlongRun(run, es, n, i);
    assert Follows(run, es, i);
    var t := run[i];
    assert SlotOk(t.ps, c);
    assert run[i + 1].ps[c] == ExitSlot(t.ps, c, c);
    forall d | 0 <= d < n && d != c
      ensures run[i + 1].ps[d] == t.ps[d].(state := if HearsOf(t.ps, c, d) then Runnable else t.ps[d].state,
                                           parent := if t.ps[d].parent == Some(c) then Some(INIT) else t.ps[d].parent)
    {
      ExitOther(t, c, d);
    }
  }

  lemma {:induction false} ExitOther(t: Table, c: nat, d: nat)
    requires Inv(t) && Enabled(t, EvExit(c)) && d < |t.ps| && d != c
    ensures ExitSlot(t.ps, c, d) == t.ps[d].(state := if HearsOf(t.ps, c, d) then Runnable else t.ps[d].state,
                                             parent := if t.ps[d].parent == Some(c) then Some(INIT) else t.ps[d].parent)
  {
    assert SlotOk(t.ps, c) && WaiterOk(t.ps, d);
  }

  // A kill marks the first slot with the pid and takes it out of its sleep.
  lemma {:induction false} KillMarksTheFirst(run: seq<Table>, es: seq<Event>, n: nat, i: nat, pid: int)
    requires IsRun(run, es, n) && i < |es| && es[i] == EvKill(pid)
    ensures |run[i].ps| == |run[i + 1].ps| == n && run[i + 1].nextpid == run[i].nextpid
    ensures forall c :: 0 <= c < n ==>
      var p := run[i].ps[c];
      run[i + 1].ps[c] ==
        if p.pid == pid && forall d :: 0 <= d < c ==> run[i].ps[d].pid != pid then
          p.(killed := true, state := if p.state == Sleeping then Runnable else p.state)
        else p
  {
    InvAlongRun(run, es, n, i);
    assert Follows(run, es, i);
  }
}
