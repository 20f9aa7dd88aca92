// The process table of Project2/proc.c: the fields of struct proc that the
// scheduler and the process calls use, and those calls as they scan and update
// the table in place. The table's length stands for NPROC.
module ProcTable {

  import opened Common

  datatype ProcState = Unused | Embryo | Sleeping | Runnable | Running | Zombie

  // A sleep channel: the address of a table slot, or any other address.
  datatype Chan = NoChan | ProcChan(slot: nat) | OtherChan(id: int)

  // Where the process stands on its kernel stack, as far as it matters here.
  datatype Activity = Idle | Forking(child: nat, linked: bool) | InWait

  datatype Proc = Proc(
    state: ProcState,
    pid: nat,
    parent: Option<nat>,
    chan: Chan,
    killed: bool,
    ppid: nat,
    nice: int,
    prio: int,
    cpucount: nat,
    count: nat,
    act: Activity)
  {
    predicate Up() { state == Sleeping || state == Runnable || state == Running }
  }

  datatype ProcInfo = ProcInfo(ppid: nat, switches: nat)

  datatype Table = Table(ps: seq<Proc>, nextpid: nat)

  const INIT: nat := 0
  const ZEROED := Proc(Unused, 0, None, NoChan, false, 0, 0, 0, 0, 0, Idle)

  // ---------------------------------------------------------------- searches

  function FirstUnused(ps: seq<Proc>, i: nat := 0): (k: nat)
    requires i <= |ps|
    ensures i <= k <= |ps|
    ensures k < |ps| ==> ps[k].state == Unused
    ensures forall j :: i <= j < k ==> ps[j].state != Unused
    decreases |ps| - i
  {
    if i == |ps| || ps[i].state == Unused then i else FirstUnused(ps, i + 1)
  }

  predicate IsZombieChild(p: Proc, c: nat) {
    p.parent == Some(c) && p.state == Zombie
  }

  function FirstZombieChild(ps: seq<Proc>, c: nat, i: nat := 0): (k: nat)
    requires i <= |ps|
    ensures i <= k <= |ps|
    ensures k < |ps| ==> IsZombieChild(ps[k], c)
    ensures forall j :: i <= j < k ==> !IsZombieChild(ps[j], c)
    decreases |ps| - i
  {
    if i == |ps| || IsZombieChild(ps[i], c) then i else FirstZombieChild(ps, c, i + 1)
  }

  function FirstWithPid(ps: seq<Proc>, pid: int, i: nat := 0): (k: nat)
    requires i <= |ps|
    ensures i <= k <= |ps|
    ensures k < |ps| ==> ps[k].pid == pid
    ensures forall j :: i <= j < k ==> ps[j].pid != pid
    decreases |ps| - i
  {
    if i == |ps| || ps[i].pid == pid then i else FirstWithPid(ps, pid, i + 1)
  }

  predicate HasKid(ps: seq<Proc>, c: nat) {
    exists j :: 0 <= j < |ps| && ps[j].parent == Some(c)
  }

  // --------------------------------------------- what each call does to a table

  function Wake(p: Proc, chan: Chan): Proc {
    if p.state == Sleeping && p.chan == chan then p.(state := Runnable) else p
  }

  function WakeAll(ps: seq<Proc>, chan: Chan): (r: seq<Proc>)
    ensures |r| == |ps|
    ensures forall i :: 0 <= i < |ps| ==> r[i] == Wake(ps[i], chan)
  {
    seq(|ps|, i requires 0 <= i < |ps| => Wake(ps[i], chan))
  }

  // allocproc, called by process c from fork.
  function ForkAlloc(t: Table, c: nat): Table
    requires c < |t.ps|
  {
    var k := FirstUnused(t.ps);
    if k == |t.ps| then t
    else Table(t.ps[k := t.ps[k].(state := Embryo, pid := t.nextpid)]
                   [c := t.ps[c].(act := Forking(k, false))],
               t.nextpid + 1)
  }

  // fork when kalloc (copied == false) or copyuvm (copied == true) fails: the
  // slot is free again but keeps the pid it was given.
  function ForkAbort(ps: seq<Proc>, c: nat, copied: bool): seq<Proc>
    requires c < |ps| && ps[c].act.Forking? && ps[c].act.child < |ps|
  {
    var k := ps[c].act.child;
    ps[k := ps[k].(state := Unused, ppid := if copied then ps[c].pid else ps[k].ppid)]
      [c := ps[c].(act := Idle)]
  }

  function ForkLink(ps: seq<Proc>, c: nat): seq<Proc>
    requires c < |ps| && ps[c].act.Forking? && ps[c].act.child < |ps|
  {
    var k := ps[c].act.child;
    ps[k := ps[k].(ppid := ps[c].pid, parent := Some(c))][c := ps[c].(act := Forking(k, true))]
  }

  function ForkReady(ps: seq<Proc>, c: nat): seq<Proc>
    requires c < |ps| && ps[c].act.Forking? && ps[c].act.child < |ps|
  {
    var k := ps[c].act.child;
    ps[k := ps[k].(state := Runnable)][c := ps[c].(act := Idle)]
  }

  function ParentChan(p: Proc): Chan {
    if p.parent.Some? then ProcChan(p.parent.value) else NoChan
  }

  predicate HasZombieKid(ps: seq<Proc>, c: nat) {
    exists j :: 0 <= j < |ps| && IsZombieChild(ps[j], c)
  }

  // Slot i after process c has exited: c's parent is woken, c's children go to
  // init, and init is woken if one of them is a zombie.
  function ExitSlot(ps: seq<Proc>, c: nat, i: nat): Proc
    requires c < |ps| && i < |ps|
  {
    var p := ps[i];
    var woken := p.state == Sleeping &&
                 (p.chan == ParentChan(ps[c]) || (p.chan == ProcChan(INIT) && HasZombieKid(ps, c)));
    p.(state := if i == c then Zombie else if woken then Runnable else p.state,
       parent := if p.parent == Some(c) then Some(INIT) else p.parent,
       cpucount := if i == c then 0 else p.cpucount)
  }

  function ExitAll(ps: seq<Proc>, c: nat): (r: seq<Proc>)
    requires c < |ps|
    ensures |r| == |ps|
    ensures forall i :: 0 <= i < |ps| ==> r[i] == ExitSlot(ps, c, i)
  {
    seq(|ps|, i requires 0 <= i < |ps| => ExitSlot(ps, c, i))
  }

  // One pass of the loop in wait.
  datatype WaitOutcome = Reaped(pid: nat) | NoChildren | Sleeps

  function WaitOutcomeOf(ps: seq<Proc>, c: nat): WaitOutcome
    requires c < |ps|
  {
    var z := FirstZombieChild(ps, c);
    if z < |ps| then Reaped(ps[z].pid)
    else if !HasKid(ps, c) || ps[c].killed then NoChildren
    else Sleeps
  }

  function WaitAll(ps: seq<Proc>, c: nat): seq<Proc>
    requires c < |ps|
  {
    var z := FirstZombieChild(ps, c);
    if z < |ps| then
      var freed := ps[z := ps[z].(pid := 0, parent := None, killed := false, state := Unused)];
      freed[c := freed[c].(act := Idle)]
    else if !HasKid(ps, c) || ps[c].killed then
      ps[c := ps[c].(act := Idle)]
    else
      ps[c := ps[c].(chan := ProcChan(c), state := Sleeping, act := InWait, cpucount := 0)]
  }

  // sleep on anything that is not a process.
  function SleepOn(ps: seq<Proc>, c: nat, id: int): seq<Proc>
    requires c < |ps|
  {
    ps[c := ps[c].(chan := OtherChan(id), state := Sleeping, cpucount := 0)]
  }

  function KillPid(ps: seq<Proc>, pid: int): seq<Proc> {
    var k := FirstWithPid(ps, pid);
    if k == |ps| then ps
    else ps[k := ps[k].(killed := true,
                        state := if ps[k].state == Sleeping then Runnable else ps[k].state)]
  }

  // The timer interrupt in trap, taken while process c runs.
  predicate TickYields(p: Proc) { p.cpucount == p.prio }

  function TickSlot(p: Proc): Proc {
    if TickYields(p) then p.(cpucount := 0, state := Runnable) else p.(cpucount := p.cpucount + 1)
  }

  // How many live processes come before nice value n, counting from one.
  function Below(ps: seq<Proc>, n: int): (r: nat)
    ensures r <= |ps|
  {
    if |ps| == 0 then 0
    else Below(ps[..|ps| - 1], n) + (if ps[|ps| - 1].state != Unused && n > ps[|ps| - 1].nice then 1 else 0)
  }

  function Rank(ps: seq<Proc>, n: int): nat { 1 + Below(ps, n) }

  // The slots in use whose nice value is below n.
  ghost function Nicer(ps: seq<Proc>, n: int): set<int> {
    set i | 0 <= i < |ps| && ps[i].state != Unused && ps[i].nice < n
  }

  lemma {:induction false} NicerStep(ps: seq<Proc>, p: Proc, n: int)
    ensures Nicer(ps + [p], n) == Nicer(ps, n) + (if p.state != Unused && p.nice < n then {|ps|} else {})
  {
  }

  lemma {:induction false} RankCounts(ps: seq<Proc>, n: int)
    ensures Rank(ps, n) == 1 + |set i | 0 <= i < |ps| && ps[i].state != Unused && ps[i].nice < n|
  {
    BelowCounts(ps, n);
  }

  lemma {:induction false} BelowCounts(ps: seq<Proc>, n: int)
    ensures Below(ps, n) == |Nicer(ps, n)|
    decreases |ps|
  {
    if |ps| > 0 {
      var front := ps[..|ps| - 1];
      BelowCounts(front, n);
      NicerStep(front, ps[|ps| - 1], n);
      assert ps == front + [ps[|ps| - 1]];
    }
  }

  function FixNice(p: Proc): Proc { if p.nice == 0 then p.(nice := 1) else p }

  // The scheduler choosing slot i; the switched-to process clears its channel.
  function Dispatch(ps: seq<Proc>, i: nat): seq<Proc>
    requires i < |ps|
  {
    var p := FixNice(ps[i]);
    var fixed := ps[i := p];
    fixed[i := p.(prio := Rank(fixed, p.nice), state := Running, count := p.count + 1, chan := NoChan)]
  }

  function SetNice(ps: seq<Proc>, pid: nat, n: int): (r: seq<Proc>)
    ensures |r| == |ps|
    ensures forall i :: 0 <= i < |ps| ==> r[i] == if ps[i].pid == pid then ps[i].(nice := n) else ps[i]
  {
    seq(|ps|, i requires 0 <= i < |ps| => if ps[i].pid == pid then ps[i].(nice := n) else ps[i])
  }

  // The last slot in use with that pid.
  ghost predicate LastLive(ps: seq<Proc>, pid: int, k: int) {
    && 0 <= k < |ps| && ps[k].state != Unused && ps[k].pid == pid
    && forall d :: k < d < |ps| && ps[d].state != Unused ==> ps[d].pid != pid
  }

  // ------------------------------------------------------------------ the code

  class Kernel {
    const procs: array<Proc>
    var nextpid: nat

    ghost function View(): Table
      reads this, procs
    {
      Table(procs[..], nextpid)
    }

    // A zeroed table of n slots, and userinit.
    constructor (n: nat)
      requires n > 0
      ensures fresh(procs)
      ensures View() == Boot(n)
    {
      procs := new Proc[n](_ => ZEROED);
      nextpid := 1;
      new;
      var k := INIT; // the first slot of an all-zero table is free
      procs[k] := procs[k].(state := Embryo, pid := nextpid);
      nextpid := nextpid + 1;
      procs[k] := procs[k].(state := Runnable);
      assert procs[..] == Boot(n).ps;
    }

    method AllocProc(c: nat) returns (k: nat)
      requires c < procs.Length
      modifies this, procs
      ensures k == FirstUnused(old(procs[..]))
      ensures View() == ForkAlloc(old(View()), c)
    {
      k := 0;
      while k < procs.Length && procs[k].state != Unused
        invariant k <= procs.Length
        invariant FirstUnused(procs[..]) == FirstUnused(procs[..], k)
      {
        k := k + 1;
      }
      if k < procs.Length {
        var caller := procs[c];
        procs[k] := procs[k].(state := Embryo, pid := nextpid);
        nextpid := nextpid + 1;
        procs[c] := caller.(act := Forking(k, false));
      }
    }

    // fork with nothing in between its three locked parts.
    method Fork(c: nat, kallocOk: bool, copyOk: bool) returns (pid: int)
      requires c < procs.Length && procs[c].state == Running && procs[c].act == Idle
      modifies this, procs
      ensures var t, k := ForkAlloc(old(View()), c), FirstUnused(old(procs[..]));
        if k == procs.Length then
          pid == -1 && View() == old(View())
        else if !kallocOk || !copyOk then
          pid == -1 && View() == Table(ForkAbort(t.ps, c, kallocOk), t.nextpid)
        else
          pid == old(nextpid) && View() == Table(ForkReady(ForkLink(t.ps, c), c), t.nextpid)
    {
      var k := AllocProc(c);
      if k == procs.Length {
        return -1;
      }
      if !kallocOk {
        procs[k] := procs[k].(state := Unused);
        procs[c] := procs[c].(act := Idle);
        return -1;
      }
      procs[k] := procs[k].(ppid := procs[c].pid);
      if !copyOk {
        procs[k] := procs[k].(state := Unused);
        procs[c] := procs[c].(act := Idle);
        return -1;
      }
      procs[k] := procs[k].(parent := Some(c));
      procs[c] := procs[c].(act := Forking(k, true));
      pid := procs[k].pid;
      procs[k] := procs[k].(state := Runnable);
      procs[c] := procs[c].(act := Idle);
    }

    method Wakeup1(chan: Chan)
      modifies procs
      ensures procs[..] == WakeAll(old(procs[..]), chan)
    {
      for i := 0 to procs.Length
        invariant forall j :: 0 <= j < i ==> procs[j] == Wake(old(procs[j]), chan)
        invariant forall j :: i <= j < procs.Length ==> procs[j] == old(procs[j])
      {
        if procs[i].state == Sleeping && procs[i].chan == chan {
          procs[i] := procs[i].(state := Runnable);
        }
      }
    }

    method Exit(c: nat)
      requires c < procs.Length && procs[c].state == Running && c != INIT
      modifies procs
      ensures procs[..] == ExitAll(old(procs[..]), c)
    {
      ghost var before := procs[..];
      Wakeup1(ParentChan(procs[c]));
      ghost var woken := procs[..];
      ghost var seen := false;
      for i := 0 to procs.Length
        invariant seen <==> exists j :: 0 <= j < i && IsZombieChild(before[j], c)
        invariant forall j :: 0 <= j < procs.Length ==>
          procs[j] == (if seen then Wake(woken[j], ProcChan(INIT)) else woken[j])
                      .(parent := if j < i && before[j].parent == Some(c) then Some(INIT) else before[j].parent)
      {
        if procs[i].parent == Some(c) {
          procs[i] := procs[i].(parent := Some(INIT));
          if procs[i].state == Zombie {
            Wakeup1(ProcChan(INIT));
            seen := true;
          }
        }
      }
      procs[c] := procs[c].(state := Zombie);
      procs[c] := procs[c].(cpucount := 0); // the scheduler, once back
    }

    // One pass of wait's loop, up to the return or the switch to the scheduler.
    method WaitScan(c: nat) returns (r: WaitOutcome)
      requires c < procs.Length
      modifies procs
      ensures r == WaitOutcomeOf(old(procs[..]), c)
      ensures procs[..] == WaitAll(old(procs[..]), c)
    {
      var haveKids := false;
      for i := 0 to procs.Length
        invariant procs[..] == old(procs[..])
        invariant FirstZombieChild(procs[..], c) == FirstZombieChild(procs[..], c, i)
        invariant haveKids <==> exists j :: 0 <= j < i && procs[j].parent == Some(c)
      {
        if procs[i].parent != Some(c) {
          continue;
        }
        haveKids := true;
        if procs[i].state == Zombie {
          r := Reaped(procs[i].pid);
          procs[i] := procs[i].(pid := 0);
          procs[i] := procs[i].(parent := None);
          procs[i] := procs[i].(killed := false);
          procs[i] := procs[i].(state := Unused);
          procs[c] := procs[c].(act := Idle);
          return;
        }
      }
      if !haveKids || procs[c].killed {
        procs[c] := procs[c].(act := Idle);
        return NoChildren;
      }
      procs[c] := procs[c].(chan := ProcChan(c), act := InWait);
      procs[c] := procs[c].(state := Sleeping);
      procs[c] := procs[c].(cpucount := 0); // the scheduler, once back
      return Sleeps;
    }

    method Kill(pid: int) returns (r: int)
      modifies procs
      ensures r == if FirstWithPid(old(procs[..]), pid) < procs.Length then 0 else -1
      ensures procs[..] == KillPid(old(procs[..]), pid)
    {
      for i := 0 to procs.Length
        invariant procs[..] == old(procs[..])
        invariant FirstWithPid(procs[..], pid) == FirstWithPid(procs[..], pid, i)
      {
        if procs[i].pid == pid {
          procs[i] := procs[i].(killed := true);
          if procs[i].state == Sleeping {
            procs[i] := procs[i].(state := Runnable);
          }
          return 0;
        }
      }
      return -1;
    }

    // trap on a timer interrupt while c runs; true when it called yield.
    method Tick(c: nat) returns (yielded: bool)
      requires c < procs.Length && procs[c].state == Running
      modifies procs
      ensures yielded == TickYields(old(procs[c]))
      ensures procs[..] == old(procs[..])[c := TickSlot(old(procs[c]))]
    {
      var spent := procs[c].cpucount;
      procs[c] := procs[c].(cpucount := spent + 1);
      yielded := spent == procs[c].prio;
      if yielded {
        procs[c] := procs[c].(state := Runnable);
        procs[c] := procs[c].(cpucount := 0); // the scheduler, once back
      }
    }

    method Check(n: int) returns (ct: nat)
      ensures ct == Rank(procs[..], n)
      ensures ct == 1 + |set i | 0 <= i < procs.Length && procs[i].state != Unused && procs[i].nice < n|
    {
      ct := 1;
      for i := 0 to procs.Length
        invariant ct == Rank(procs[..i], n)
      {
        assert procs[..i + 1][..i] == procs[..i];
        if procs[i].state == Unused {
          continue;
        }
        if n > procs[i].nice {
          ct := ct + 1;
        }
      }
      assert procs[..procs.Length] == procs[..];
      RankCounts(procs[..], n);
      assert (set i | 0 <= i < procs.Length && procs[i].state != Unused && procs[i].nice < n) ==
             set i | 0 <= i < |procs[..]| && procs[..][i].state != Unused && procs[..][i].nice < n;
    }

    // The body of the scheduler's scan at a RUNNABLE slot, up to swtch.
    method Switch(i: nat)
      requires i < procs.Length && procs[i].state == Runnable
      modifies procs
      ensures procs[..] == Dispatch(old(procs[..]), i)
    {
      if procs[i].nice == 0 {
        procs[i] := procs[i].(nice := 1);
      }
      assert procs[..] == old(procs[..])[i := FixNice(old(procs[i]))];
      var prio := Check(procs[i].nice);
      procs[i] := procs[i].(prio := prio);
      procs[i] := procs[i].(state := Running);
      procs[i] := procs[i].(count := procs[i].count + 1);
      procs[i] := procs[i].(chan := NoChan); // the tail of sleep
    }

    method SetPrio(c: nat, n: int) returns (r: int)
      requires c < procs.Length
      modifies procs
      ensures r == if n <= 0 then -1 else 0
      ensures procs[..] == if n <= 0 then old(procs[..]) else SetNice(old(procs[..]), old(procs[c].pid), n)
    {
      var success := false;
      var me := procs[c].pid;
      if n <= 0 {
        return -1;
      }
      for i := 0 to procs.Length
        invariant forall j :: 0 <= j < i ==> procs[j] == if old(procs[j]).pid == me then old(procs[j]).(nice := n) else old(procs[j])
        invariant forall j :: i <= j < procs.Length ==> procs[j] == old(procs[j])
        invariant c < i ==> success
      {
        if procs[i].pid == me {
          procs[i] := procs[i].(nice := n);
          success := true;
        }
      }
      r := if success then 0 else -1;
    }

    method GetMaxPid() returns (max: nat)
      ensures forall i :: 0 <= i < procs.Length && procs[i].state != Unused ==> procs[i].pid <= max
      ensures max == 0 || exists i :: 0 <= i < procs.Length && procs[i].state != Unused && procs[i].pid == max
    {
      max := 0;
      for i := 0 to procs.Length
        invariant forall j :: 0 <= j < i && procs[j].state != Unused ==> procs[j].pid <= max
        invariant max == 0 || exists j :: 0 <= j < i && procs[j].state != Unused && procs[j].pid == max
      {
        if procs[i].state != Unused {
          if procs[i].pid > max {
            max := procs[i].pid;
          }
        }
      }
    }

    // What get_proc_info fills in, besides the size. Nothing stops its loop, so
    // the last process with the pid would count.
    method GetProcInfo(i: int, info: ProcInfo) returns (r: int, filled: ProcInfo)
      ensures (forall p :: p in procs[..] && p.state != Unused ==> p.pid != i) ==> r == -1 && filled == info
      ensures forall k :: LastLive(procs[..], i, k) ==> r == i && filled == ProcInfo(procs[k].ppid, procs[k].count)
    {
      var success := false;
      filled := info;
      for k := 0 to procs.Length
        invariant success ==> exists p :: p in procs[..k] && p.state != Unused && p.pid == i
        invariant !success ==> filled == info
        invariant forall d :: LastLive(procs[..k], i, d) ==> success && filled == ProcInfo(procs[d].ppid, procs[d].count)
      {
        assert procs[..k + 1] == procs[..k] + [procs[k]];
        if procs[k].pid == i && procs[k].state != Unused {
          filled := ProcInfo(procs[k].ppid, procs[k].count);
          success := true;
        }
      }
      assert procs[..procs.Length] == procs[..];
      r := if success then i else -1;
    }

    method GetNumProc() returns (count: nat)
      ensures count == |set i | 0 <= i < procs.Length && procs[i].state != Unused|
    {
      count := 0;
      ghost var live: set<int> := {};
      for i := 0 to procs.Length
        invariant live == set j | 0 <= j < i && procs[j].state != Unused
        invariant count == |live|
      {
        if procs[i].state != Unused {
          count := count + 1;
          live := live + {i};
        }
      }
      assert live == set i | 0 <= i < procs.Length && procs[i].state != Unused;
    }
  }

  // The table after userinit: init in the first slot, everything else zero.
  function Boot(n: nat): Table
    requires n > 0
  {
    Table(seq(n, i => if i == INIT then ZEROED.(state := Runnable, pid := 1) else ZEROED), 2)
  }
}
