// Project3/thread1/master-worker.c: masters fill a buffer, workers drain it,
// under one mutex with two condition variables. What a thread does between
// taking the mutex and releasing it, or waiting, is one step.
module MasterWorker {
  // Where a thread stands. A leaving worker has some signals still to send.
  datatype MasterAt = MReady | MWaiting | MWoken | MLeaving | MDone
  datatype WorkerAt = WReady | WWaiting | WWoken | WLeaving(signals: nat) | WDone

  datatype Config = Config(total: nat, max: nat)

  // consumed is everything printed by the workers so far, in order. overrun
  // says that an item was stored past the end of the buffer.
  datatype State = State(item: nat, cur: nat, buffer: seq<int>, consumed: seq<int>, overrun: bool,
                         masters: seq<MasterAt>, workers: seq<WorkerAt>)

  function Start(c: Config, masters: nat, workers: nat): State {
    State(0, 0, seq(c.max, _ => 0), [], false, seq(masters, _ => MReady), seq(workers, _ => WReady))
  }

  // A step of a thread, with the thread that its signal wakes, if any waits.
  datatype Event =
    | MasterEnter(i: nat, wakes: int)
    | MasterResume(i: nat)
    | MasterLeave(i: nat, wakes: int)
    | WorkerEnter(j: nat)
    | WorkerResume(j: nat, wakes: int)
    | WorkerLeave(j: nat, wakes: int)

  // cond1 is for masters, cond2 for workers: one that waits, or nobody.
  predicate MasterChoice(s: State, k: int) {
    if 0 <= k < |s.masters| then s.masters[k] == MWaiting
    else k == -1 && forall i :: 0 <= i < |s.masters| ==> s.masters[i] != MWaiting
  }

  predicate WorkerChoice(s: State, k: int) {
    if 0 <= k < |s.workers| then s.workers[k] == WWaiting
    else k == -1 && forall j :: 0 <= j < |s.workers| ==> s.workers[j] != WWaiting
  }

  function WakeMaster(s: State, k: int): State {
    if 0 <= k < |s.masters| then s.(masters := s.masters[k := MWoken]) else s
  }

  function WakeWorker(s: State, k: int): State {
    if 0 <= k < |s.workers| then s.(workers := s.workers[k := WWoken]) else s
  }

  function Produce(s: State): State {
    if s.cur < |s.buffer| then s.(buffer := s.buffer[s.cur := s.item], cur := s.cur + 1, item := s.item + 1)
    else s.(overrun := true)
  }

  // The worker's loop prints the buffer from the front until it is empty.
  function Drain(s: State): State
    requires s.cur <= |s.buffer|
  {
    s.(consumed := s.consumed + s.buffer[..s.cur], cur := 0)
  }

  function SetMaster(s: State, i: nat, at: MasterAt): State
    requires i < |s.masters|
  {
    s.(masters := s.masters[i := at])
  }

  function SetWorker(s: State, j: nat, at: WorkerAt): State
    requires j < |s.workers|
  {
    s.(workers := s.workers[j := at])
  }

  predicate Enabled(c: Config, s: State, e: Event) {
    && !s.overrun && s.cur <= |s.buffer|
    && match e
       case MasterEnter(i, k) =>
         i < |s.masters| && s.masters[i] == MReady
         && (s.item >= c.total || s.cur == c.max ==> WorkerChoice(s, k))
       case MasterResume(i) => i < |s.masters| && s.masters[i] == MWoken
       case MasterLeave(i, k) => i < |s.masters| && s.masters[i] == MLeaving && WorkerChoice(s, k)
       case WorkerEnter(j) => j < |s.workers| && s.workers[j] == WReady
       case WorkerResume(j, k) => j < |s.workers| && s.workers[j] == WWoken && MasterChoice(s, k)
       case WorkerLeave(j, k) =>
         j < |s.workers| && s.workers[j].WLeaving? && s.workers[j].signals > 0
         && (if s.workers[j].signals > 1 then WorkerChoice(s, k) else MasterChoice(s, k))
  }

  function Apply(c: Config, s: State, e: Event): State
    requires Enabled(c, s, e)
  {
    match e
    case MasterEnter(i, k) =>
      if s.item >= c.total then SetMaster(WakeWorker(s, k), i, MLeaving)
      else if s.cur == c.max then SetMaster(WakeWorker(s, k), i, MWaiting)
      else Produce(s)
    case MasterResume(i) =>
      SetMaster(if s.item < c.total then Produce(s) else s, i, MReady)
    case MasterLeave(i, k) => SetMaster(WakeWorker(s, k), i, MDone)
    case WorkerEnter(j) => SetWorker(s, j, WWaiting)
    case WorkerResume(j, k) =>
      if s.cur == 0 && s.item >= c.total then SetWorker(s, j, WLeaving(2))
      else
        var s1 := Drain(s);
        var s2 := if s1.cur == 0 then WakeMaster(s1, k) else s1;
        SetWorker(s2, j, if s.item >= c.total then WLeaving(3) else WReady)
    case WorkerLeave(j, k) =>
      var n := s.workers[j].signals;
      var s1 := if n > 1 then WakeWorker(s, k) else WakeMaster(s, k);
      SetWorker(s1, j, if n > 1 then WLeaving(n - 1) else WDone)
  }

  predicate Runs(c: Config, s: State, es: seq<Event>)
    decreases |es|
  {
    es != [] ==> Enabled(c, s, es[0]) && Runs(c, Apply(c, s, es[0]), es[1..])
  }

  function Exec(c: Config, s: State, es: seq<Event>): State
    requires Runs(c, s, es)
    decreases |es|
  {
    if es == [] then s else Exec(c, Apply(c, s, es[0]), es[1..])
  }

  // ----------------------------------------------------- what every run keeps

  function UpTo(n: nat): (r: seq<int>)
    ensures |r| == n && forall k :: 0 <= k < n ==> r[k] == k
  {
    seq(n, k => k)
  }

  predicate Exited(w: WorkerAt) { w.WLeaving? || w.WDone? }

  // The items consumed and then those in the buffer are 0, 1, 2, ..., in order;
  // the buffer holds no more than it can; a worker that has left has left
  // nothing behind.
  ghost predicate Inv(c: Config, s: State) {
    && |s.buffer| == c.max && s.cur <= c.max && s.item <= c.total
    && s.consumed + s.buffer[..s.cur] == UpTo(s.item)
    && (forall j :: 0 <= j < |s.workers| && Exited(s.workers[j]) ==> s.item >= c.total && s.cur == 0)
  }

  lemma {:induction false} StartInv(c: Config, masters: nat, workers: nat)
    ensures Inv(c, Start(c, masters, workers))
  {
  }

  lemma {:induction false} ProduceKeepsOrder(s: State)
    requires s.cur < |s.buffer| && s.consumed + s.buffer[..s.cur] == UpTo(s.item)
    ensures Produce(s).consumed + Produce(s).buffer[..s.cur + 1] == UpTo(s.item + 1)
  {
    var b := Produce(s).buffer;
    assert b[..s.cur + 1] == s.buffer[..s.cur] + [s.item];
    assert UpTo(s.item + 1) == UpTo(s.item) + [s.item];
  }

  lemma {:induction false} MasterStepInv(c: Config, s: State, e: Event)
    requires Inv(c, s) && Enabled(c, s, e) && (e.MasterEnter? || e.MasterResume? || e.MasterLeave?)
    ensures Inv(c, Apply(c, s, e)) || Apply(c, s, e).overrun
  {
    if !e.MasterLeave? && s.item < c.total && s.cur < |s.buffer| {
      ProduceKeepsOrder(s);
    }
  }

  lemma {:induction false} WorkerStepInv(c: Config, s: State, e: Event)
    requires Inv(c, s) && Enabled(c, s, e) && (e.WorkerEnter? || e.WorkerResume? || e.WorkerLeave?)
    ensures Inv(c, Apply(c, s, e))
  {
  }

  lemma {:induction false} InvAlongRun(c: Config, s: State, es: seq<Event>)
    requires Inv(c, s) && Runs(c, s, es) && !Exec(c, s, es).overrun
    ensures Inv(c, Exec(c, s, es))
    decreases |es|
  {
    if es != [] {
      var s1 := Apply(c, s, es[0]);
      if es[0].MasterEnter? || es[0].MasterResume? || es[0].MasterLeave? {
        MasterStepInv(c, s, es[0]);
      } else {
        WorkerStepInv(c, s, es[0]);
      }
      InvAlongRun(c, s1, es[1..]);
    }
  }

  // In every run, with any number of masters and workers: what was consumed
  // and what is in the buffer are the items in order, none lost, none twice;
  // and once any worker has left, every item has been consumed exactly once.
  lemma {:induction false} EveryItemOnceInOrder(c: Config, masters: nat, workers: nat, es: seq<Event>)
    requires Runs(c, Start(c, masters, workers), es) && !Exec(c, Start(c, masters, workers), es).overrun
    ensures var s := Exec(c, Start(c, masters, workers), es);
      && s.cur <= c.max == |s.buffer|
      && s.consumed + s.buffer[..s.cur] == UpTo(s.item)
      && (forall j :: 0 <= j < |s.workers| && Exited(s.workers[j]) ==> s.consumed == UpTo(c.total))
  {
    var s := Exec(c, Start(c, masters, workers), es);
    StartInv(c, masters, workers);
    InvAlongRun(c, Start(c, masters, workers), es);
    if s.cur == 0 {
      assert s.consumed + s.buffer[..0] == s.consumed;
    }
  }

  // ----------------------------------------------------- when the buffer holds

  // Whatever wakes a master, the items of a full buffer have been consumed, or
  // there is nothing left to produce; and a single master wakes to an empty
  // buffer, which only it could have filled.
  ghost predicate WokenInv(c: Config, s: State) {
    && (forall i :: 0 <= i < |s.masters| && s.masters[i] == MWaiting ==> s.item >= c.max)
    && (forall i :: 0 <= i < |s.masters| && s.masters[i] == MWoken ==>
          |s.workers| >= 1 && (s.item >= c.total || |s.consumed| >= c.max))
    && (forall i :: 0 <= i < |s.masters| && s.masters[i] == MWoken && |s.masters| == 1 ==>
          s.item >= c.total || s.cur == 0)
  }

  predicate Roomy(c: Config, masters: nat, workers: nat) {
    masters == 0 || workers == 0 || c.total <= 2 * c.max || (masters == 1 && c.max >= 1)
  }

  lemma {:induction false} Counted(c: Config, s: State)
    requires Inv(c, s)
    ensures |s.consumed| + s.cur == s.item
  {
    assert |s.consumed + s.buffer[..s.cur]| == s.item;
  }

  lemma {:induction false} MasterStepHolds(c: Config, s: State, e: Event)
    requires Inv(c, s) && WokenInv(c, s) && Roomy(c, |s.masters|, |s.workers|)
    requires Enabled(c, s, e) && (e.MasterEnter? || e.MasterResume? || e.MasterLeave?)
    ensures !Apply(c, s, e).overrun && WokenInv(c, Apply(c, s, e))
  {
    Counted(c, s);
  }

  lemma {:induction false} WorkerStepHolds(c: Config, s: State, e: Event)
    requires Inv(c, s) && WokenInv(c, s)
    requires Enabled(c, s, e) && (e.WorkerEnter? || e.WorkerResume? || e.WorkerLeave?)
    ensures !Apply(c, s, e).overrun && WokenInv(c, Apply(c, s, e))
  {
    Counted(c, s);
  }

  lemma {:induction false} SameThreads(c: Config, s: State, e: Event)
    requires Enabled(c, s, e)
    ensures |Apply(c, s, e).masters| == |s.masters| && |Apply(c, s, e).workers| == |s.workers|
  {
  }

  lemma {:induction false} RoomyStepHolds(c: Config, s: State, e: Event)
    requires Inv(c, s) && WokenInv(c, s) && Roomy(c, |s.masters|, |s.workers|) && !s.overrun && Enabled(c, s, e)
    ensures var t := Apply(c, s, e);
      Inv(c, t) && WokenInv(c, t) && Roomy(c, |t.masters|, |t.workers|) && !t.overrun
  {
    SameThreads(c, s, e);
    if e.MasterEnter? || e.MasterResume? || e.MasterLeave? {
      MasterStepHolds(c, s, e);
      MasterStepInv(c, s, e);
    } else {
      WorkerStepHolds(c, s, e);
      WorkerStepInv(c, s, e);
    }
  }

  lemma {:induction false} RoomyRunHolds(c: Config, s: State, es: seq<Event>)
    requires Inv(c, s) && WokenInv(c, s) && Roomy(c, |s.masters|, |s.workers|) && !s.overrun && Runs(c, s, es)
    ensures !Exec(c, s, es).overrun
    decreases |es|
  {
    if es != [] {
      RoomyStepHolds(c, s, es[0]);
      RoomyRunHolds(c, Apply(c, s, es[0]), es[1..]);
    }
  }

  lemma {:induction false} RunsConcat(c: Config, s: State, a: seq<Event>, b: seq<Event>)
    requires Runs(c, s, a) && Runs(c, Exec(c, s, a), b)
    ensures Runs(c, s, a + b) && Exec(c, s, a + b) == Exec(c, Exec(c, s, a), b)
    decreases |a|
  {
    if a == [] {
      assert a + b == b;
    } else {
      assert (a + b)[1..] == a[1..] + b;
      RunsConcat(c, Apply(c, s, a[0]), a[1..], b);
    }
  }

  lemma {:induction false} OneStep(c: Config, s: State, e: Event)
    requires Enabled(c, s, e)
    ensures Runs(c, s, [e]) && Exec(c, s, [e]) == Apply(c, s, e)
  {
    assert [e][1..] == [];
  }

  // A master that does not have to wait fills the buffer with n more items.
  lemma {:induction false} Fill(c: Config, s: State, i: nat, n: nat) returns (es: seq<Event>)
    requires i < |s.masters| && s.masters[i] == MReady && !s.overrun
    requires |s.buffer| == c.max && s.cur + n <= c.max && s.item + n <= c.total
    ensures Runs(c, s, es)
    ensures var t := Exec(c, s, es);
      t.item == s.item + n && t.cur == s.cur + n && |t.buffer| == c.max && !t.overrun
      && t.masters == s.masters && t.workers == s.workers
    decreases n
  {
    if n == 0 {
      es := [];
    } else {
      var e := MasterEnter(i, -1);
      var rest := Fill(c, Apply(c, s, e), i, n - 1);
      es := [e] + rest;
    }
  }

  // A master fills the buffer and waits; a worker empties it and wakes it.
  lemma {:induction false} FillAndWake(c: Config, masters: nat, workers: nat) returns (es: seq<Event>)
    requires masters >= 1 && workers >= 1 && c.total > c.max
    ensures Runs(c, Start(c, masters, workers), es)
    ensures var t := Exec(c, Start(c, masters, workers), es);
      t.item == c.max && t.cur == 0 && |t.buffer| == c.max && !t.overrun
      && |t.masters| == masters && t.masters[0] == MWoken
      && (forall i :: 1 <= i < masters ==> t.masters[i] == MReady)
  {
    var s0 := Start(c, masters, workers);
    OneStep(c, s0, WorkerEnter(0));
    var s1 := Apply(c, s0, WorkerEnter(0));
    var fill := Fill(c, s1, 0, c.max);
    RunsConcat(c, s0, [WorkerEnter(0)], fill);
    var s2 := Exec(c, s1, fill);
    OneStep(c, s2, MasterEnter(0, 0));
    RunsConcat(c, s0, [WorkerEnter(0)] + fill, [MasterEnter(0, 0)]);
    var s3 := Apply(c, s2, MasterEnter(0, 0));
    OneStep(c, s3, WorkerResume(0, 0));
    RunsConcat(c, s0, [WorkerEnter(0)] + fill + [MasterEnter(0, 0)], [WorkerResume(0, 0)]);
    es := [WorkerEnter(0)] + fill + [MasterEnter(0, 0)] + [WorkerResume(0, 0)];
  }

  // Before the woken master runs, another one fills the buffer again.
  lemma {:induction false} OverrunRun(c: Config, masters: nat, workers: nat) returns (es: seq<Event>)
    requires !Roomy(c, masters, workers)
    ensures Runs(c, Start(c, masters, workers), es) && Exec(c, Start(c, masters, workers), es).overrun
  {
    var s0 := Start(c, masters, workers);
    var a := FillAndWake(c, masters, workers);
    var s := Exec(c, s0, a);
    var b := [];
    if c.max > 0 {
      b := Fill(c, s, 1, c.max);
    }
    RunsConcat(c, s0, a, b);
    var s1 := Exec(c, s, b);
    OneStep(c, s1, MasterResume(0));
    RunsConcat(c, s0, a + b, [MasterResume(0)]);
    es := a + b + [MasterResume(0)];
  }

  // No run stores past the end of the buffer exactly when there is no master,
  // no worker, too little to produce, or one master and room for an item.
  lemma {:induction false} BufferHoldsExactlyWhenRoomy(c: Config, masters: nat, workers: nat)
    ensures (forall es: seq<Event> :: Runs(c, Start(c, masters, workers), es) ==>
               !Exec(c, Start(c, masters, workers), es).overrun)
       <==> Roomy(c, masters, workers)
  {
    var s := Start(c, masters, workers);
    if Roomy(c, masters, workers) {
      forall es: seq<Event> | Runs(c, s, es)
        ensures !Exec(c, s, es).overrun
      {
        StartInv(c, masters, workers);
        RoomyRunHolds(c, s, es);
      }
    } else {
      var es := OverrunRun(c, masters, workers);
    }
  }

  // --------------------------------------------------------- the last signals

  predicate OfWorker(e: Event, j: nat) {
    (e.WorkerEnter? || e.WorkerResume? || e.WorkerLeave?) && e.j == j
  }

  predicate OfMaster(e: Event, i: nat) {
    (e.MasterEnter? || e.MasterResume? || e.MasterLeave?) && e.i == i
  }

  // Between s and t, k was woken out of its wait, or nobody waited and k is -1;
  // no other worker but j has moved, and no master.
  ghost predicate WokeWorker(s: State, t: State, j: int, k: int) {
    && |t.workers| == |s.workers| && t.masters == s.masters
    && (if k == -1 then forall i :: 0 <= i < |s.workers| ==> s.workers[i] != WWaiting
        else 0 <= k < |s.workers| && k != j && s.workers[k] == WWaiting && t.workers[k] == WWoken)
    && (forall i :: 0 <= i < |s.workers| && i != j && i != k ==> t.workers[i] == s.workers[i])
  }

  ghost predicate WokeMaster(s: State, t: State, j: int, k: int) {
    && |t.masters| == |s.masters| && |t.workers| == |s.workers|
    && (if k == -1 then forall i :: 0 <= i < |s.masters| ==> s.masters[i] != MWaiting
        else 0 <= k < |s.masters| && s.masters[k] == MWaiting && t.masters[k] == MWoken)
    && (forall i :: 0 <= i < |s.masters| && i != k ==> t.masters[i] == s.masters[i])
    && (forall i :: 0 <= i < |s.workers| && i != j ==> t.workers[i] == s.workers[i])
  }

  // The items, the buffer and what was printed are as they were.
  predicate SameGoods(s: State, t: State) {
    t == s.(masters := t.masters, workers := t.workers)
  }

  // Worker j has sent a signal: its last goes to the masters.
  ghost predicate Signals(s: State, t: State, j: int, k: int, last: bool) {
    SameGoods(s, t) && if last then WokeMaster(s, t, j, k) else WokeWorker(s, t, j, k)
  }

  // A worker back from its wait leaves exactly when there is nothing left to
  // produce; a worker that drains wakes a master.
  lemma {:induction false} ResumedWorker(c: Config, s: State, j: nat, k: int)
    requires Enabled(c, s, WorkerResume(j, k))
    ensures var t := Apply(c, s, WorkerResume(j, k));
      && t.workers == s.workers[j := if s.item < c.total then WReady else if s.cur == 0 then WLeaving(2) else WLeaving(3)]
      && t.item == s.item && t.buffer == s.buffer && t.overrun == s.overrun && t.cur == 0
      && t.consumed == s.consumed + s.buffer[..s.cur]
      && (if s.cur == 0 && s.item >= c.total then t.masters == s.masters else WokeMaster(s, t, j, k))
  {
  }

  function Sent(es: seq<Event>, j: nat): nat
    decreases |es|
  {
    if es == [] then 0 else (if es[0].WorkerLeave? && es[0].j == j then 1 else 0) + Sent(es[1..], j)
  }

  lemma {:induction false} LeaverStep(c: Config, s: State, e: Event, j: nat)
    requires Enabled(c, s, e) && j < |s.workers| && Exited(s.workers[j])
    ensures j < |Apply(c, s, e).workers|
    ensures !OfWorker(e, j) ==> Apply(c, s, e).workers[j] == s.workers[j]
    ensures OfWorker(e, j) ==>
      && e.WorkerLeave? && s.workers[j].WLeaving? && s.workers[j].signals > 0
      && Apply(c, s, e).workers[j] == (if s.workers[j].signals == 1 then WDone else WLeaving(s.workers[j].signals - 1))
      && Signals(s, Apply(c, s, e), j, e.wakes, s.workers[j].signals == 1)
  {
  }

  // What is still to send.
  function Left(w: WorkerAt): nat { if w.WLeaving? then w.signals else 0 }

  // A leaving worker with n signals to send, in any run from there: it does
  // nothing but send, never more than n, and is done once it has sent all.
  lemma {:induction false} LeaverSendsAll(c: Config, s: State, es: seq<Event>, j: nat)
    requires Runs(c, s, es) && j < |s.workers| && (s.workers[j] == WDone || (s.workers[j].WLeaving? && s.workers[j].signals > 0))
    ensures j < |Exec(c, s, es).workers| && Sent(es, j) <= Left(s.workers[j])
    ensures Exec(c, s, es).workers[j] ==
      if Sent(es, j) == Left(s.workers[j]) then WDone else WLeaving(Left(s.workers[j]) - Sent(es, j))
    ensures forall p :: 0 <= p < |es| && OfWorker(es[p], j) ==> es[p].WorkerLeave?
    decreases |es|
  {
    if es != [] {
      LeaverStep(c, s, es[0], j);
      LeaverSendsAll(c, Apply(c, s, es[0]), es[1..], j);
      assert forall p :: 1 <= p < |es| ==> es[p] == es[1..][p - 1];
    }
  }

  lemma {:induction false} RunsPrefix(c: Config, s: State, es: seq<Event>, p: nat)
    requires Runs(c, s, es) && p < |es|
    ensures Runs(c, s, es[..p]) && Enabled(c, Exec(c, s, es[..p]), es[p])
    decreases p
  {
    if p > 0 {
      assert es[..p][1..] == es[1..][..p - 1];
      RunsPrefix(c, Apply(c, s, es[0]), es[1..], p - 1);
    }
  }

  // So a worker that leaves sends one signal to the workers if the buffer was
  // empty and two if it has drained it, and last one to the masters: that many
  // in any run, each waking one that waits if there is one.
  lemma {:induction false} LeavingWorkerSendsItsSignals(c: Config, s: State, j: nat, k: int, es: seq<Event>)
    requires Enabled(c, s, WorkerResume(j, k)) && s.item >= c.total
    requires Runs(c, Apply(c, s, WorkerResume(j, k)), es)
    ensures var m, s1 := if s.cur == 0 then 2 else 3, Apply(c, s, WorkerResume(j, k));
      && j < |Exec(c, s1, es).workers|
      && Sent(es, j) <= m && (Exec(c, s1, es).workers[j] == WDone <==> Sent(es, j) == m)
      && forall p :: 0 <= p < |es| && OfWorker(es[p], j) ==>
           es[p].WorkerLeave? && Runs(c, s1, es[..p]) && Enabled(c, Exec(c, s1, es[..p]), es[p]) &&
           var u := Exec(c, s1, es[..p]);
           Signals(u, Apply(c, u, es[p]), j, es[p].wakes, Sent(es[..p], j) == m - 1)
  {
    var s1 := Apply(c, s, WorkerResume(j, k));
    LeaverSendsAll(c, s1, es, j);
    forall p | 0 <= p < |es| && OfWorker(es[p], j)
      ensures Runs(c, s1, es[..p]) && Enabled(c, Exec(c, s1, es[..p]), es[p])
      ensures var u := Exec(c, s1, es[..p]);
        Signals(u, Apply(c, u, es[p]), j, es[p].wakes, Sent(es[..p], j) == if s.cur == 0 then 1 else 2)
    {
      RunsPrefix(c, s1, es, p);
      LeaverSendsAll(c, s1, es[..p], j);
      LeaverStep(c, Exec(c, s1, es[..p]), es[p], j);
    }
  }

  // A master at the start of its loop: it leaves exactly when there is nothing
  // left to produce, waits when the buffer is full, and either way wakes a
  // worker.
  lemma {:induction false} EnteringMaster(c: Config, s: State, i: nat, k: int)
    requires Enabled(c, s, MasterEnter(i, k))
    ensures var t := Apply(c, s, MasterEnter(i, k));
      && i < |t.masters| == |s.masters|
      && (t.masters[i] == MLeaving <==> s.item >= c.total)
      && (t.masters[i] == MWaiting <==> s.item < c.total && s.cur == c.max)
      && (forall l :: 0 <= l < |s.masters| && l != i ==> t.masters[l] == s.masters[l])
      && (if s.item >= c.total || s.cur == c.max then
            SameGoods(s, t) && WokeWorker(s.(masters := t.masters), t, -1, k)
          else t.masters == s.masters && t.workers == s.workers)
  {
  }

  // A leaving master wakes one more worker and is done.
  lemma {:induction false} MasterLeaves(c: Config, s: State, e: Event, i: nat)
    requires Enabled(c, s, e) && i < |s.masters| && (s.masters[i] == MLeaving || s.masters[i] == MDone)
    ensures i < |Apply(c, s, e).masters|
    ensures !OfMaster(e, i) ==> Apply(c, s, e).masters[i] == s.masters[i]
    ensures OfMaster(e, i) ==>
      && e.MasterLeave? && s.masters[i] == MLeaving
      && Apply(c, s, e).masters == s.masters[i := MDone]
      && SameGoods(s, Apply(c, s, e)) && WokeWorker(s.(masters := s.masters[i := MDone]), Apply(c, s, e), -1, e.wakes)
  {
  }

  // ------------------------------------------------------------------ the program

  // The shared variables, and where each thread stands. Every method is what a
  // thread does while it holds the mutex, or one signal sent without it.
  class Shared {
    const c: Config
    const buffer: array<int>
    var item: nat
    var cur: nat
    var printed: seq<int>
    var overrun: bool
    var masters: seq<MasterAt>
    var workers: seq<WorkerAt>

    ghost function View(): State
      reads this, buffer
    {
      State(item, cur, buffer[..], printed, overrun, masters, workers)
    }

    constructor (c: Config, numMasters: nat, numWorkers: nat)
      ensures this.c == c && fresh(buffer) && View() == Start(c, numMasters, numWorkers)
    {
      this.c := c;
      buffer := new int[c.max](_ => 0);
      item, cur, printed, overrun := 0, 0, [], false;
      masters, workers := seq(numMasters, _ => MReady), seq(numWorkers, _ => WReady);
    }

    method SignalMaster(k: int)
      modifies this`masters
      ensures View() == WakeMaster(old(View()), k)
    {
      if 0 <= k < |masters| {
        masters := masters[k := MWoken];
      }
    }

    method SignalWorker(k: int)
      modifies this`workers
      ensures View() == WakeWorker(old(View()), k)
    {
      if 0 <= k < |workers| {
        workers := workers[k := WWoken];
      }
    }

    // A store past the end of the buffer is recorded, and ends the run.
    method ProduceItem()
      requires cur <= buffer.Length
      modifies this`cur, this`item, this`overrun, buffer
      ensures View() == Produce(old(View()))
      ensures overrun <==> old(overrun) || old(cur) == buffer.Length
    {
      if cur == buffer.Length {
        overrun := true;
        return;
      }
      buffer[cur] := item;
      cur := cur + 1;
      item := item + 1;
    }

    // From taking the mutex to releasing it or waiting.
    method EnterMaster(i: nat, k: int)
      requires Enabled(c, View(), MasterEnter(i, k))
      modifies this, buffer
      ensures View() == Apply(c, old(View()), MasterEnter(i, k))
    {
      if item >= c.total {
        SignalWorker(k);
        masters := masters[i := MLeaving];
      } else if cur == c.max {
        SignalWorker(k);
        masters := masters[i := MWaiting];
      } else {
        ProduceItem();
      }
    }

    // Back from the wait, with the mutex: what was waited for is not tested.
    method ResumeMaster(i: nat)
      requires Enabled(c, View(), MasterResume(i))
      modifies this, buffer
      ensures View() == Apply(c, old(View()), MasterResume(i))
    {
      if item < c.total {
        ProduceItem();
      }
      masters := masters[i := MReady];
    }

    method DrainBuffer()
      requires cur <= buffer.Length
      modifies this`cur, this`printed
      ensures View() == Drain(old(View()))
    {
      ghost var n, before := cur, printed;
      var i := 0;
      while i < buffer.Length
        invariant 0 <= i <= buffer.Length
        invariant i <= n ==> cur == n - i && printed == before + buffer[..i]
        invariant i > n ==> cur == 0 && printed == before + buffer[..n]
      {
        if cur != 0 {
          printed := printed + [buffer[i]];
          cur := cur - 1;
        }
        i := i + 1;
      }
    }

    method ResumeWorker(j: nat, k: int)
      requires Enabled(c, View(), WorkerResume(j, k))
      modifies this
      ensures View() == Apply(c, old(View()), WorkerResume(j, k))
    {
      if cur == 0 && item >= c.total {
        workers := workers[j := WLeaving(2)];
        return;
      }
      DrainBuffer();
      if cur == 0 {
        SignalMaster(k);
      }
      if item >= c.total {
        workers := workers[j := WLeaving(3)];
      } else {
        workers := workers[j := WReady];
      }
    }
  }
}
