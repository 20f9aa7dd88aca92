// The ticket reader/writer lock of Project3/thread2/rw_lock-w-test.c.
//
// The lock has three counters only. Every call is cut at its loop tests: an
// arrival (taking a ticket), one test of the waiting loop, and a release are
// each one atomic step, and steps of any number of threads interleave freely.
module TicketLock {

  // Where a thread is between its call to r_lock/w_lock and its release.
  // A thread that is in none of these phases is absent from the map below.
  datatype Phase =
    | ReaderWaiting(num: nat)
    | ReaderInside(num: nat)
    | WriterWaiting(num: nat)
    | WriterInside(num: nat)
  {
    predicate Writer() { WriterWaiting? || WriterInside? }
    predicate Inside() { ReaderInside? || WriterInside? }
  }

  datatype State = State(count: nat, line: nat, wWait: int, threads: map<nat, Phase>)

  datatype Event =
    | ReaderArrives(t: nat)
    | ReaderEnters(t: nat)
    | ReaderLeaves(t: nat)
    | WriterArrives(t: nat)
    | WriterEnters(t: nat)
    | WriterLeaves(t: nat)
    | Spins(t: nat)

  const INITIAL := State(0, 0, 0, map[])

  predicate ReaderMayEnter(s: State, num: nat) {
    s.wWait == 0 || (num == s.line && s.wWait == 0)
  }

  predicate WriterMayEnter(s: State, num: nat) {
    num == s.line && s.wWait >= 1
  }

  predicate Enabled(s: State, e: Event) {
    match e
    case ReaderArrives(t) => t !in s.threads
    case WriterArrives(t) => t !in s.threads
    case ReaderEnters(t) =>
      t in s.threads && s.threads[t].ReaderWaiting? && ReaderMayEnter(s, s.threads[t].num)
    case WriterEnters(t) =>
      t in s.threads && s.threads[t].WriterWaiting? && WriterMayEnter(s, s.threads[t].num)
    case ReaderLeaves(t) => t in s.threads && s.threads[t].ReaderInside?
    case WriterLeaves(t) => t in s.threads && s.threads[t].WriterInside?
    case Spins(t) =>
      t in s.threads
      && ((s.threads[t].ReaderWaiting? && !ReaderMayEnter(s, s.threads[t].num))
          || (s.threads[t].WriterWaiting? && !WriterMayEnter(s, s.threads[t].num)))
  }

  function Apply(s: State, e: Event): State
    requires Enabled(s, e)
  {
    match e
    case ReaderArrives(t) =>
      s.(count := s.count + 1, threads := s.threads[t := ReaderWaiting(s.count)])
    case WriterArrives(t) =>
      s.(count := s.count + 1, wWait := s.wWait + 1, threads := s.threads[t := WriterWaiting(s.count)])
    case ReaderEnters(t) => s.(threads := s.threads[t := ReaderInside(s.threads[t].num)])
    case WriterEnters(t) => s.(threads := s.threads[t := WriterInside(s.threads[t].num)])
    case ReaderLeaves(t) => s.(line := s.line + 1, threads := s.threads - {t})
    case WriterLeaves(t) => s.(line := s.line + 1, wWait := s.wWait - 1, threads := s.threads - {t})
    case Spins(t) => s
  }

  // ---------------------------------------------------------------- the code

  // The struct itself. `threads` records, for the proof, which calls are open.
  class RwLock {
    var count: nat
    var line: nat
    var wWait: int
    ghost var threads: map<nat, Phase>

    ghost function View(): State
      reads this
    {
      State(count, line, wWait, threads)
    }

    constructor ()
      ensures View() == INITIAL
    {
      count, line, wWait, threads := 0, 0, 0, map[];
    }

    // The ticket taken at the head of r_lock.
    method ReaderArrive(ghost t: nat) returns (num: nat)
      requires Enabled(View(), ReaderArrives(t))
      modifies this
      ensures View() == Apply(old(View()), ReaderArrives(t))
      ensures threads[t] == ReaderWaiting(num)
    {
      num := count;
      count := count + 1;
      threads := threads[t := ReaderWaiting(num)];
    }

    // One pass through the loop of r_lock: true when it breaks.
    method ReaderPoll(ghost t: nat, num: nat) returns (entered: bool)
      requires t in threads && threads[t] == ReaderWaiting(num)
      modifies this
      ensures entered == Enabled(old(View()), ReaderEnters(t))
      ensures View() == if entered then Apply(old(View()), ReaderEnters(t)) else old(View())
    {
      entered := false;
      if wWait == 0 {
        entered := true;
      } else if num == line && wWait == 0 {
        entered := true;
      }
      if entered {
        threads := threads[t := ReaderInside(num)];
      }
    }

    method ReaderUnlock(ghost t: nat)
      requires Enabled(View(), ReaderLeaves(t))
      modifies this
      ensures View() == Apply(old(View()), ReaderLeaves(t))
    {
      line := line + 1;
      threads := threads - {t};
    }

    // The ticket and the announcement at the head of w_lock, one atomic step.
    method WriterArrive(ghost t: nat) returns (num: nat)
      requires Enabled(View(), WriterArrives(t))
      modifies this
      ensures View() == Apply(old(View()), WriterArrives(t))
      ensures threads[t] == WriterWaiting(num)
    {
      num := count;
      count := count + 1;
      wWait := wWait + 1;
      threads := threads[t := WriterWaiting(num)];
    }

    // One pass through the loop of w_lock: true when it breaks.
    method WriterPoll(ghost t: nat, num: nat) returns (entered: bool)
      requires t in threads && threads[t] == WriterWaiting(num)
      modifies this
      ensures entered == Enabled(old(View()), WriterEnters(t))
      ensures View() == if entered then Apply(old(View()), WriterEnters(t)) else old(View())
    {
      entered := num == line && wWait >= 1;
      if entered {
        threads := threads[t := WriterInside(num)];
      }
    }

    method WriterUnlock(ghost t: nat)
      requires Enabled(View(), WriterLeaves(t))
      modifies this
      ensures View() == Apply(old(View()), WriterLeaves(t))
    {
      line := line + 1;
      wWait := wWait - 1;
      threads := threads - {t};
    }
  }

  // ----------------------------------------------------- counting the tickets

  ghost function Range(lo: int, hi: int): (r: set<int>)
    ensures forall k :: k in r <==> lo <= k < hi
    ensures lo <= hi ==> |r| == hi - lo
    decreases hi - lo
  {
    if lo >= hi then {} else Range(lo, hi - 1) + {hi - 1}
  }

  lemma {:induction false} SubsetSize<T>(a: set<T>, b: set<T>)
    requires a <= b
    ensures |a| <= |b|
    ensures |a| == |b| ==> a == b
  {
    assert b == a + (b - a);
    assert |b| == |a| + |b - a|;
  }

  // Tickets taken and not yet released, and the threads inside a writer call.
  ghost function Tickets(s: State): set<int> {
    set t | t in s.threads :: s.threads[t].num
  }

  ghost function Writers(s: State): set<nat> {
    set t | t in s.threads && s.threads[t].Writer()
  }

  // ---------------------------------------------------------- the invariant

  ghost predicate TicketsAreOwned(s: State) {
    && (forall t <- s.threads :: s.threads[t].num < s.count)
    && (forall t <- s.threads, u <- s.threads :: t != u ==> s.threads[t].num != s.threads[u].num)
  }

  // Nothing behind a writer has got in, let alone out.
  ghost predicate WriterHoldsBack(s: State, n: nat) {
    && Range(n, s.count) <= Tickets(s)
    && (forall t <- s.threads :: n < s.threads[t].num ==> !s.threads[t].Inside())
  }

  ghost predicate Inv(s: State) {
    && TicketsAreOwned(s)
    && s.line + |Tickets(s)| == s.count
    && s.wWait == |Writers(s)|
    && (forall w <- s.threads :: s.threads[w].Writer() ==> WriterHoldsBack(s, s.threads[w].num))
    && (forall w <- s.threads :: s.threads[w].WriterInside? ==> s.threads[w].num == s.line)
  }

  // The pigeonhole: `line` counts releases, so it never passes a live writer,
  // and when it reaches one the live tickets are exactly those from it on.
  lemma {:induction false} LineMeetsWriter(s: State, w: nat)
    requires Inv(s) && w in s.threads && s.threads[w].Writer()
    ensures s.line <= s.threads[w].num
    ensures s.line == s.threads[w].num ==> Tickets(s) == Range(s.line, s.count)
  {
    var n := s.threads[w].num;
    SubsetSize(Range(n, s.count), Tickets(s));
  }

  // What each step does to the two sets the invariant counts.
  lemma {:induction false} TicketsAfter(s: State, e: Event)
    requires TicketsAreOwned(s) && Enabled(s, e)
    ensures var s' := Apply(s, e);
      if e.ReaderArrives? || e.WriterArrives? then
        Tickets(s') == Tickets(s) + {s.count} && s.count !in Tickets(s)
      else if e.ReaderLeaves? || e.WriterLeaves? then
        Tickets(s') == Tickets(s) - {s.threads[e.t].num} && s.threads[e.t].num in Tickets(s)
      else
        Tickets(s') == Tickets(s)
  {
    var s' := Apply(s, e);
    forall k | k in Tickets(s) && !(e.t in s.threads && k == s.threads[e.t].num)
      ensures k in Tickets(s')
    {
      var u :| u in s.threads && s.threads[u].num == k;
      assert u in s'.threads && s'.threads[u].num == k;
    }
    if e.t in s'.threads {
      assert s'.threads[e.t].num in Tickets(s');
    }
  }

  lemma {:induction false} WritersAfter(s: State, e: Event)
    requires Enabled(s, e)
    ensures var s' := Apply(s, e);
      if e.WriterArrives? then Writers(s') == Writers(s) + {e.t} && e.t !in Writers(s)
      else if e.WriterLeaves? then Writers(s') == Writers(s) - {e.t} && e.t in Writers(s)
      else Writers(s') == Writers(s)
  {
  }

  lemma {:induction false} OwnedStep(s: State, e: Event)
    requires TicketsAreOwned(s) && Enabled(s, e)
    ensures TicketsAreOwned(Apply(s, e))
  {
    var s' := Apply(s, e);
    forall t <- s'.threads, u <- s'.threads | t != u
      ensures s'.threads[t].num != s'.threads[u].num
    {
      assert t != e.t ==> t in s.threads && s'.threads[t] == s.threads[t];
      assert u != e.t ==> u in s.threads && s'.threads[u] == s.threads[u];
    }
  }

  // While a writer is in its call, only calls with earlier tickets, or the
  // writer itself, can be inside; only such a call can leave.
  lemma {:induction false} OnlyEarlierTicketsAreInside(s: State, w: nat, t: nat)
    requires Inv(s) && w in s.threads && s.threads[w].Writer()
    requires t in s.threads && s.threads[t].Inside() && t != w
    ensures s.threads[t].num < s.threads[w].num
    ensures !s.threads[w].WriterInside?
  {
    LineMeetsWriter(s, w);
    assert s.threads[t].num in Tickets(s);
  }

  lemma {:induction false} BehindStaysOutside(s: State, e: Event, w: nat, t: nat)
    requires Inv(s) && Enabled(s, e)
    requires w in s.threads && s.threads[w].Writer()
    requires t in Apply(s, e).threads && s.threads[w].num < Apply(s, e).threads[t].num
    ensures !Apply(s, e).threads[t].Inside()
  {
    if t in s.threads && !s.threads[t].Inside() && t == e.t {
      LineMeetsWriter(s, w);
      assert w in Writers(s);
    }
  }

  lemma {:induction false} TicketsBehindStay(s: State, e: Event, w: nat)
    requires Inv(s) && Enabled(s, e)
    requires w in s.threads && s.threads[w].Writer() && w in Apply(s, e).threads
    ensures Range(s.threads[w].num, Apply(s, e).count) <= Tickets(Apply(s, e))
  {
    var s', n := Apply(s, e), s.threads[w].num;
    assert WriterHoldsBack(s, n);
    TicketsAfter(s, e);
    if e.ReaderLeaves? || e.WriterLeaves? {
      OnlyEarlierTicketsAreInside(s, w, e.t);
    } else {
      assert forall k :: k in Range(n, s'.count) ==> k == s.count || k in Range(n, s.count);
    }
  }

  // A writer keeps holding back the tickets behind it through any step that
  // leaves it in place.
  lemma {:induction false} HoldsBackStep(s: State, e: Event, w: nat)
    requires Inv(s) && Enabled(s, e)
    requires w in s.threads && s.threads[w].Writer() && w in Apply(s, e).threads
    ensures WriterHoldsBack(Apply(s, e), s.threads[w].num)
  {
    var s' := Apply(s, e);
    var n := s.threads[w].num;
    TicketsBehindStay(s, e, w);
    forall t <- s'.threads | n < s'.threads[t].num
      ensures !s'.threads[t].Inside()
    {
      BehindStaysOutside(s, e, w, t);
    }
  }

  lemma {:induction false} WriterInsideStaysAtLine(s: State, e: Event, w: nat)
    requires Inv(s) && Enabled(s, e)
    requires w in Apply(s, e).threads && Apply(s, e).threads[w].WriterInside?
    ensures Apply(s, e).threads[w].num == Apply(s, e).line
  {
    if w == e.t {
      assert e.WriterEnters?;
    } else {
      assert s.threads[w] == Apply(s, e).threads[w];
      if e.ReaderLeaves? || e.WriterLeaves? {
        OnlyEarlierTicketsAreInside(s, w, e.t);
      }
    }
  }

  lemma {:induction false} NewWriterHoldsBack(s: State, e: Event)
    requires Inv(s) && Enabled(s, e) && e.WriterArrives?
    ensures WriterHoldsBack(Apply(s, e), s.count)
  {
    TicketsAfter(s, e);
    forall k | k in Range(s.count, s.count + 1)
      ensures k in Tickets(Apply(s, e))
    {
    }
  }

  lemma {:induction false} CountersStep(s: State, e: Event)
    requires Inv(s) && Enabled(s, e)
    ensures Apply(s, e).line + |Tickets(Apply(s, e))| == Apply(s, e).count
    ensures Apply(s, e).wWait == |Writers(Apply(s, e))|
  {
    TicketsAfter(s, e);
    WritersAfter(s, e);
  }

  lemma {:induction false} InvStep(s: State, e: Event)
    requires Inv(s) && Enabled(s, e)
    ensures Inv(Apply(s, e))
  {
    var s' := Apply(s, e);
    CountersStep(s, e);
    OwnedStep(s, e);
    forall w <- s'.threads | s'.threads[w].Writer()
      ensures WriterHoldsBack(s', s'.threads[w].num)
    {
      if w in s.threads {
        HoldsBackStep(s, e, w);
      } else {
        NewWriterHoldsBack(s, e);
      }
    }
    forall w <- s'.threads | s'.threads[w].WriterInside?
      ensures s'.threads[w].num == s'.line
    {
      WriterInsideStaysAtLine(s, e, w);
    }
  }

  // --------------------------------------------------------- claims over runs

  // run[0], es[0], run[1], es[1], ... , run[|es|]
  ghost predicate IsRun(run: seq<State>, es: seq<Event>) {
    && |run| == |es| + 1
    && run[0] == INITIAL
    && forall i :: 0 <= i < |es| ==> Follows(run, es, i)
  }

  ghost predicate Follows(run: seq<State>, es: seq<Event>, i: nat)
    requires i < |es| < |run|
  {
    Enabled(run[i], es[i]) && run[i + 1] == Apply(run[i], es[i])
  }

  lemma {:induction false} InvAlongRun(run: seq<State>, es: seq<Event>, i: nat)
    requires IsRun(run, es) && i < |run|
    ensures Inv(run[i])
  {
    if i == 0 {
      assert Tickets(INITIAL) == {} && Writers(INITIAL) == {};
    } else {
      InvAlongRun(run, es, i - 1);
      assert Follows(run, es, i - 1);
      InvStep(run[i - 1], es[i - 1]);
    }
  }

  // A writer inside excludes every other reader and writer, in every run.
  lemma {:induction false} WriterExcludesAll(run: seq<State>, es: seq<Event>, i: nat, w: nat, t: nat)
    requires IsRun(run, es) && i < |run|
    requires w in run[i].threads && run[i].threads[w].WriterInside?
    requires t in run[i].threads && t != w
    ensures !run[i].threads[t].Inside()
  {
    InvAlongRun(run, es, i);
    LineMeetsWriter(run[i], w);
    assert run[i].threads[t].num in Tickets(run[i]);
  }

  // When `line` reaches a writer's ticket, what has been released is 0..num-1.
  lemma {:induction false} ReleasedTicketsAreExactlyTheEarlierOnes(run: seq<State>, es: seq<Event>, i: nat, w: nat)
    requires IsRun(run, es) && i < |run|
    requires w in run[i].threads && run[i].threads[w].Writer() && run[i].threads[w].num == run[i].line
    ensures Range(0, run[i].count) - Tickets(run[i]) == Range(0, run[i].line)
  {
    InvAlongRun(run, es, i);
    LineMeetsWriter(run[i], w);
    assert run[i].line <= run[i].count;
  }

  // What the tests of the two loops come to. A reader goes in exactly when no
  // writer is in its call; a writer goes in exactly when everybody else in a
  // call has a later ticket.
  lemma {:induction false} ReaderGoesInExactlyWhenNoWriter(run: seq<State>, es: seq<Event>, i: nat, t: nat)
    requires IsRun(run, es) && i < |run| && t in run[i].threads && run[i].threads[t].ReaderWaiting?
    ensures Enabled(run[i], ReaderEnters(t)) <==>
      forall w <- run[i].threads :: !run[i].threads[w].WriterWaiting? && !run[i].threads[w].WriterInside?
  {
    InvAlongRun(run, es, i);
    var s := run[i];
    forall w <- s.threads
      ensures w in Writers(s) <==> s.threads[w].WriterWaiting? || s.threads[w].WriterInside?
    {
    }
    if s.wWait != 0 {
      var w :| w in Writers(s);
    }
  }

  lemma {:induction false} WriterGoesInExactlyWhenFirst(run: seq<State>, es: seq<Event>, i: nat, t: nat)
    requires IsRun(run, es) && i < |run| && t in run[i].threads && run[i].threads[t].WriterWaiting?
    ensures Enabled(run[i], WriterEnters(t)) <==>
      forall u <- run[i].threads :: u != t ==> run[i].threads[u].num > run[i].threads[t].num
  {
    InvAlongRun(run, es, i);
    var s, n := run[i], run[i].threads[t].num;
    LineMeetsWriter(s, t);
    assert t in Writers(s);
    if s.line == n {
      forall u <- s.threads | u != t
        ensures s.threads[u].num > n
      {
        assert s.threads[u].num in Tickets(s);
      }
    } else if forall u <- s.threads :: u != t ==> s.threads[u].num > n {
      assert Tickets(s) <= Range(n, s.count);
      SubsetSize(Tickets(s), Range(n, s.count));
    }
  }

  // The counter of tickets only grows, and a thread's phase changes only by
  // its own events: these carry a writer forward until it leaves.
  lemma {:induction false} CountGrows(run: seq<State>, es: seq<Event>, i: nat, j: nat)
    requires IsRun(run, es) && i <= j < |run|
    ensures run[i].count <= run[j].count
    decreases j
  {
    if i < j {
      CountGrows(run, es, i, j - 1);
      assert Follows(run, es, j - 1);
    }
  }

  ghost predicate WriterAt(s: State, w: nat, n: nat) {
    w in s.threads && s.threads[w].Writer() && s.threads[w].num == n
  }

  lemma {:induction false} WriterStaysUntilItLeaves(run: seq<State>, es: seq<Event>, i: nat, j: nat, w: nat, n: nat)
    requires IsRun(run, es) && i <= j < |run|
    requires WriterAt(run[i], w, n)
    requires forall k :: i <= k < j ==> es[k] != WriterLeaves(w)
    ensures WriterAt(run[j], w, n)
    decreases j
  {
    if i < j {
      WriterStaysUntilItLeaves(run, es, i, j - 1, w, n);
      assert Follows(run, es, j - 1);
    }
  }

  // Whoever takes a ticket after writer w is inside only after w has left:
  // for a writer u this is ticket order among writers, for a reader u it is
  // the promise that readers arriving behind a waiting writer wait for it.
  lemma {:induction false} LaterTicketEntersOnlyAfterWriterLeft(
      run: seq<State>, es: seq<Event>, i: nat, j: nat, w: nat, n: nat, u: nat)
    requires IsRun(run, es) && i <= j < |run|
    requires WriterAt(run[i], w, n)
    requires u in run[j].threads && run[j].threads[u].Inside() && run[j].threads[u].num > n
    ensures exists k :: i <= k < j && es[k] == WriterLeaves(w)
  {
    if forall k :: i <= k < j ==> es[k] != WriterLeaves(w) {
      WriterStaysUntilItLeaves(run, es, i, j, w, n);
      InvAlongRun(run, es, j);
      assert false;
    }
  }

  // A ticket taken while a writer is in its call is above that writer's.
  lemma {:induction false} ArrivalBehindWriterGetsLaterTicket(run: seq<State>, es: seq<Event>, i: nat, w: nat, n: nat)
    requires IsRun(run, es) && i < |es|
    requires WriterAt(run[i], w, n)
    requires es[i].ReaderArrives? || es[i].WriterArrives?
    ensures es[i].t in run[i + 1].threads && run[i + 1].threads[es[i].t].num > n
  {
    InvAlongRun(run, es, i);
    assert Follows(run, es, i);
  }

  // ------------------------------------------------------------- the deadlock

  // Nobody can go on: all open calls are waiting and no test succeeds.
  ghost predicate Stuck(s: State) {
    && s.threads != map[]
    && (forall t <- s.threads :: Enabled(s, Spins(t)))
  }

  // A reader waits although every writer in the lock has a later ticket.
  ghost predicate OvertakenReader(s: State) {
    exists r <- s.threads ::
      s.threads[r].ReaderWaiting?
      && forall w <- s.threads :: s.threads[w].Writer() ==> s.threads[r].num < s.threads[w].num
  }

  lemma {:induction false} LeastTicket(s: State, ws: set<nat>) returns (w: nat)
    requires ws != {} && ws <= s.threads.Keys
    ensures w in ws && forall u <- ws :: s.threads[w].num <= s.threads[u].num
    decreases ws
  {
    var v :| v in ws;
    if ws == {v} {
      w := v;
    } else {
      w := LeastTicket(s, ws - {v});
      if s.threads[v].num < s.threads[w].num {
        w := v;
      }
    }
  }

  lemma {:induction false} StuckHasOvertakenReader(s: State)
    requires Inv(s) && Stuck(s)
    ensures Writers(s) != {} && OvertakenReader(s)
  {
    assert s.wWait != 0 by {
      var t :| t in s.threads;
      assert Enabled(s, Spins(t));
      assert s.threads[t].Writer() ==> t in Writers(s);
    }
    var w := LeastTicket(s, Writers(s));
    var n := s.threads[w].num;
    assert Enabled(s, Spins(w));
    LineMeetsWriter(s, w);
    if Tickets(s) <= Range(n, s.count) {
      SubsetSize(Tickets(s), Range(n, s.count));
      assert false;
    }
    var k :| k in Tickets(s) && k !in Range(n, s.count);
    var r :| r in s.threads && s.threads[r].num == k;
    assert Enabled(s, Spins(r));
    assert r !in Writers(s);
    forall w' <- s.threads | s.threads[w'].Writer()
      ensures s.threads[r].num < s.threads[w'].num
    {
      assert w' in Writers(s);
    }
  }

  lemma {:induction false} OvertakenReaderIsStuck(s: State)
    requires Inv(s) && (forall t <- s.threads :: !s.threads[t].Inside())
    requires Writers(s) != {} && OvertakenReader(s)
    ensures Stuck(s)
  {
    var r :| r in s.threads && s.threads[r].ReaderWaiting?
      && forall w <- s.threads :: s.threads[w].Writer() ==> s.threads[r].num < s.threads[w].num;
    assert s.threads[r].num in Tickets(s);
    forall t <- s.threads
      ensures Enabled(s, Spins(t))
    {
      assert !s.threads[t].Inside();
      if s.threads[t].Writer() {
        LineMeetsWriter(s, t);
      }
    }
  }

  // The lock deadlocks exactly when nobody is inside, some writer waits, and
  // some reader took its ticket before every waiting writer: the writer waits
  // for the reader's release and the reader for the writer's.
  lemma {:induction false} StuckExactlyWhenReaderIsOvertaken(run: seq<State>, es: seq<Event>, i: nat)
    requires IsRun(run, es) && i < |run|
    ensures Stuck(run[i]) <==>
      && (forall t <- run[i].threads :: !run[i].threads[t].Inside())
      && Writers(run[i]) != {}
      && OvertakenReader(run[i])
  {
    var s := run[i];
    InvAlongRun(run, es, i);
    if Stuck(s) {
      StuckHasOvertakenReader(s);
      forall t <- s.threads ensures !s.threads[t].Inside() {
        assert Enabled(s, Spins(t));
      }
    } else if (forall t <- s.threads :: !s.threads[t].Inside()) && Writers(s) != {} && OvertakenReader(s) {
      OvertakenReaderIsStuck(s);
    }
  }

  lemma {:induction false} StuckStep(s: State, e: Event)
    requires Inv(s) && Stuck(s) && Enabled(s, e)
    ensures Stuck(Apply(s, e))
  {
    var s' := Apply(s, e);
    StuckHasOvertakenReader(s);
    if e.t in s.threads {
      assert Enabled(s, Spins(e.t));
    } else {
      assert s.wWait >= 1;
      forall t <- s'.threads
        ensures Enabled(s', Spins(t))
      {
        if t != e.t {
          assert Enabled(s, Spins(t));
          assert s'.threads[t] == s.threads[t];
        } else if e.WriterArrives? {
          assert s.line < s.count by {
            var r :| r in s.threads;
            assert s.threads[r].num in Tickets(s);
          }
        }
      }
    }
  }

  lemma {:induction false} StuckInRun(run: seq<State>, es: seq<Event>, i: nat)
    requires IsRun(run, es) && i < |es| && Stuck(run[i])
    ensures Stuck(run[i + 1])
  {
    InvAlongRun(run, es, i);
    assert Follows(run, es, i);
    StuckStep(run[i], es[i]);
  }

  // Once stuck, the lock stays stuck: later arrivals only join the queue.
  lemma {:induction false} StuckForever(run: seq<State>, es: seq<Event>, i: nat, j: nat)
    requires IsRun(run, es) && i <= j < |run|
    requires Stuck(run[i])
    ensures Stuck(run[j])
    decreases j
  {
    if i < j {
      StuckForever(run, es, i, j - 1);
      StuckInRun(run, es, j - 1);
    }
  }

  // It does happen, with two threads: the writer arrives between the reader's
  // ticket and the reader's first look at w_wait.
  lemma {:induction false} StuckIsReachable() returns (run: seq<State>, es: seq<Event>)
    ensures IsRun(run, es) && Stuck(run[|es|])
  {
    es := [ReaderArrives(0), WriterArrives(1)];
    var s1 := Apply(INITIAL, es[0]);
    var s2 := Apply(s1, es[1]);
    run := [INITIAL, s1, s2];
    assert Enabled(s2, Spins(0)) && Enabled(s2, Spins(1));
  }
}
