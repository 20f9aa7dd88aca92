// The same lock with every update of a shared counter a step of its own: a
// writer takes its ticket and announces itself in two steps, and releases in
// two. An increment or decrement is still atomic, and so is one loop test.
module TicketSplit {
  import opened TicketLock

  // pending: writers with a ticket who have not announced themselves yet.
  // leaving: writers past line++ who have not taken their announcement back.
  datatype Split = Split(count: nat, line: nat, wWait: int, threads: map<nat, Phase>,
                         pending: set<nat>, leaving: set<nat>)

  datatype Step =
    | Same(e: Event)
    | TakeTicket(t: nat)
    | Announce(t: nat)
    | Release(t: nat)
    | Withdraw(t: nat)

  const SPLIT_INITIAL := Split(0, 0, 0, map[], {}, {})

  // The state as the coarser lock sees it: announced with the ticket, gone
  // with the release.
  function Coarse(s: Split): State {
    State(s.count, s.line, s.wWait + |s.pending| - |s.leaving|, s.threads)
  }

  predicate CanStep(s: Split, x: Step) {
    match x
    case Same(ReaderArrives(t)) => t !in s.threads && t !in s.leaving
    case Same(ReaderEnters(t)) => t in s.threads && s.threads[t].ReaderWaiting? && s.wWait == 0
    case Same(WriterEnters(t)) =>
      t in s.threads && t !in s.pending && s.threads[t].WriterWaiting? && s.threads[t].num == s.line && s.wWait >= 1
    case Same(ReaderLeaves(t)) => t in s.threads && s.threads[t].ReaderInside?
    case Same(_) => false
    case TakeTicket(t) => t !in s.threads && t !in s.leaving
    case Announce(t) => t in s.pending
    case Release(t) => t in s.threads && s.threads[t].WriterInside?
    case Withdraw(t) => t in s.leaving
  }

  function Do(s: Split, x: Step): Split
    requires CanStep(s, x)
  {
    match x
    case Same(ReaderArrives(t)) => s.(count := s.count + 1, threads := s.threads[t := ReaderWaiting(s.count)])
    case Same(ReaderEnters(t)) => s.(threads := s.threads[t := ReaderInside(s.threads[t].num)])
    case Same(WriterEnters(t)) => s.(threads := s.threads[t := WriterInside(s.threads[t].num)])
    case Same(ReaderLeaves(t)) => s.(line := s.line + 1, threads := s.threads - {t})
    case TakeTicket(t) =>
      s.(count := s.count + 1, threads := s.threads[t := WriterWaiting(s.count)], pending := s.pending + {t})
    case Announce(t) => s.(wWait := s.wWait + 1, pending := s.pending - {t})
    case Release(t) => s.(line := s.line + 1, threads := s.threads - {t}, leaving := s.leaving + {t})
    case Withdraw(t) => s.(wWait := s.wWait - 1, leaving := s.leaving - {t})
  }

  // A reader goes in past a writer that holds an earlier ticket but has not
  // announced itself.
  ghost predicate Overtakes(s: Split, x: Step) {
    x.Same? && x.e.ReaderEnters? && x.e.t in s.threads
    && exists w <- s.pending :: w in s.threads && s.threads[w].num < s.threads[x.e.t].num
  }

  ghost predicate Tidy(s: Split) {
    && (forall w <- s.pending :: w in s.threads && s.threads[w].WriterWaiting?)
    && (forall w <- s.leaving :: w !in s.threads)
  }

  lemma {:induction false} TidyStep(s: Split, x: Step)
    requires Tidy(s) && CanStep(s, x)
    ensures Tidy(Do(s, x))
  {
  }

  // What the step is for the coarser lock, if it is anything at all.
  function CoarseEvent(x: Step): Event {
    match x
    case Same(e) => e
    case TakeTicket(t) => WriterArrives(t)
    case Release(t) => WriterLeaves(t)
    case Announce(t) => Spins(t)
    case Withdraw(t) => Spins(t)
  }

  lemma {:induction false} ArrivalRefines(s: Split, x: Step)
    requires Tidy(s) && CanStep(s, x) && (x.TakeTicket? || (x.Same? && x.e.ReaderArrives?))
    ensures Enabled(Coarse(s), CoarseEvent(x)) && Coarse(Do(s, x)) == Apply(Coarse(s), CoarseEvent(x))
  {
    if x.TakeTicket? {
      assert x.t !in s.pending;
    }
  }

  lemma {:induction false} ReleaseRefines(s: Split, x: Step)
    requires Tidy(s) && CanStep(s, x) && (x.Release? || (x.Same? && x.e.ReaderLeaves?))
    ensures Enabled(Coarse(s), CoarseEvent(x)) && Coarse(Do(s, x)) == Apply(Coarse(s), CoarseEvent(x))
  {
    if x.Release? {
      assert x.t !in s.leaving;
    }
  }

  lemma {:induction false} WriterEntryRefines(s: Split, t: nat)
    requires Coarse(s).wWait == |Writers(Coarse(s))| && CanStep(s, Same(WriterEnters(t)))
    ensures Enabled(Coarse(s), WriterEnters(t)) && Coarse(Do(s, Same(WriterEnters(t)))) == Apply(Coarse(s), WriterEnters(t))
  {
    assert t in Writers(Coarse(s));
  }

  lemma {:induction false} CounterStepIsNothing(s: Split, x: Step)
    requires CanStep(s, x) && (x.Announce? || x.Withdraw?)
    ensures Coarse(Do(s, x)) == Coarse(s)
  {
  }

  // A reader finds w_wait at 0 only when all writers are still pending.
  lemma {:induction false} AllPending(s: Split)
    requires Inv(Coarse(s)) && Tidy(s) && s.wWait == 0
    ensures Writers(Coarse(s)) == s.pending
  {
    assert s.pending <= Writers(Coarse(s));
    SubsetSize(s.pending, Writers(Coarse(s)));
  }

  lemma {:induction false} SameSets(a: State, t: nat)
    requires t in a.threads && a.threads[t].ReaderWaiting?
    ensures var a' := a.(threads := a.threads[t := ReaderInside(a.threads[t].num)]);
      Tickets(a') == Tickets(a) && Writers(a') == Writers(a) && (TicketsAreOwned(a) ==> TicketsAreOwned(a'))
  {
    var a' := a.(threads := a.threads[t := ReaderInside(a.threads[t].num)]);
    forall k | k in Tickets(a)
      ensures k in Tickets(a')
    {
      var u :| u in a.threads && a.threads[u].num == k;
      assert u in a'.threads && a'.threads[u].num == k;
    }
  }

  lemma {:induction false} StillHeldBack(a: State, a': State, t: nat, n: nat)
    requires WriterHoldsBack(a, n) && Tickets(a') == Tickets(a) && a'.count == a.count
    requires t in a.threads && a'.threads == a.threads[t := ReaderInside(a.threads[t].num)] && a.threads[t].num <= n
    ensures WriterHoldsBack(a', n)
  {
    forall u <- a'.threads | n < a'.threads[u].num
      ensures !a'.threads[u].Inside()
    {
      assert u != t && a'.threads[u] == a.threads[u];
    }
  }

  // Letting a reader in does no harm if it came before all writers.
  lemma {:induction false} EarliestReaderKeepsInv(a: State, a': State, t: nat)
    requires Inv(a) && t in a.threads && a.threads[t].ReaderWaiting?
    requires forall w <- Writers(a) :: !a.threads[w].WriterInside? && a.threads[t].num <= a.threads[w].num
    requires a' == a.(threads := a.threads[t := ReaderInside(a.threads[t].num)])
    ensures Inv(a')
  {
    SameSets(a, t);
    forall w <- a'.threads | a'.threads[w].Writer()
      ensures WriterHoldsBack(a', a'.threads[w].num) && !a'.threads[w].WriterInside?
    {
      assert w in Writers(a) && a'.threads[w] == a.threads[w];
      StillHeldBack(a, a', t, a.threads[w].num);
    }
  }

  lemma {:induction false} ReaderEntryKeepsInv(s: Split, t: nat)
    requires Inv(Coarse(s)) && Tidy(s)
    requires CanStep(s, Same(ReaderEnters(t))) && !Overtakes(s, Same(ReaderEnters(t)))
    ensures Inv(Coarse(Do(s, Same(ReaderEnters(t)))))
  {
    AllPending(s);
    forall w <- Writers(Coarse(s))
      ensures !s.threads[w].WriterInside? && s.threads[t].num <= s.threads[w].num
    {
      assert w in s.pending;
    }
    EarliestReaderKeepsInv(Coarse(s), Coarse(Do(s, Same(ReaderEnters(t)))), t);
  }

  lemma {:induction false} QuietStepKeepsInv(s: Split, x: Step)
    requires Inv(Coarse(s)) && Tidy(s) && CanStep(s, x) && !Overtakes(s, x)
    ensures Inv(Coarse(Do(s, x)))
  {
    if x.Same? && x.e.ReaderEnters? {
      ReaderEntryKeepsInv(s, x.e.t);
    } else if x.Announce? || x.Withdraw? {
      CounterStepIsNothing(s, x);
    } else {
      if x.TakeTicket? || (x.Same? && x.e.ReaderArrives?) {
        ArrivalRefines(s, x);
      } else if x.Release? || x.e.ReaderLeaves? {
        ReleaseRefines(s, x);
      } else {
        WriterEntryRefines(s, x.e.t);
      }
      InvStep(Coarse(s), CoarseEvent(x));
    }
  }

  lemma {:induction false} OvertakingLosesInv(s: Split, x: Step)
    requires Tidy(s) && CanStep(s, x) && Overtakes(s, x)
    ensures !Inv(Coarse(Do(s, x)))
  {
    var s', t := Coarse(Do(s, x)), x.e.t;
    var w :| w in s.pending && w in s.threads && s.threads[w].num < s.threads[t].num;
    assert s'.threads[w] == s.threads[w] && s'.threads[w].Writer();
    assert s'.threads[t] == ReaderInside(s.threads[t].num);
    assert !WriterHoldsBack(s', s'.threads[w].num);
  }

  // What the coarser lock keeps is kept by every step but an overtaking one.
  lemma {:induction false} SplitStepKeepsInvExactlyWhen(s: Split, x: Step)
    requires Inv(Coarse(s)) && Tidy(s) && CanStep(s, x)
    ensures Inv(Coarse(Do(s, x))) <==> !Overtakes(s, x)
  {
    if Overtakes(s, x) {
      OvertakingLosesInv(s, x);
    } else {
      QuietStepKeepsInv(s, x);
    }
  }

  // ------------------------------------------- what follows an overtaking

  // A writer inside is alone.
  ghost predicate Exclusive(s: Split) {
    forall w <- s.threads, t <- s.threads :: s.threads[w].WriterInside? && t != w ==> !s.threads[t].Inside()
  }

  lemma {:induction false} InvIsExclusive(s: Split)
    requires Inv(Coarse(s))
    ensures Exclusive(s)
  {
    forall w <- s.threads, t <- s.threads | s.threads[w].WriterInside? && t != w
      ensures !s.threads[t].Inside()
    {
      LineMeetsWriter(Coarse(s), w);
      assert s.threads[t].num in Tickets(Coarse(s));
    }
  }

  // The steps xs, none of them overtaking, lead from s to s'.
  ghost predicate Leads(s: Split, xs: seq<Step>, s': Split)
    decreases |xs|
  {
    if xs == [] then s == s'
    else CanStep(s, xs[0]) && !Overtakes(s, xs[0]) && Leads(Do(s, xs[0]), xs[1..], s')
  }

  lemma {:induction false} InvAlongSteps(s: Split, xs: seq<Step>, s': Split)
    requires Inv(Coarse(s)) && Tidy(s) && Leads(s, xs, s')
    ensures Inv(Coarse(s'))
    decreases |xs|
  {
    if xs != [] {
      QuietStepKeepsInv(s, xs[0]);
      TidyStep(s, xs[0]);
      InvAlongSteps(Do(s, xs[0]), xs[1..], s');
    }
  }

  // The live tickets before n.
  ghost function Before(s: Split, n: nat): set<int> {
    set t | t in s.threads && s.threads[t].num < n :: s.threads[t].num
  }

  // Reader t is inside past writer w, the first of the writers, which has
  // ticket n and has not announced itself; the readers before it are as many
  // as the releases that it has to wait for.
  ghost predicate Trap(s: Split, w: nat, t: nat, n: nat) {
    && TicketsAreOwned(Coarse(s)) && s.wWait == 0 && s.line + |Before(s, n)| == n
    && w in s.pending && w in s.threads && s.threads[w] == WriterWaiting(n)
    && t in s.threads && s.threads[t].ReaderInside? && n < s.threads[t].num
    && (forall u <- s.threads :: s.threads[u].num < n ==> !s.threads[u].Writer())
    && (forall p <- s.pending :: p in s.threads ==> n <= s.threads[p].num)
  }

  // Steps of threads that are in the lock in s.
  ghost predicate Locals(s: Split, xs: seq<Step>) {
    forall i :: 0 <= i < |xs| ==> Actor(xs[i]) in s.threads
  }

  function Actor(x: Step): nat { if x.Same? then x.e.t else x.t }

  lemma {:induction false} LocalsBefore(s: Split, s1: Split, ys: seq<Step>)
    requires Locals(s1, ys) && s1.threads.Keys <= s.threads.Keys
    ensures Locals(s, ys)
  {
    forall i | 0 <= i < |ys|
      ensures Actor(ys[i]) in s.threads
    {
      assert Actor(ys[i]) in s1.threads.Keys;
    }
  }

  lemma {:induction false} LocalsConcat(s: Split, xs: seq<Step>, s1: Split, ys: seq<Step>)
    requires Locals(s, xs) && Locals(s1, ys) && s1.threads.Keys <= s.threads.Keys
    ensures Locals(s, xs + ys)
  {
    LocalsBefore(s, s1, ys);
  }

  lemma {:induction false} TicketSplits(s: Split, n: nat)
    requires TicketsAreOwned(Coarse(s)) && n <= s.count && Range(n, s.count) <= Tickets(Coarse(s))
    ensures |Tickets(Coarse(s))| == |Before(s, n)| + s.count - n
  {
    assert Tickets(Coarse(s)) == Before(s, n) + Range(n, s.count);
    assert Before(s, n) !! Range(n, s.count);
  }

  lemma {:induction false} BeforeMoved(s: Split, s': Split, n: nat, u: nat)
    requires u in s.threads && u in s'.threads && s'.threads == s.threads[u := s'.threads[u]]
    requires s'.threads[u].num == s.threads[u].num
    ensures Before(s', n) == Before(s, n)
  {
    forall k | k in Before(s, n)
      ensures k in Before(s', n)
    {
      var v :| v in s.threads && s.threads[v].num == k;
      assert v in s'.threads && s'.threads[v].num == k;
    }
  }

  lemma {:induction false} BeforeLeft(s: Split, s': Split, n: nat, u: nat)
    requires TicketsAreOwned(Coarse(s)) && u in s.threads && s.threads[u].num < n && s'.threads == s.threads - {u}
    ensures s.threads[u].num in Before(s, n) && Before(s', n) == Before(s, n) - {s.threads[u].num}
  {
    forall k | k in Before(s, n) && k != s.threads[u].num
      ensures k in Before(s', n)
    {
      var v :| v in s.threads && s.threads[v].num == k;
      assert v in s'.threads && s'.threads[v].num == k;
    }
  }

  // The first of the writers when a reader finds none announced.
  lemma {:induction false} FirstPending(s: Split) returns (w: nat, n: nat)
    requires Inv(Coarse(s)) && Tidy(s) && s.wWait == 0 && s.pending != {}
    ensures w in s.pending && w in s.threads && s.threads[w] == WriterWaiting(n)
    ensures forall u <- s.threads :: s.threads[u].num < n ==> !s.threads[u].Writer()
    ensures forall p <- s.pending :: p in s.threads ==> n <= s.threads[p].num
    ensures s.line + |Before(s, n)| == n
  {
    AllPending(s);
    w := LeastTicket(Coarse(s), s.pending);
    n := s.threads[w].num;
    TicketSplits(s, n);
    assert forall u <- s.threads :: s.threads[u].Writer() ==> u in Writers(Coarse(s));
  }

  lemma {:induction false} TrapSet(s: Split, w: nat, t: nat, n: nat)
    requires TicketsAreOwned(Coarse(s)) && CanStep(s, Same(ReaderEnters(t))) && n < s.threads[t].num
    requires w in s.pending && w in s.threads && s.threads[w] == WriterWaiting(n)
    requires forall u <- s.threads :: s.threads[u].num < n ==> !s.threads[u].Writer()
    requires forall p <- s.pending :: p in s.threads ==> n <= s.threads[p].num
    requires s.line + |Before(s, n)| == n
    ensures Trap(Do(s, Same(ReaderEnters(t))), w, t, n)
  {
    var s' := Do(s, Same(ReaderEnters(t)));
    SameSets(Coarse(s), t);
    BeforeMoved(s, s', n, t);
    forall u <- s'.threads | s'.threads[u].num < n
      ensures !s'.threads[u].Writer()
    {
      assert u != t && s'.threads[u] == s.threads[u];
    }
  }

  lemma {:induction false} OvertakingSetsTrap(s: Split, x: Step) returns (w: nat, n: nat)
    requires Inv(Coarse(s)) && Tidy(s) && CanStep(s, x) && Overtakes(s, x)
    ensures Trap(Do(s, x), w, x.e.t, n)
  {
    w, n := FirstPending(s);
    TrapSet(s, w, x.e.t, n);
  }

  // A reader before the writer can always go in ...
  lemma {:induction false} TrapEnter(s: Split, w: nat, t: nat, n: nat, u: nat)
    requires Trap(s, w, t, n) && u in s.threads && s.threads[u].num < n && s.threads[u].ReaderWaiting?
    ensures CanStep(s, Same(ReaderEnters(u))) && !Overtakes(s, Same(ReaderEnters(u)))
    ensures var s' := Do(s, Same(ReaderEnters(u)));
      Trap(s', w, t, n) && Before(s', n) == Before(s, n) && s'.threads[u] == ReaderInside(s.threads[u].num)
  {
    var s' := Do(s, Same(ReaderEnters(u)));
    SameSets(Coarse(s), u);
    BeforeMoved(s, s', n, u);
    forall v <- s'.threads | s'.threads[v].num < n
      ensures !s'.threads[v].Writer()
    {
      assert v != u ==> s'.threads[v] == s.threads[v];
    }
  }

  // ... and out.
  lemma {:induction false} TrapLeave(s: Split, w: nat, t: nat, n: nat, u: nat)
    requires Trap(s, w, t, n) && u in s.threads && s.threads[u].num < n && s.threads[u].ReaderInside?
    ensures CanStep(s, Same(ReaderLeaves(u)))
    ensures var s' := Do(s, Same(ReaderLeaves(u)));
      Trap(s', w, t, n) && Before(s', n) == Before(s, n) - {s.threads[u].num} && s.threads[u].num in Before(s, n)
  {
    BeforeLeft(s, Do(s, Same(ReaderLeaves(u))), n, u);
  }

  lemma {:induction false} LeadsConcat(s: Split, xs: seq<Step>, mid: Split, ys: seq<Step>, s': Split)
    requires Leads(s, xs, mid) && Leads(mid, ys, s')
    ensures Leads(s, xs + ys, s')
    decreases |xs|
  {
    if xs == [] {
      assert xs + ys == ys;
    } else {
      LeadsConcat(Do(s, xs[0]), xs[1..], mid, ys, s');
      assert (xs + ys)[1..] == xs[1..] + ys;
    }
  }

  lemma {:induction false} LeadsOne(s: Split, x: Step)
    requires CanStep(s, x) && !Overtakes(s, x)
    ensures Leads(s, [x], Do(s, x))
  {
    assert [x][1..] == [];
  }

  lemma {:induction false} TrapInside(s: Split, w: nat, t: nat, n: nat, u: nat) returns (xs: seq<Step>, s': Split)
    requires Trap(s, w, t, n) && u in s.threads && s.threads[u].num < n
    ensures Leads(s, xs, s') && Locals(s, xs) && Trap(s', w, t, n)
    ensures s'.threads.Keys == s.threads.Keys && Before(s', n) == Before(s, n)
    ensures s'.threads[u] == ReaderInside(s.threads[u].num)
  {
    if s.threads[u].ReaderWaiting? {
      TrapEnter(s, w, t, n, u);
      LeadsOne(s, Same(ReaderEnters(u)));
      xs, s' := [Same(ReaderEnters(u))], Do(s, Same(ReaderEnters(u)));
    } else {
      xs, s' := [], s;
    }
  }

  lemma {:induction false} TrapOutside(s: Split, w: nat, t: nat, n: nat, u: nat) returns (xs: seq<Step>, s': Split)
    requires Trap(s, w, t, n) && u in s.threads && s.threads[u].num < n && s.threads[u].ReaderInside?
    ensures Leads(s, xs, s') && Locals(s, xs) && Trap(s', w, t, n)
    ensures s'.threads.Keys <= s.threads.Keys && s.threads[u].num in Before(s, n)
    ensures Before(s', n) == Before(s, n) - {s.threads[u].num}
  {
    TrapLeave(s, w, t, n, u);
    LeadsOne(s, Same(ReaderLeaves(u)));
    xs, s' := [Same(ReaderLeaves(u))], Do(s, Same(ReaderLeaves(u)));
  }

  lemma {:induction false} TrapThrough(s: Split, w: nat, t: nat, n: nat, u: nat) returns (xs: seq<Step>, s': Split)
    requires Trap(s, w, t, n) && u in s.threads && s.threads[u].num < n
    ensures Leads(s, xs, s') && Locals(s, xs) && Trap(s', w, t, n)
    ensures s'.threads.Keys <= s.threads.Keys && s.threads[u].num in Before(s, n)
    ensures Before(s', n) == Before(s, n) - {s.threads[u].num}
  {
    var first, s1 := TrapInside(s, w, t, n, u);
    var second;
    second, s' := TrapOutside(s1, w, t, n, u);
    LeadsConcat(s, first, s1, second, s');
    LocalsConcat(s, first, s1, second);
    xs := first + second;
  }

  // With all of them gone, the writer announces itself and goes in.
  lemma {:induction false} TrapShuts(s: Split, w: nat, t: nat, n: nat) returns (xs: seq<Step>, s': Split)
    requires Trap(s, w, t, n) && Before(s, n) == {}
    ensures Leads(s, xs, s') && Locals(s, xs) && !Exclusive(s')
  {
    var s1 := Do(s, Announce(w));
    s' := Do(s1, Same(WriterEnters(w)));
    LeadsOne(s, Announce(w));
    LeadsOne(s1, Same(WriterEnters(w)));
    LeadsConcat(s, [Announce(w)], s1, [Same(WriterEnters(w))], s');
    xs := [Announce(w)] + [Same(WriterEnters(w))];
    assert s'.threads[w].WriterInside? && s'.threads[t].Inside();
  }

  lemma {:induction false} TrapWorks(s: Split, w: nat, t: nat, n: nat) returns (xs: seq<Step>, s': Split)
    requires Trap(s, w, t, n)
    ensures Leads(s, xs, s') && Locals(s, xs) && !Exclusive(s')
    decreases |Before(s, n)|
  {
    if Before(s, n) == {} {
      xs, s' := TrapShuts(s, w, t, n);
    } else {
      var k :| k in Before(s, n);
      var u :| u in s.threads && s.threads[u].num == k;
      var first, s1 := TrapThrough(s, w, t, n, u);
      var more;
      more, s' := TrapWorks(s1, w, t, n);
      LeadsConcat(s, first, s1, more, s');
      LocalsConcat(s, first, s1, more);
      xs := first + more;
    }
  }

  // A writer inside is alone wherever steps that do not overtake may lead.
  ghost predicate Safe(s: Split) {
    forall xs, s' :: Leads(s, xs, s') ==> Exclusive(s')
  }

  lemma {:induction false} InvIsSafe(s: Split)
    requires Inv(Coarse(s)) && Tidy(s)
    ensures Safe(s)
  {
    forall xs, s' | Leads(s, xs, s')
      ensures Exclusive(s')
    {
      InvAlongSteps(s, xs, s');
      InvIsExclusive(s');
    }
  }

  lemma {:induction false} TrapIsUnsafe(s: Split, w: nat, t: nat, n: nat)
    requires Trap(s, w, t, n)
    ensures !Safe(s)
  {
    var xs, s' := TrapWorks(s, w, t, n);
  }

  // The guard against overtaking is the weakest that keeps exclusion: a step
  // leads to a safe state exactly when it does not overtake.
  lemma {:induction false} SafeExactlyWhenNotOvertaking(s: Split, x: Step)
    requires Inv(Coarse(s)) && Tidy(s) && CanStep(s, x)
    ensures Safe(Do(s, x)) <==> !Overtakes(s, x)
  {
    if Overtakes(s, x) {
      var w, n := OvertakingSetsTrap(s, x);
      TrapIsUnsafe(Do(s, x), w, x.e.t, n);
    } else {
      QuietStepKeepsInv(s, x);
      TidyStep(s, x);
      InvIsSafe(Do(s, x));
    }
  }

  // ------------------------------------------------------------- over runs

  ghost predicate Moves(run: seq<Split>, xs: seq<Step>, i: nat)
    requires i < |xs| < |run|
  {
    CanStep(run[i], xs[i]) && run[i + 1] == Do(run[i], xs[i])
  }

  ghost predicate IsSplitRun(run: seq<Split>, xs: seq<Step>) {
    && |run| == |xs| + 1 && run[0] == SPLIT_INITIAL
    && forall i :: 0 <= i < |xs| ==> Moves(run, xs, i)
  }

  // No reader has gone in past an unannounced writer with an earlier ticket
  // before step i.
  ghost predicate NoneOvertaken(run: seq<Split>, xs: seq<Step>, i: nat)
    requires i <= |xs| < |run|
  {
    forall k :: 0 <= k < i ==> !Overtakes(run[k], xs[k])
  }

  lemma {:induction false} SplitInvAlongRun(run: seq<Split>, xs: seq<Step>, i: nat)
    requires IsSplitRun(run, xs) && i <= |xs| && NoneOvertaken(run, xs, i)
    ensures Inv(Coarse(run[i])) && Tidy(run[i])
  {
    if i == 0 {
      assert Tickets(Coarse(SPLIT_INITIAL)) == {} && Writers(Coarse(SPLIT_INITIAL)) == {};
    } else {
      SplitInvAlongRun(run, xs, i - 1);
      assert Moves(run, xs, i - 1) && !Overtakes(run[i - 1], xs[i - 1]);
      QuietStepKeepsInv(run[i - 1], xs[i - 1]);
      TidyStep(run[i - 1], xs[i - 1]);
    }
  }

  // A writer inside excludes everybody else in every such run.
  lemma {:induction false} SplitWriterExcludesAll(run: seq<Split>, xs: seq<Step>, i: nat, w: nat, t: nat)
    requires IsSplitRun(run, xs) && i <= |xs| && NoneOvertaken(run, xs, i)
    requires w in run[i].threads && run[i].threads[w].WriterInside?
    requires t in run[i].threads && t != w
    ensures !run[i].threads[t].Inside()
  {
    SplitInvAlongRun(run, xs, i);
    InvIsExclusive(run[i]);
  }

  lemma {:induction false} OvertakingKeepsKeys(s: Split, x: Step)
    requires CanStep(s, x) && Overtakes(s, x)
    ensures Do(s, x).threads.Keys == s.threads.Keys
  {
  }

  lemma {:induction false} AfterOvertaking(s: Split, x: Step, s1: Split) returns (more: seq<Step>, s': Split)
    requires Inv(Coarse(s)) && Tidy(s) && CanStep(s, x) && Overtakes(s, x) && s1 == Do(s, x)
    ensures Leads(s1, more, s') && Locals(s, more) && !Exclusive(s')
  {
    var w, n := OvertakingSetsTrap(s, x);
    more, s' := TrapWorks(s1, w, x.e.t, n);
    OvertakingKeepsKeys(s, x);
    LocalsBefore(s, s1, more);
  }

  // And the first overtaking of a run can always be followed, by threads that
  // are in the lock already, by a writer going in beside somebody else.
  lemma {:induction false} FirstOvertakingBreaksExclusion(run: seq<Split>, xs: seq<Step>, i: nat)
    returns (more: seq<Step>, s': Split)
    requires IsSplitRun(run, xs) && i < |xs| && NoneOvertaken(run, xs, i) && Overtakes(run[i], xs[i])
    ensures Leads(run[i + 1], more, s') && Locals(run[i], more) && !Exclusive(s')
  {
    SplitInvAlongRun(run, xs, i);
    assert Moves(run, xs, i);
    more, s' := AfterOvertaking(run[i], xs[i], run[i + 1]);
  }

  // Two threads are enough.
  lemma {:induction false} OvertakingBreaksExclusion() returns (run: seq<Split>, xs: seq<Step>)
    ensures IsSplitRun(run, xs) && |xs| == 5 && Overtakes(run[2], xs[2])
    ensures var s := run[5];
      0 in s.threads && 1 in s.threads && s.threads[0].WriterInside? && s.threads[1].ReaderInside?
  {
    xs := [TakeTicket(0), Same(ReaderArrives(1)), Same(ReaderEnters(1)), Announce(0), Same(WriterEnters(0))];
    var s1 := Do(SPLIT_INITIAL, xs[0]);
    var s2 := Do(s1, xs[1]);
    var s3 := Do(s2, xs[2]);
    var s4 := Do(s3, xs[3]);
    var s5 := Do(s4, xs[4]);
    run := [SPLIT_INITIAL, s1, s2, s3, s4, s5];
    assert 0 in s2.pending && s2.threads[0].num < s2.threads[1].num;
  }
}
