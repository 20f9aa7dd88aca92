// Comma lists in the evaluator, Project7/ssu_crond.c: token_check goes from term
// to term by strtok, which keeps its place in one variable for everybody, and
// what it calls for a term uses strtok too.
module CronLists {
  import opened CStrings
  import opened Cron

  // Says: the return value. LosesPlace: after term k, strtok goes on in a buffer
  // that is gone. Stops: term k is not decided. Unset: there is no term, and
  // the return value was never set.
  datatype Answer = Says(fires: bool) | LosesPlace(k: nat) | Stops(k: nat) | Unset

  // The loop of token_check from the k-th term on.
  function EvalFrom(min: int, max: int, ts: seq<string>, now: int, k: nat): Answer
    requires k <= |ts|
    decreases |ts| - k
  {
    if k == |ts| then Says(false)
    else
      match Timer(min, max, ts[k], now)
      case Fires => Says(true)
      case Quiet => if CallsStrtok(ts[k]) then LosesPlace(k) else EvalFrom(min, max, ts, now, k + 1)
      case _ => Stops(k)
  }

  function EvalList(min: int, max: int, ts: seq<string>, now: int): Answer {
    if ts == [] then Unset else EvalFrom(min, max, ts, now, 0)
  }

  // A field without a comma is one term.
  function EvalField(min: int, max: int, input: string, now: int): Answer {
    if Has(input, ',') then EvalList(min, max, Terms(input, 0), now)
    else
      match Timer(min, max, input, now)
      case Fires => Says(true)
      case Quiet => Says(false)
      case _ => Stops(0)
  }

  // Term k is looked at as it was written: nothing before it has fired, been
  // left undecided, or lost the place.
  predicate Reached(min: int, max: int, ts: seq<string>, now: int, k: nat)
    requires k <= |ts|
  {
    k == 0 || (Reached(min, max, ts, now, k - 1) && Timer(min, max, ts[k - 1], now) == Quiet && !CallsStrtok(ts[k - 1]))
  }

  lemma {:induction false} EvalFromReached(min: int, max: int, ts: seq<string>, now: int, k: nat)
    requires k <= |ts| && Reached(min, max, ts, now, k)
    ensures EvalFrom(min, max, ts, now, 0) == EvalFrom(min, max, ts, now, k)
  {
    if k > 0 {
      EvalFromReached(min, max, ts, now, k - 1);
    }
  }

  // A number that is read as 0: the evaluator does not even compare it.
  predicate Zero(s: string) { !CallsStrtok(s) && s != "*" }

  lemma {:induction false} ZeroIsQuiet(min: int, max: int, s: string, now: int)
    ensures Zero(s) <==> Timer(min, max, s, now) == Quiet && !CallsStrtok(s)
  {
  }

  // Whatever the list, the k-th term is reached exactly when all before it are
  // read as 0.
  lemma {:induction false} ReachedExactlyWhenZerosBefore(min: int, max: int, ts: seq<string>, now: int, k: nat)
    requires k <= |ts|
    ensures Reached(min, max, ts, now, k) <==> forall j :: 0 <= j < k ==> Zero(ts[j])
  {
    if k > 0 {
      ReachedExactlyWhenZerosBefore(min, max, ts, now, k - 1);
      ZeroIsQuiet(min, max, ts[k - 1], now);
    }
  }

  // The checker accepts a 0 only in a field that starts at 0.
  lemma {:induction false} AcceptedZero(min: int, max: int, s: string)
    requires CheckTerm(min, max, s) == Accept
    ensures Zero(s) ==> min == 0
  {
  }

  // Where the first term is that is not read as 0.
  function FirstOther(ts: seq<string>, i: nat): (k: nat)
    requires i <= |ts|
    ensures i <= k <= |ts| && (k < |ts| ==> !Zero(ts[k])) && forall j :: i <= j < k ==> Zero(ts[j])
    decreases |ts| - i
  {
    if i == |ts| || !Zero(ts[i]) then i else FirstOther(ts, i + 1)
  }

  // So an accepted list stands and falls with its first term that is not 0:
  // the answer is that term's if it fires, and otherwise the place is lost,
  // whatever comes behind it, unless the term does not even fit. The list is
  // decided exactly when that term fires or there is none.
  lemma {:induction false} ListIsDecidedByOneTerm(min: int, max: int, input: string, now: int)
    requires 0 <= min <= max && Without(input, ' ') && Has(input, ',') && CheckField(min, max, input) == Accept
    ensures var ts := Terms(input, 0);
      var k, a := FirstOther(ts, 0), EvalField(min, max, input, now);
      && (ts == [] ==> a == Unset)
      && (ts != [] && k == |ts| ==> a == Says(false))
      && (k < |ts| && Timer(min, max, ts[k], now) == Fires ==> a == Says(true))
      && (k < |ts| && Timer(min, max, ts[k], now) == Quiet ==> a == LosesPlace(k))
      && (k < |ts| && !Fits(ts[k]) ==> a == Stops(k))
      && (k < |ts| ==> a == Says(true) || a == LosesPlace(k) || a == Stops(k))
  {
    var ts := Terms(input, 0);
    var k := FirstOther(ts, 0);
    ReachedExactlyWhenZerosBefore(min, max, ts, now, k);
    EvalFromReached(min, max, ts, now, k);
    if k < |ts| {
      AcceptedListsAreSafe(min, max, input, k, now);
      ZeroIsQuiet(min, max, ts[k], now);
    }
  }

  // In a field that starts above 0, that is the first term of all.
  lemma {:induction false} OnlyTheFirstTermCounts(min: int, max: int, input: string, now: int)
    requires 0 < min <= max && Without(input, ' ') && Has(input, ',') && CheckField(min, max, input) == Accept
    requires Terms(input, 0) != []
    ensures EvalField(min, max, input, now) ==
      if !Fits(Terms(input, 0)[0]) then Stops(0)
      else if Timer(min, max, Terms(input, 0)[0], now) == Fires then Says(true) else LosesPlace(0)
  {
    CheckAllAccepts(min, max, Terms(input, 0));
    AcceptedZero(min, max, Terms(input, 0)[0]);
    ListIsDecidedByOneTerm(min, max, input, now);
    AcceptedListsAreSafe(min, max, input, 0, now);
  }

  // The loop of token_check over the terms of a list. lost tells whether strtok
  // has been called for something else since the list was last asked for one.
  method CheckList(min: int, max: int, input: string, now: int) returns (a: Answer)
    ensures a == EvalList(min, max, Terms(input, 0), now)
  {
    ghost var ts := Terms(input, 0);
    var k: nat := 0;
    var lost := false;
    var ptr := StrTok(input, ',', 0);
    a := Unset;
    while ptr.Token?
      invariant k <= |ts| && !lost && (k == 0 ==> a == Unset) && (k > 0 ==> a == Says(false))
      invariant ptr.Token? ==> ptr.start <= ptr.end <= ptr.next <= |input|
      invariant TermsFrom(input, ptr) == ts[k..]
      invariant ts != [] ==> EvalList(min, max, ts, now) == EvalFrom(min, max, ts, now, k)
      decreases |ts| - k
    {
      var command := Text(input, ptr);
      assert ts[k..][0] == command && ts[k..][1..] == ts[k + 1..];
      var o;
      o, lost := RunTimer(min, max, command, now);
      if o == Fires {
        return Says(true);
      }
      if o != Quiet {
        return Stops(k);
      }
      if lost {
        return LosesPlace(k);
      }
      a := Says(false);
      ptr := StrTok(input, ',', ptr.next);
      k := k + 1;
    }
  }

  method TokenCheck(min: int, max: int, input: string, now: int) returns (a: Answer)
    ensures a == EvalField(min, max, input, now)
  {
    if !Has(input, ',') {
      var o, _ := RunTimer(min, max, input, now);
      a := if o == Fires then Says(true) else if o == Quiet then Says(false) else Stops(0);
    } else {
      a := CheckList(min, max, input, now);
    }
  }
}
