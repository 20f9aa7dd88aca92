// What the terms of a comma list are, stated on the characters of the field, and
// what the checker and the evaluator of Project7 then make of a list of
// documented terms.
module CronTerms {
  import opened Common
  import opened CStrings
  import opened Cron
  import opened CronLists

  // ------------------------------------------------------- the pieces of a field

  // A place in a text, from one position up to another.
  datatype Span = Span(a: nat, b: nat)

  // No comma between a and b, and a comma or the end of the text on either side.
  ghost predicate Piece(s: string, p: Span) {
    p.a < p.b <= |s|
    && (forall j :: p.a <= j < p.b ==> s[j] != ',')
    && (p.a == 0 || s[p.a - 1] == ',') && (p.b == |s| || s[p.b] == ',')
  }

  // Pieces of s behind position i, in order.
  ghost predicate InOrder(s: string, i: nat, cuts: seq<Span>) {
    (forall k :: 0 <= k < |cuts| ==> Piece(s, cuts[k]) && i <= cuts[k].a)
    && (forall j, k :: 0 <= j < k < |cuts| ==> cuts[j].b < cuts[k].a)
  }

  ghost predicate NoneLeftOut(s: string, i: nat, cuts: seq<Span>) {
    forall p: Span :: Piece(s, p) && i <= p.a ==> p in cuts
  }

  ghost predicate AllPieces(s: string, i: nat, cuts: seq<Span>) {
    InOrder(s, i, cuts) && NoneLeftOut(s, i, cuts)
  }

  ghost predicate Spell(s: string, cuts: seq<Span>, ts: seq<string>) {
    |cuts| == |ts| && forall k :: 0 <= k < |cuts| ==> cuts[k].a <= cuts[k].b <= |s| && ts[k] == s[cuts[k].a..cuts[k].b]
  }

  // A place where strtok goes on: the start, or behind a comma, or the end.
  predicate Resumes(s: string, i: nat) { i == 0 || i >= |s| || s[i - 1] == ',' }

  lemma {:induction false} NoCommaInside(s: string, p: Span, j: nat)
    requires Piece(s, p) && j < |s| && s[j] == ','
    ensures j < p.a || p.b <= j
  {
  }

  lemma {:induction false} Apart(s: string, p: Span, q: Span)
    requires Piece(s, p) && Piece(s, q) && p.a <= q.a
    ensures p == q || p.b < q.a
  {
    if p.a < q.a {
      NoCommaInside(s, p, q.a - 1);
    } else if q.b < p.b {
      NoCommaInside(s, p, q.b);
    } else if p.b < q.b {
      NoCommaInside(s, q, p.b);
    }
  }

  lemma {:induction false} NextPiece(s: string, i: nat)
    requires i <= |s| && Resumes(s, i) && StrTok(s, ',', i).Token?
    ensures var t := StrTok(s, ',', i); Piece(s, Span(t.start, t.end)) && i <= t.start && Resumes(s, t.next)
  {
    var t := StrTok(s, ',', i);
    assert forall j :: t.start <= j < t.end ==> s[j] == s[t.start..t.end][j - t.start];
  }

  lemma {:induction false} NoPieceAfter(s: string, i: nat, p: Span)
    requires i <= |s| && StrTok(s, ',', i).Nothing? && Piece(s, p)
    ensures p.a < i
  {
    if i <= p.a {
      NoCommaInside(s, p, p.a);
    }
  }

  lemma {:induction false} PieceAfter(s: string, i: nat, p: Span)
    requires i <= |s| && Resumes(s, i) && StrTok(s, ',', i).Token? && Piece(s, p) && i <= p.a
    ensures var t := StrTok(s, ',', i); p == Span(t.start, t.end) || t.next <= p.a
  {
    var t := StrTok(s, ',', i);
    NextPiece(s, i);
    if p.a < t.start {
      NoCommaInside(s, p, p.a);
    } else {
      Apart(s, Span(t.start, t.end), p);
    }
  }

  // A piece put in front of all those behind it.
  lemma {:induction false} FirstInOrder(s: string, i: nat, next: nat, first: Span, rest: seq<Span>)
    requires Piece(s, first) && i <= first.a && (next == first.b + 1 || (next == first.b && next == |s|))
    requires InOrder(s, next, rest)
    ensures InOrder(s, i, [first] + rest)
  {
    var cuts := [first] + rest;
    forall k | 0 <= k < |cuts|
      ensures Piece(s, cuts[k]) && i <= cuts[k].a && (0 < k ==> first.b < cuts[k].a)
    {
      assert k > 0 ==> cuts[k] == rest[k - 1];
    }
  }

  lemma {:induction false} InTail<T>(x: T, a: T, rest: seq<T>)
    ensures x in [a] + rest <==> x == a || x in rest
  {
  }

  lemma {:induction false} FirstLeftOut(s: string, i: nat, next: nat, first: Span, rest: seq<Span>)
    requires NoneLeftOut(s, next, rest)
    requires forall p: Span :: Piece(s, p) && i <= p.a ==> p == first || next <= p.a
    ensures NoneLeftOut(s, i, [first] + rest)
  {
    forall p: Span | Piece(s, p) && i <= p.a
      ensures p in [first] + rest
    {
      InTail(p, first, rest);
    }
  }

  lemma {:induction false} SpellFirst(s: string, first: Span, rest: seq<Span>, ts: seq<string>)
    requires first.a <= first.b <= |s| && Spell(s, rest, ts)
    ensures Spell(s, [first] + rest, [s[first.a..first.b]] + ts)
  {
  }

  lemma {:induction false} PiecesFrom(s: string, i: nat) returns (cuts: seq<Span>)
    requires i <= |s| && Resumes(s, i)
    ensures AllPieces(s, i, cuts) && Spell(s, cuts, Terms(s, i))
    decreases |s| - i
  {
    var t := StrTok(s, ',', i);
    cuts := [];
    if t.Nothing? {
      forall p: Span | Piece(s, p)
        ensures p.a < i
      {
        NoPieceAfter(s, i, p);
      }
    } else {
      NextPiece(s, i);
      var rest := PiecesFrom(s, t.next);
      cuts := [Span(t.start, t.end)] + rest;
      forall p: Span | Piece(s, p) && i <= p.a
        ensures p == Span(t.start, t.end) || t.next <= p.a
      {
        PieceAfter(s, i, p);
      }
      FirstInOrder(s, i, t.next, Span(t.start, t.end), rest);
      FirstLeftOut(s, i, t.next, Span(t.start, t.end), rest);
      SpellFirst(s, Span(t.start, t.end), rest, Terms(s, t.next));
    }
  }

  // The terms of any field are its comma-free pieces that are not empty, all of
  // them, each once, in order.
  lemma {:induction false} TermsAreThePieces(s: string) returns (cuts: seq<Span>)
    ensures AllPieces(s, 0, cuts)
    ensures |cuts| == |Terms(s, 0)|
    ensures forall k :: 0 <= k < |cuts| ==> cuts[k].b <= |s| && Terms(s, 0)[k] == s[cuts[k].a..cuts[k].b]
  {
    cuts := PiecesFrom(s, 0);
  }

  // -------------------------------------------------------------- lists put together

  // Texts with a comma between every two.
  function Joined(ts: seq<string>): string
    decreases |ts|
  {
    if ts == [] then "" else if |ts| == 1 then ts[0] else ts[0] + "," + Joined(ts[1..])
  }

  predicate Proper(t: string) { t != "" && Without(t, ',') }

  // strtok finds the texts ts one after the other from i on, and no more.
  ghost predicate Finds(s: string, i: nat, ts: seq<string>)
    decreases |ts|
  {
    i <= |s| &&
    var t := StrTok(s, ',', i);
    if ts == [] then t.Nothing? else t.Token? && s[t.start..t.end] == ts[0] && Finds(s, t.next, ts[1..])
  }

  lemma {:induction false} FoundAreTerms(s: string, i: nat, ts: seq<string>)
    requires Finds(s, i, ts)
    ensures Terms(s, i) == ts
    decreases |ts|
  {
    if ts != [] {
      FoundAreTerms(s, StrTok(s, ',', i).next, ts[1..]);
      HeadAndTail(ts);
    }
  }

  // The last text runs up to the end.
  lemma {:induction false} LastTerm(s: string, i: nat)
    requires i < |s| && Without(s[i..], ',')
    ensures Finds(s, i, [s[i..]])
  {
    assert forall j :: i <= j < |s| ==> s[j] == s[i..][j - i];
    SkipTo(s, ',', i, i);
    FindNone(s, ',', i);
    SkipToEnd(s, ',', |s|);
    assert s[i..|s|] == s[i..];
    assert [s[i..]][1..] == [];
  }

  // One that is followed by others ends at its comma.
  lemma {:induction false} FirstOfRest(s: string, i: nat, t: string, rest: string)
    requires i <= |s| && s[i..] == t + "," + rest && Proper(t)
    ensures i + |t| < |s| && StrTok(s, ',', i) == Token(i, i + |t|, i + |t| + 1)
    ensures s[i..i + |t|] == t && s[i + |t| + 1..] == rest
  {
    assert s[i..][..|t|] == t && s[i..][|t|] == ',' && s[i..][|t| + 1..] == rest;
    FieldIsToken(s, ',', i, t, 0);
  }

  lemma {:induction false} FindsNext(s: string, i: nat, ts: seq<string>, next: nat, rest: seq<string>)
    requires ts != [] && rest == ts[1..] && i + |ts[0]| <= |s|
    requires StrTok(s, ',', i) == Token(i, i + |ts[0]|, next) && s[i..i + |ts[0]|] == ts[0] && Finds(s, next, rest)
    ensures Finds(s, i, ts)
  {
  }

  lemma {:induction false} TermsOfJoined(s: string, i: nat, ts: seq<string>)
    requires i <= |s| && s[i..] == Joined(ts) && ts != [] && forall k :: 0 <= k < |ts| ==> Proper(ts[k])
    ensures Finds(s, i, ts)
    decreases |ts|
  {
    if |ts| == 1 {
      LastTerm(s, i);
      assert ts == [s[i..]];
    } else {
      var next, rest := i + |ts[0]| + 1, ts[1..];
      FirstOfRest(s, i, ts[0], Joined(rest));
      TermsOfJoined(s, next, rest);
      FindsNext(s, i, ts, next, rest);
    }
  }

  // Texts joined by commas come back as they were, in order, none lost.
  lemma {:induction false} TermsUndoJoined(ts: seq<string>)
    requires forall k :: 0 <= k < |ts| ==> Proper(ts[k])
    ensures Terms(Joined(ts), 0) == ts
  {
    if ts != [] {
      assert Joined(ts)[0..] == Joined(ts);
      TermsOfJoined(Joined(ts), 0, ts);
      FoundAreTerms(Joined(ts), 0, ts);
    }
  }

  // ------------------------------------------------------ lists of documented terms

  function Rendered(ts: seq<Term>): seq<string> { seq(|ts|, k requires 0 <= k < |ts| => Render(ts[k])) }

  lemma {:induction false} RenderIsProper(t: Term)
    ensures Proper(Render(t)) && Without(Render(t), ' ')
  {
  }

  lemma {:induction false} JoinedHasComma(ts: seq<string>)
    requires |ts| > 0 && forall k :: 0 <= k < |ts| ==> Proper(ts[k])
    ensures Has(Joined(ts), ',') <==> |ts| > 1
  {
    if |ts| > 1 {
      assert Joined(ts)[|ts[0]|] == ',';
    }
  }

  lemma {:induction false} ListTerms(ts: seq<Term>)
    requires ts != []
    ensures Terms(Joined(Rendered(ts)), 0) == Rendered(ts)
    ensures Has(Joined(Rendered(ts)), ',') <==> |ts| > 1
    ensures |ts| == 1 ==> Joined(Rendered(ts)) == Render(ts[0])
  {
    forall k | 0 <= k < |ts|
      ensures Proper(Rendered(ts)[k])
    {
      RenderIsProper(ts[k]);
    }
    TermsUndoJoined(Rendered(ts));
    JoinedHasComma(Rendered(ts));
  }

  // The checker accepts a list of documented terms, or one alone, exactly when
  // the manual allows every one of them.
  lemma {:induction false} ListAcceptedExactlyWhenAllAllowed(ts: seq<Term>, min: int, max: int)
    requires 0 <= min <= max && ts != []
    ensures CheckField(min, max, Joined(Rendered(ts))) == Accept
       <==> forall k :: 0 <= k < |ts| ==> Allowed(ts[k], min, max)
  {
    ListTerms(ts);
    CheckAllAccepts(min, max, Rendered(ts));
    forall k | 0 <= k < |ts|
      ensures CheckTerm(min, max, Rendered(ts)[k]) == Accept <==> Allowed(ts[k], min, max)
    {
      CheckerAcceptsExactlyTheAllowed(ts[k], min, max);
    }
    assert forall k :: 0 <= k < |ts| ==> Rendered(ts)[k] == Render(ts[k]);
  }

  lemma {:induction false} OnlyZeroReadsAsZero(t: Term)
    ensures Zero(Render(t)) <==> t == One(0)
  {
    HasSlash(t);
    match t
    case Range(a, b) => RangeChars(a, b);
    case One(n) =>
      DecChars(n, '/');
      DecChars(n, '-');
      AtoiOfDec(n);
      assert IsDigit(Dec(n)[0]);
    case _ =>
  }

  predicate TwoDigitStep(t: Term) { (t.Every? || t.RangeEvery?) && t.n >= 10 }

  // The evaluator's answer on an allowed list of two terms or more: the first
  // that is not the number 0 decides alone. It fires, if its step is a single
  // digit, exactly on the values that term stands for.
  lemma {:induction false} ListFiresExactly(ts: seq<Term>, min: int, max: int, now: int, k: nat)
    requires 0 <= min <= max < 100 && |ts| > 1
    requires forall i :: 0 <= i < |ts| ==> Allowed(ts[i], min, max)
    requires k <= |ts| && (k < |ts| ==> ts[k] != One(0)) && forall i :: 0 <= i < k ==> ts[i] == One(0)
    ensures EvalField(min, max, Joined(Rendered(ts)), now) ==
      if k == |ts| then Says(false)
      else if TwoDigitStep(ts[k]) then Stops(k)
      else if Allowed(ts[k], min, max) && Means(ts[k], min, max, now) then Says(true)
      else LosesPlace(k)
  {
    ListTerms(ts);
    ZerosFirst(ts, min, max, now, k);
    if k < |ts| {
      TermDecides(ts[k], min, max, now);
    }
  }

  // A field of one term is decided by it: the number 0 never fires.
  lemma {:induction false} OneTermFiresExactly(t: Term, min: int, max: int, now: int)
    requires 0 <= min <= max < 100 && Allowed(t, min, max)
    ensures EvalField(min, max, Render(t), now) ==
      if TwoDigitStep(t) then Stops(0) else Says(t != One(0) && Means(t, min, max, now))
  {
    RenderIsProper(t);
    if t == One(0) {
      OnlyZeroReadsAsZero(t);
      ZeroIsQuiet(min, max, Render(t), now);
    } else {
      TermDecides(t, min, max, now);
    }
  }

  lemma {:induction false} ZerosFirst(ts: seq<Term>, min: int, max: int, now: int, k: nat)
    requires k <= |ts| && forall i :: 0 <= i < k ==> ts[i] == One(0)
    ensures EvalFrom(min, max, Rendered(ts), now, 0) == EvalFrom(min, max, Rendered(ts), now, k)
  {
    forall i | 0 <= i < k
      ensures Zero(Rendered(ts)[i])
    {
      OnlyZeroReadsAsZero(ts[i]);
    }
    ReachedExactlyWhenZerosBefore(min, max, Rendered(ts), now, k);
    EvalFromReached(min, max, Rendered(ts), now, k);
  }

  lemma {:induction false} TermDecides(t: Term, min: int, max: int, now: int)
    requires 0 <= min <= max < 100 && Allowed(t, min, max) && t != One(0)
    ensures var o := Timer(min, max, Render(t), now);
      if TwoDigitStep(t) then o == Undefined
      else if Means(t, min, max, now) then o == Fires
      else o == Quiet && CallsStrtok(Render(t))
  {
    CheckerAcceptsExactlyTheAllowed(t, min, max);
    RenderIsProper(t);
    FitsExactlyWhen(t, min, max);
    AcceptedTermsAreSafe(min, max, Render(t), now);
    EvaluatorFiresExactly(t, min, max, now);
    OnlyZeroReadsAsZero(t);
  }
}
