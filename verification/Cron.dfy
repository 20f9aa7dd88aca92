// The fields of a cron line: the checker of Project7/ssu_crontab.c that accepts
// them and the evaluator of Project7/ssu_crond.c that decides whether to fire.
module Cron {
  import opened Common
  import opened CStrings

  // ---------------------------------------------------------------------- numbers

  predicate IsDigit(c: char) { '0' <= c <= '9' }
  predicate IsSpace(c: char) { c == ' ' || '\t' <= c <= '\r' }

  function DigitValue(c: char): int
    requires IsDigit(c)
  {
    c as int - '0' as int
  }

  // The digits at the start of s, after those worth acc.
  function Digits(s: string, acc: int): int
    decreases |s|
  {
    if s == [] || !IsDigit(s[0]) then acc else Digits(s[1..], 10 * acc + DigitValue(s[0]))
  }

  function Unspaced(s: string): string
    decreases |s|
  {
    if s != [] && IsSpace(s[0]) then Unspaced(s[1..]) else s
  }

  // atoi: 0 for what is no number.
  function Atoi(s: string): int {
    var t := Unspaced(s);
    if t == [] then 0
    else if t[0] == '-' then -Digits(t[1..], 0)
    else if t[0] == '+' then Digits(t[1..], 0)
    else Digits(t, 0)
  }

  // ------------------------------------------------------------------ the checker

  // NoVerdict: strcmp or atoi gets a null pointer, or the function runs off its
  // end without a return value.
  datatype Verdict = Accept | Reject | NoVerdict

  predicate Has(s: string, c: char) { c in s }

  function Text(s: string, t: Found): string
    requires t.Token? ==> t.start <= t.end <= |s|
  {
    if t.Token? then s[t.start..t.end] else []
  }

  predicate Between(min: int, n: int, max: int) { min <= n <= max }

  // bar_check. The second atoi of the first number reads the input up to the
  // end of its first token.
  function BarCheck(min: int, max: int, input: string): Verdict {
    var t := StrTok(input, '-', 0);
    if t.Nothing? then NoVerdict
    else
      var num1 := Atoi(Text(input, t));
      if num1 == 0 && Atoi(input[..t.end]) != min then Reject
      else
        var u := StrTok(input, ' ', t.next);
        if u.Nothing? || Text(input, u) == "*" then NoVerdict
        else
          var num2 := Atoi(Text(input, u));
          if num2 != 0 && Between(min, num1, max) && Between(min, num2, max) && num1 < num2 then Accept else Reject
  }

  // slash_check. After the first strtok, input ends where its token does.
  function SlashCheck(min: int, max: int, input: string): Verdict {
    var t := StrTok(input, '/', 0);
    if t.Nothing? then NoVerdict
    else
      var cmp := Text(input, t);
      var ptr := StrTok(input, ' ', t.next);
      var front := if Has(input[..t.end], '-') then BarCheck(min, max, cmp) else if cmp == "*" then Accept else Reject;
      if !front.Accept? then front
      else if ptr.Nothing? then NoVerdict
      else
        var num2 := Atoi(Text(input, ptr));
        if num2 != 0 && Between(min, num2, max) then Accept else Reject
  }

  // token_check of the checker.
  function CheckTerm(min: int, max: int, input: string): Verdict {
    if Has(input, '/') then SlashCheck(min, max, input)
    else if Has(input, '-') then BarCheck(min, max, input)
    else if input == "*" then Accept
    else if Atoi(input) == min then Accept
    else if Atoi(input) != 0 && Between(min, Atoi(input), max) then Accept
    else Reject
  }

  // ---------------------------------------------------------------- the evaluator

  // Forever: a loop whose step is not positive. Undefined: a null pointer, a
  // read behind the end of a text, or a store behind the end of a buffer.
  datatype Outcome = Fires | Quiet | Forever | Undefined

  // The loop goes from one value to another by a step and takes note of now.
  function Loop(from: int, last: int, st: int, now: int): Outcome
    decreases last - from
  {
    if from > last then Quiet
    else if st <= 0 then Forever
    else if Loop(from + st, last, st, now) == Fires || from == now then Fires
    else Quiet
  }

  // The two ends of a range, and the loop over it. The second is read from
  // behind the '-' that ended the first.
  function RangeLoop(range: string, st: int, now: int): Outcome {
    var t := StrTok(range, '-', 0);
    if t.Nothing? || t.end == |range| then Undefined
    else Loop(Atoi(Text(range, t)), Atoi(range[t.end + 1..]), st, now)
  }

  // The two parts of a slash term are there and, with their NULs, fit range[6]
  // and stand[2].
  predicate FitsBuffers(input: string) {
    var t := StrTok(input, '/', 0);
    t.Token? && |Text(input, t)| + 1 <= 6
    && var u := StrTok(input, ' ', t.next); u.Token? && |Text(input, u)| + 1 <= 2
  }

  // timer: whether a term fires at the value now of its field.
  function Timer(min: int, max: int, input: string, now: int): Outcome {
    if Has(input, '/') then
      if !FitsBuffers(input) then Undefined
      else
        var t := StrTok(input, '/', 0);
        var st := Atoi(Text(input, StrTok(input, ' ', t.next)));
        if Text(input, t) == "*" then Loop(min, max, st, now) else RangeLoop(Text(input, t), st, now)
    else if Has(input, '-') then RangeLoop(input, 1, now)
    else if input == "*" then Fires
    else if Atoi(input) != 0 && Atoi(input) == now then Fires
    else Quiet
  }

  // --------------------------------------------------- what the checker ensures

  lemma {:induction false} AtLeastOnce(st: int, k: int)
    requires st > 0 && k >= 1
    ensures st * k >= st
  {
  }

  lemma {:induction false} ModUnique(d: int, st: int, q: int, r: int)
    requires st > 0 && d == st * q + r && 0 <= r < st
    ensures d % st == r
  {
    var q', r' := d / st, d % st;
    assert st * (q - q') == r' - r;
    if q > q' {
      AtLeastOnce(st, q - q');
    } else if q < q' {
      AtLeastOnce(st, q' - q);
    }
  }

  lemma {:induction false} StepBack(d: int, st: int)
    requires st > 0
    ensures (d - st) % st == d % st
    ensures 0 < d < st ==> d % st != 0
  {
    var q, r := d / st, d % st;
    assert d - st == st * (q - 1) + r;
    ModUnique(d - st, st, q - 1, r);
  }

  ghost predicate OnStep(from: int, last: int, st: int, now: int)
    requires st > 0
  {
    from <= now <= last && (now - from) % st == 0
  }

  lemma {:induction false} LoopFires(from: int, last: int, st: int, now: int)
    requires st > 0
    ensures Loop(from, last, st, now) == Fires || Loop(from, last, st, now) == Quiet
    ensures Loop(from, last, st, now) == Fires <==> OnStep(from, last, st, now)
    decreases last - from
  {
    if from <= last {
      LoopFires(from + st, last, st, now);
      StepBack(now - from, st);
      assert now - (from + st) == now - from - st;
    }
  }

  // A term has no spaces: it comes from a line that was split at them.
  lemma {:induction false} RestIsToken(s: string, i: nat)
    requires Without(s, ' ') && i < |s|
    ensures StrTok(s, ' ', i) == Token(i, |s|, |s|) && Text(s, StrTok(s, ' ', i)) == s[i..]
  {
    SkipTo(s, ' ', i, i);
    FindNone(s, ' ', i);
  }

  lemma {:induction false} EndIsNoToken(s: string, d: char)
    ensures StrTok(s, d, |s|) == Nothing
  {
  }

  // The two numbers of an accepted range, as the evaluator reads them.
  lemma {:induction false} AcceptedRange(min: int, max: int, s: string)
    requires Without(s, ' ') && BarCheck(min, max, s) == Accept
    ensures var t := StrTok(s, '-', 0);
      && t.Token? && t.end < |s|
      && min <= Atoi(Text(s, t)) < Atoi(s[t.end + 1..]) <= max
  {
    var t := StrTok(s, '-', 0);
    if t.next == |s| {
      EndIsNoToken(s, ' ');
    }
    RestIsToken(s, t.next);
  }

  ghost predicate Decides(o: Outcome, min: int, max: int, now: int) {
    (o == Fires || o == Quiet) && (o == Fires ==> min <= now <= max)
  }

  lemma {:induction false} AcceptedRangeDecides(min: int, max: int, s: string, st: int, now: int)
    requires Without(s, ' ') && BarCheck(min, max, s) == Accept && st > 0
    ensures Decides(RangeLoop(s, st, now), min, max, now)
  {
    AcceptedRange(min, max, s);
    var t := StrTok(s, '-', 0);
    LoopFires(Atoi(Text(s, t)), Atoi(s[t.end + 1..]), st, now);
  }

  // The front of a slash term: where its '-' is, if it has one.
  lemma {:induction false} FrontOfSlash(s: string)
    requires StrTok(s, '/', 0).Token?
    ensures var t := StrTok(s, '/', 0); Has(s[..t.end], '-') <==> Has(Text(s, t), '-')
  {
    var t := StrTok(s, '/', 0);
    var cmp := s[t.start..t.end];
    if Has(s[..t.end], '-') {
      var k :| 0 <= k < t.end && s[..t.end][k] == '-';
      assert s[k] != '/';
      assert cmp[k - t.start] == '-';
    }
    if Has(cmp, '-') {
      var k :| 0 <= k < |cmp| && cmp[k] == '-';
      assert s[..t.end][t.start + k] == '-';
    }
  }

  // The parts of an accepted slash term.
  lemma {:induction false} AcceptedStep(min: int, max: int, s: string)
    requires 0 <= min && SlashCheck(min, max, s) == Accept
    ensures var t := StrTok(s, '/', 0);
      t.Token? && StrTok(s, ' ', t.next).Token? && Atoi(Text(s, StrTok(s, ' ', t.next))) >= 1
  {
  }

  lemma {:induction false} AcceptedFront(min: int, max: int, s: string)
    requires SlashCheck(min, max, s) == Accept
    ensures var cmp := Text(s, StrTok(s, '/', 0)); cmp == "*" || BarCheck(min, max, cmp) == Accept
  {
    FrontOfSlash(s);
  }

  lemma {:induction false} SlashDecides(min: int, max: int, cmp: string, st: int, now: int)
    requires st >= 1 && Without(cmp, ' ') && (cmp == "*" || BarCheck(min, max, cmp) == Accept)
    ensures Decides(if cmp == "*" then Loop(min, max, st, now) else RangeLoop(cmp, st, now), min, max, now)
  {
    if cmp == "*" {
      LoopFires(min, max, st, now);
    } else {
      AcceptedRangeDecides(min, max, cmp, st, now);
    }
  }

  lemma {:induction false} SlashTimer(min: int, max: int, s: string, now: int)
    requires Has(s, '/') && FitsBuffers(s)
    ensures var t := StrTok(s, '/', 0);
      var cmp, st := Text(s, t), Atoi(Text(s, StrTok(s, ' ', t.next)));
      Timer(min, max, s, now) == if cmp == "*" then Loop(min, max, st, now) else RangeLoop(cmp, st, now)
  {
  }

  lemma {:induction false} AcceptedSlashDecides(min: int, max: int, s: string, now: int)
    requires 0 <= min && Without(s, ' ') && SlashCheck(min, max, s) == Accept && Has(s, '/') && FitsBuffers(s)
    ensures Decides(Timer(min, max, s, now), min, max, now)
  {
    AcceptedStep(min, max, s);
    AcceptedFront(min, max, s);
    var t := StrTok(s, '/', 0);
    SlashTimer(min, max, s, now);
    SlashDecides(min, max, Text(s, t), Atoi(Text(s, StrTok(s, ' ', t.next))), now);
  }

  // A term without a step, or with one whose parts fit the evaluator's buffers.
  predicate Fits(s: string) { Has(s, '/') ==> FitsBuffers(s) }

  // What the checker accepts, the evaluator decides exactly if it fits: then its
  // loop ends, and it fires at no value outside the field ('*' fires at whatever
  // the clock says).
  lemma {:induction false} AcceptedTermsAreSafe(min: int, max: int, s: string, now: int)
    requires 0 <= min <= max && Without(s, ' ') && CheckTerm(min, max, s) == Accept
    ensures Timer(min, max, s, now) == Fires || Timer(min, max, s, now) == Quiet <==> Fits(s)
    ensures !Fits(s) ==> Timer(min, max, s, now) == Undefined
    ensures Timer(min, max, s, now) == Fires ==> s == "*" || min <= now <= max
  {
    if Has(s, '/') {
      if FitsBuffers(s) {
        AcceptedSlashDecides(min, max, s, now);
      }
    } else if Has(s, '-') {
      AcceptedRangeDecides(min, max, s, 1, now);
    }
  }

  // ------------------------------------------------- the documented terms

  datatype Term = Star | Every(n: nat) | Range(a: nat, b: nat) | RangeEvery(a: nat, b: nat, n: nat) | One(n: nat)

  function DigitChar(d: nat): (c: char)
    requires d < 10
    ensures IsDigit(c) && DigitValue(c) == d
  {
    ('0' as int + d) as char
  }

  // A number in decimal.
  function Dec(n: nat): (s: string)
    ensures s != "" && forall k :: 0 <= k < |s| ==> IsDigit(s[k])
  {
    if n < 10 then [DigitChar(n)] else Dec(n / 10) + [DigitChar(n % 10)]
  }

  function Render(t: Term): string {
    match t
    case Star => "*"
    case Every(n) => "*/" + Dec(n)
    case Range(a, b) => Dec(a) + "-" + Dec(b)
    case RangeEvery(a, b, n) => (Dec(a) + "-" + Dec(b)) + "/" + Dec(n)
    case One(n) => Dec(n)
  }

  lemma {:induction false} DigitsConcat(a: string, b: string, acc: int)
    requires forall k :: 0 <= k < |a| ==> IsDigit(a[k])
    ensures Digits(a + b, acc) == Digits(b, Digits(a, acc))
    decreases |a|
  {
    if a == "" {
      assert a + b == b;
    } else {
      assert (a + b)[1..] == a[1..] + b;
      DigitsConcat(a[1..], b, 10 * acc + DigitValue(a[0]));
    }
  }

  lemma {:induction false} DigitsOfDec(n: nat)
    ensures Digits(Dec(n), 0) == n
  {
    if n < 10 {
      assert Dec(n)[1..] == "";
    } else {
      DigitsOfDec(n / 10);
      DigitsConcat(Dec(n / 10), [DigitChar(n % 10)], 0);
      assert [DigitChar(n % 10)][1..] == "";
    }
  }

  // atoi reads a decimal back.
  lemma {:induction false} AtoiOfDec(n: nat)
    ensures Atoi(Dec(n)) == n
  {
    DigitsOfDec(n);
    assert IsDigit(Dec(n)[0]);
  }

  lemma {:induction false} DecimalPlace(s: string, c: char)
    requires '0' <= c <= '9' && forall k :: 0 <= k < |s| ==> '0' <= s[k] <= '9'
    ensures Digits(s + [c], 0) == 10 * Digits(s, 0) + (c as int - '0' as int)
  {
    DigitsConcat(s, [c], 0);
    assert [c][1..] == "";
  }

  lemma {:induction false} DigitsStop(s: string, acc: int)
    requires s == "" || !IsDigit(s[0])
    ensures Digits(s, acc) == acc
  {
  }

  predicate White(c: char) { c in {' ', '\t', '\n', '\U{B}', '\U{C}', '\r'} }

  lemma {:induction false} UnspacedSkips(sp: string, s: string)
    requires (forall k :: 0 <= k < |sp| ==> White(sp[k])) && (s == "" || !White(s[0]))
    ensures Unspaced(sp + s) == s
    decreases |sp|
  {
    if sp == "" {
      assert sp + s == s;
    } else {
      assert (sp + s)[1..] == sp[1..] + s;
      UnspacedSkips(sp[1..], s);
    }
  }

  // Whatever spaces are in front and whatever comes behind the last digit, atoi
  // reads the number with its sign.
  lemma {:induction false} AtoiOfNumeral(sp: string, sign: string, n: int, rest: string)
    requires n >= 0 && forall k :: 0 <= k < |sp| ==> White(sp[k])
    requires sign == "" || sign == "-" || sign == "+"
    requires rest == "" || !('0' <= rest[0] <= '9')
    ensures Atoi(sp + (sign + (Dec(n) + rest))) == if sign == "-" then -n else n
  {
    assert IsDigit(Dec(n)[0]);
    DigitsConcat(Dec(n), rest, 0);
    DigitsOfDec(n);
    DigitsStop(rest, n);
    UnspacedSkips(sp, sign + (Dec(n) + rest));
    Signed(sign, Dec(n) + rest);
  }

  // And 0 where no digit comes.
  lemma {:induction false} AtoiOfNoNumeral(sp: string, sign: string, rest: string)
    requires forall k :: 0 <= k < |sp| ==> White(sp[k])
    requires sign == "" || sign == "-" || sign == "+"
    requires rest == "" || !('0' <= rest[0] <= '9')
    requires sign == "" ==> rest == "" || !(White(rest[0]) || rest[0] == '-' || rest[0] == '+')
    ensures Atoi(sp + (sign + rest)) == 0
  {
    DigitsStop(rest, 0);
    UnspacedSkips(sp, sign + rest);
    if sign + rest != "" {
      Signed(sign, rest);
    }
  }

  lemma {:induction false} Signed(sign: string, s: string)
    requires sign == "" || sign == "-" || sign == "+"
    requires sign == "" ==> s != "" && !IsSpace(s[0]) && s[0] != '-' && s[0] != '+'
    ensures Atoi(sign + s) == if sign == "-" then -Digits(s, 0) else Digits(s, 0)
  {
    assert sign == "" ==> sign + s == s;
    assert sign != "" ==> (sign + s)[1..] == s;
  }

  // A text in two parts, cut by the separator d.
  lemma {:induction false} CutInTwo(f: string, d: char, g: string)
    requires f != "" && Without(f, d)
    ensures var s := f + [d] + g;
      && StrTok(s, d, 0) == Token(0, |f|, |f| + 1) && Text(s, StrTok(s, d, 0)) == f
      && s[..|f|] == f && s[|f| + 1..] == g && Has(s, d)
  {
    var s := f + [d] + g;
    assert s[0..0 + |f|] == f && s[|f|] == d;
    FieldIsToken(s, d, 0, f, 0);
  }

  lemma {:induction false} BarOfNumbers(min: int, max: int, f: string, g: string)
    requires f != "" && g != "" && g != "*" && Without(f, '-') && Without(g, ' ') && Without(f, ' ')
    ensures BarCheck(min, max, f + ['-'] + g) ==
      if (Atoi(f) != 0 || min == 0) && Atoi(g) != 0 && min <= Atoi(f) < Atoi(g) <= max then Accept else Reject
  {
    var s := f + ['-'] + g;
    CutInTwo(f, '-', g);
    assert Without(s, ' ');
    RestIsToken(s, |f| + 1);
  }

  lemma {:induction false} BarOfRange(min: int, max: int, a: nat, b: nat)
    requires 0 <= min
    ensures BarCheck(min, max, Dec(a) + "-" + Dec(b)) == if min <= a < b <= max then Accept else Reject
  {
    assert IsDigit(Dec(b)[0]);
    BarOfNumbers(min, max, Dec(a), Dec(b));
    AtoiOfDec(a);
    AtoiOfDec(b);
  }

  lemma {:induction false} LoopOfRange(a: nat, b: nat, st: int, now: int)
    requires st > 0
    ensures RangeLoop(Dec(a) + "-" + Dec(b), st, now) == Fires <==> OnStep(a, b, st, now)
  {
    CutInTwo(Dec(a), '-', Dec(b));
    assert Dec(a) + "-" + Dec(b) == Dec(a) + ['-'] + Dec(b);
    AtoiOfDec(a);
    AtoiOfDec(b);
    LoopFires(a, b, st, now);
  }

  // Which terms the manual allows in a field that runs from min to max.
  predicate Allowed(t: Term, min: int, max: int) {
    match t
    case Star => true
    case Every(n) => n != 0 && min <= n <= max
    case Range(a, b) => min <= a < b <= max
    case RangeEvery(a, b, n) => min <= a < b <= max && n != 0 && min <= n <= max
    case One(n) => min <= n <= max
  }

  lemma {:induction false} SlashOfFront(min: int, max: int, front: string, n: nat)
    requires front != "" && Without(front, '/') && Without(front, ' ')
    ensures var s := front + "/" + Dec(n);
      SlashCheck(min, max, s) ==
        var v := if Has(front, '-') then BarCheck(min, max, front) else if front == "*" then Accept else Reject;
        if !v.Accept? then v else if n != 0 && min <= n <= max then Accept else Reject
  {
    var s := front + ['/'] + Dec(n);
    CutInTwo(front, '/', Dec(n));
    assert Without(s, ' ');
    RestIsToken(s, |front| + 1);
    AtoiOfDec(n);
  }

  lemma {:induction false} RangeChars(a: nat, b: nat)
    ensures var s := Dec(a) + "-" + Dec(b); s != "" && Has(s, '-') && Without(s, '/') && Without(s, ' ') && s != "*"
  {
    var s := Dec(a) + "-" + Dec(b);
    assert s[|Dec(a)|] == '-' && IsDigit(Dec(a)[0]) && s[0] == Dec(a)[0];
  }

  lemma {:induction false} DecChars(n: nat, c: char)
    requires !IsDigit(c)
    ensures Without(Dec(n), c) && !Has(Dec(n), c)
  {
  }

  lemma {:induction false} AcceptsEvery(min: int, max: int, n: nat)
    ensures CheckTerm(min, max, Render(Every(n))) == Accept <==> n != 0 && min <= n <= max
  {
    assert "*/" + Dec(n) == "*" + "/" + Dec(n);
    CutInTwo("*", '/', Dec(n));
    SlashOfFront(min, max, "*", n);
  }

  lemma {:induction false} AcceptsRange(min: int, max: int, a: nat, b: nat)
    requires 0 <= min
    ensures CheckTerm(min, max, Render(Range(a, b))) == Accept <==> min <= a < b <= max
  {
    RangeChars(a, b);
    BarOfRange(min, max, a, b);
  }

  lemma {:induction false} AcceptsRangeEvery(min: int, max: int, a: nat, b: nat, n: nat)
    requires 0 <= min
    ensures CheckTerm(min, max, Render(RangeEvery(a, b, n))) == Accept
       <==> min <= a < b <= max && n != 0 && min <= n <= max
  {
    RangeChars(a, b);
    BarOfRange(min, max, a, b);
    CutInTwo(Dec(a) + "-" + Dec(b), '/', Dec(n));
    SlashOfFront(min, max, Dec(a) + "-" + Dec(b), n);
  }

  lemma {:induction false} AcceptsOne(min: int, max: int, n: nat)
    requires 0 <= min <= max
    ensures CheckTerm(min, max, Render(One(n))) == Accept <==> min <= n <= max
  {
    DecChars(n, '/');
    DecChars(n, '-');
    AtoiOfDec(n);
    assert IsDigit(Dec(n)[0]);
  }

  // The checker accepts a documented term exactly when the manual allows it.
  lemma {:induction false} CheckerAcceptsExactlyTheAllowed(t: Term, min: int, max: int)
    requires 0 <= min <= max
    ensures CheckTerm(min, max, Render(t)) == Accept <==> Allowed(t, min, max)
  {
    match t
    case Star =>
    case Every(n) => AcceptsEvery(min, max, n);
    case Range(a, b) => AcceptsRange(min, max, a, b);
    case RangeEvery(a, b, n) => AcceptsRangeEvery(min, max, a, b, n);
    case One(n) => AcceptsOne(min, max, n);
  }

  // The values a documented term stands for, with a step of at least one.
  ghost predicate Means(t: Term, min: int, max: int, now: int)
    requires t.Every? || t.RangeEvery? ==> t.n > 0
  {
    match t
    case Star => true
    case Every(n) => OnStep(min, max, n, now)
    case Range(a, b) => a <= now <= b
    case RangeEvery(a, b, n) => OnStep(a, b, n, now)
    case One(n) => now == n
  }

  lemma {:induction false} DecLength(n: nat)
    ensures |Dec(n)| == 1 <==> n < 10
    ensures n < 100 ==> |Dec(n)| <= 2
  {
    if n >= 10 {
      assert |Dec(n)| == |Dec(n / 10)| + 1;
    }
  }

  lemma {:induction false} PartsOfSlash(front: string, n: nat)
    requires front != "" && Without(front, '/') && Without(front, ' ')
    ensures FitsBuffers(front + "/" + Dec(n)) <==> |front| + 1 <= 6 && n < 10
  {
    var s := front + ['/'] + Dec(n);
    CutInTwo(front, '/', Dec(n));
    assert Without(s, ' ');
    RestIsToken(s, |front| + 1);
    DecLength(n);
  }

  lemma {:induction false} BuffersOfEvery(n: nat)
    ensures FitsBuffers("*/" + Dec(n)) <==> n < 10
  {
    PartsOfSlash("*", n);
    assert "*/" + Dec(n) == "*" + "/" + Dec(n);
  }

  lemma {:induction false} BuffersOfRange(a: nat, b: nat, n: nat)
    requires a < 100 && b < 100
    ensures FitsBuffers((Dec(a) + "-" + Dec(b)) + "/" + Dec(n)) <==> n < 10
  {
    DecLength(a);
    DecLength(b);
    RangeChars(a, b);
    PartsOfSlash(Dec(a) + "-" + Dec(b), n);
  }

  lemma {:induction false} HasSlash(t: Term)
    ensures Has(Render(t), '/') <==> t.Every? || t.RangeEvery?
  {
    match t
    case Star =>
    case Every(n) => assert Render(t)[1] == '/';
    case Range(a, b) => RangeChars(a, b);
    case RangeEvery(a, b, n) => assert Render(t)[|Dec(a) + "-" + Dec(b)|] == '/';
    case One(n) => DecChars(n, '/');
  }

  // In fields of numbers below 100, an accepted term fits exactly if its step,
  // if it has one, is a single digit.
  lemma {:induction false} FitsExactlyWhen(t: Term, min: int, max: int)
    requires 0 <= min <= max < 100 && CheckTerm(min, max, Render(t)) == Accept
    ensures Fits(Render(t)) <==> (t.Every? || t.RangeEvery? ==> t.n < 10)
  {
    HasSlash(t);
    CheckerAcceptsExactlyTheAllowed(t, min, max);
    match t
    case Every(n) => BuffersOfEvery(n);
    case RangeEvery(a, b, n) => BuffersOfRange(a, b, n);
    case _ =>
  }

  lemma {:induction false} TimerOfSlash(min: int, max: int, front: string, n: nat, now: int)
    requires front != "" && Without(front, '/') && Without(front, ' ') && FitsBuffers(front + "/" + Dec(n))
    ensures Timer(min, max, front + "/" + Dec(n), now) ==
      if front == "*" then Loop(min, max, n, now) else RangeLoop(front, n, now)
  {
    var s := front + ['/'] + Dec(n);
    CutInTwo(front, '/', Dec(n));
    assert Without(s, ' ');
    RestIsToken(s, |front| + 1);
    AtoiOfDec(n);
  }

  lemma {:induction false} EveryFires(min: int, max: int, n: nat, now: int)
    requires n > 0 && FitsBuffers(Render(Every(n)))
    ensures Timer(min, max, Render(Every(n)), now) == Fires <==> OnStep(min, max, n, now)
  {
    assert "*/" + Dec(n) == "*" + "/" + Dec(n);
    TimerOfSlash(min, max, "*", n, now);
    LoopFires(min, max, n, now);
  }

  lemma {:induction false} RangeEveryFires(min: int, max: int, a: nat, b: nat, n: nat, now: int)
    requires n > 0 && FitsBuffers(Render(RangeEvery(a, b, n)))
    ensures Timer(min, max, Render(RangeEvery(a, b, n)), now) == Fires <==> OnStep(a, b, n, now)
  {
    RangeChars(a, b);
    TimerOfSlash(min, max, Dec(a) + "-" + Dec(b), n, now);
    LoopOfRange(a, b, n, now);
  }

  lemma {:induction false} NumberFires(min: int, max: int, n: nat, now: int)
    ensures Timer(min, max, Dec(n), now) == Fires <==> n != 0 && now == n
  {
    DecChars(n, '/');
    DecChars(n, '-');
    AtoiOfDec(n);
    assert IsDigit(Dec(n)[0]);
  }

  // The evaluator fires on exactly those values, for every documented term but
  // the number 0, which never fires, and the terms that do not fit.
  lemma {:induction false} EvaluatorFiresExactly(t: Term, min: int, max: int, now: int)
    requires t.Every? || t.RangeEvery? ==> t.n > 0
    ensures Timer(min, max, Render(t), now) == Fires <==> Means(t, min, max, now) && t != One(0) && Fits(Render(t))
  {
    HasSlash(t);
    if Fits(Render(t)) {
      match t
      case Star =>
      case Every(n) => EveryFires(min, max, n, now);
      case Range(a, b) =>
        RangeChars(a, b);
        LoopOfRange(a, b, 1, now);
      case RangeEvery(a, b, n) => RangeEveryFires(min, max, a, b, n, now);
      case One(n) => NumberFires(min, max, n, now);
    }
  }

  // Some value of the field that an allowed term stands for.
  function SomeValue(t: Term, min: int): int {
    match t
    case Star => min
    case Every(_) => min
    case Range(a, _) => a
    case RangeEvery(a, _, _) => a
    case One(n) => n
  }

  lemma {:induction false} SomeValueIsMeant(t: Term, min: int, max: int)
    requires 0 <= min <= max && Allowed(t, min, max)
    ensures min <= SomeValue(t, min) <= max && Means(t, min, max, SomeValue(t, min))
  {
  }

  // So in a field of numbers below 100 an accepted term fires as documented
  // exactly when it is not the number 0 and has no step of two digits.
  lemma {:induction false} FiresAsDocumentedExactlyWhen(t: Term, min: int, max: int)
    requires 0 <= min <= max < 100 && CheckTerm(min, max, Render(t)) == Accept
    ensures Allowed(t, min, max)
    ensures (forall now :: min <= now <= max ==> (Timer(min, max, Render(t), now) == Fires <==> Means(t, min, max, now)))
       <==> t != One(0) && (t.Every? || t.RangeEvery? ==> t.n < 10)
  {
    CheckerAcceptsExactlyTheAllowed(t, min, max);
    FitsExactlyWhen(t, min, max);
    var v := SomeValue(t, min);
    SomeValueIsMeant(t, min, max);
    EvaluatorFiresExactly(t, min, max, v);
    if t != One(0) && Fits(Render(t)) {
      forall now | min <= now <= max
        ensures Timer(min, max, Render(t), now) == Fires <==> Means(t, min, max, now)
      {
        EvaluatorFiresExactly(t, min, max, now);
      }
    }
  }

  // -------------------------------------------------------------- lists of terms

  // The terms of a field, cut at its commas.
  function Terms(s: string, i: nat): seq<string>
    requires i <= |s|
    decreases |s| - i
  {
    var t := StrTok(s, ',', i);
    if t.Nothing? then [] else [Text(s, t)] + Terms(s, t.next)
  }

  // The first verdict that is not to accept, if there is one.
  function CheckAll(min: int, max: int, ts: seq<string>): Verdict
    decreases |ts|
  {
    if ts == [] then Accept
    else if CheckTerm(min, max, ts[0]) != Accept then CheckTerm(min, max, ts[0])
    else CheckAll(min, max, ts[1..])
  }

  // grammar_check.
  function CheckField(min: int, max: int, input: string): Verdict {
    if Has(input, ',') then CheckAll(min, max, Terms(input, 0)) else CheckTerm(min, max, input)
  }

  lemma {:induction false} CheckAllAccepts(min: int, max: int, ts: seq<string>)
    ensures CheckAll(min, max, ts) == Accept <==> forall k :: 0 <= k < |ts| ==> CheckTerm(min, max, ts[k]) == Accept
    decreases |ts|
  {
    if ts != [] {
      CheckAllAccepts(min, max, ts[1..]);
      assert forall k :: 1 <= k < |ts| ==> ts[k] == ts[1..][k - 1];
      assert forall k :: 0 <= k < |ts| - 1 ==> ts[1..][k] == ts[k + 1];
    }
  }

  // The verdict on a list that is not accepted is that on its first such term.
  lemma {:induction false} FirstVerdictCounts(min: int, max: int, ts: seq<string>, k: nat)
    requires k < |ts| && CheckTerm(min, max, ts[k]) != Accept
    requires forall j :: 0 <= j < k ==> CheckTerm(min, max, ts[j]) == Accept
    ensures CheckAll(min, max, ts) == CheckTerm(min, max, ts[k])
    decreases k
  {
    if k > 0 {
      assert forall j :: 0 <= j < k - 1 ==> ts[1..][j] == ts[j + 1];
      FirstVerdictCounts(min, max, ts[1..], k - 1);
    }
  }

  lemma {:induction false} TermsHaveNoSpaces(s: string, i: nat)
    requires i <= |s| && Without(s, ' ')
    ensures forall k :: 0 <= k < |Terms(s, i)| ==> Without(Terms(s, i)[k], ' ')
    decreases |s| - i
  {
    var t := StrTok(s, ',', i);
    if t.Token? {
      TermsHaveNoSpaces(s, t.next);
    }
  }

  // Every term of an accepted list that fits is decided by the evaluator and
  // fires only inside the field.
  lemma {:induction false} AcceptedListsAreSafe(min: int, max: int, input: string, k: nat, now: int)
    requires 0 <= min <= max && Without(input, ' ') && Has(input, ',') && CheckField(min, max, input) == Accept
    requires k < |Terms(input, 0)|
    ensures var s := Terms(input, 0)[k];
      var o := Timer(min, max, s, now);
      && (o == Fires || o == Quiet <==> Fits(s)) && (!Fits(s) ==> o == Undefined)
      && (o == Fires ==> s == "*" || min <= now <= max)
  {
    CheckAllAccepts(min, max, Terms(input, 0));
    TermsHaveNoSpaces(input, 0);
    AcceptedTermsAreSafe(min, max, Terms(input, 0)[k], now);
  }

  // ----------------------------------------------------------------- the programs

  // The terms from where the next strtok finds one.
  ghost function TermsFrom(s: string, ptr: Found): seq<string>
    requires ptr.Token? ==> ptr.start <= ptr.end <= ptr.next <= |s|
  {
    if ptr.Token? then [Text(s, ptr)] + Terms(s, ptr.next) else []
  }

  // The first loop of grammar_check: cut the field at its commas.
  method SplitTerms(input: string) returns (arr: seq<string>)
    ensures arr == Terms(input, 0)
  {
    arr := [];
    var ptr := StrTok(input, ',', 0);
    while ptr.Token?
      invariant ptr.Token? ==> ptr.start <= ptr.end <= ptr.next <= |input|
      invariant Terms(input, 0) == arr + TermsFrom(input, ptr)
      decreases if ptr.Token? then |input| - ptr.next + 1 else 0
    {
      Regroup(arr, [Text(input, ptr)], Terms(input, ptr.next));
      arr := arr + [Text(input, ptr)];
      ptr := StrTok(input, ',', ptr.next);
    }
  }

  lemma {:induction false} CheckAllStep(min: int, max: int, arr: seq<string>, i: nat)
    requires i < |arr|
    ensures CheckAll(min, max, arr[i..]) ==
      if CheckTerm(min, max, arr[i]) != Accept then CheckTerm(min, max, arr[i]) else CheckAll(min, max, arr[i + 1..])
  {
    assert arr[i..][1..] == arr[i + 1..];
  }

  // The second loop: check the parts until one is not right.
  method CheckTerms(min: int, max: int, arr: seq<string>) returns (v: Verdict)
    ensures v == CheckAll(min, max, arr)
  {
    var i := 0;
    assert arr[0..] == arr;
    while i < |arr|
      invariant 0 <= i <= |arr| && CheckAll(min, max, arr) == CheckAll(min, max, arr[i..])
    {
      CheckAllStep(min, max, arr, i);
      v := CheckTerm(min, max, arr[i]);
      if v != Accept {
        return v;
      }
      i := i + 1;
    }
    v := Accept;
  }

  method GrammarCheck(min: int, max: int, input: string) returns (v: Verdict)
    ensures v == CheckField(min, max, input)
  {
    if Has(input, ',') {
      var arr := SplitTerms(input);
      v := CheckTerms(min, max, arr);
    } else {
      v := CheckTerm(min, max, input);
    }
  }

  // The loop of timer, with its flag; with a step that is not positive the
  // program does not come out of it.
  method TimerLoop(first: int, last: int, st: int, now: int) returns (o: Outcome)
    ensures o == Loop(first, last, st, now)
  {
    if first <= last && st <= 0 {
      return Forever;
    }
    var ox := 0;
    var i := first;
    while i <= last
      invariant first <= last ==> st > 0
      invariant ox == 1 ==> Loop(first, last, st, now) == Fires
      invariant ox != 1 ==> Loop(first, last, st, now) == Loop(i, last, st, now)
      decreases last - i
    {
      if st > 0 { LoopFires(i, last, st, now); LoopFires(i + st, last, st, now); }
      if i == now {
        ox := 1;
      }
      i := i + st;
    }
    o := if ox == 1 then Fires else Quiet;
  }

  // Whether evaluating a term calls strtok: timer itself does for a '/' or a
  // '-', and comparetime always does.
  predicate CallsStrtok(input: string) {
    Has(input, '/') || Has(input, '-') || (input != "*" && Atoi(input) != 0)
  }

  // The two numbers of a range, and the loop over it.
  method RunRange(range: string, st: int, now: int) returns (o: Outcome)
    ensures o == RangeLoop(range, st, now)
  {
    var ptr := StrTok(range, '-', 0);
    if ptr.Nothing? || ptr.end == |range| { return Outcome.Undefined; }
    o := TimerLoop(Atoi(Text(range, ptr)), Atoi(range[ptr.end + 1..]), st, now);
  }

  // A term with a '/': its two parts go into range and stand.
  method RunSlash(min: int, max: int, input: string, now: int) returns (o: Outcome)
    requires Has(input, '/')
    ensures o == Timer(min, max, input, now)
  {
    var ptr := StrTok(input, '/', 0);
    if ptr.Nothing? || |Text(input, ptr)| >= 6 { return Outcome.Undefined; }
    var range := Text(input, ptr);
    var stand := StrTok(input, ' ', ptr.next);
    if stand.Nothing? || |Text(input, stand)| >= 2 { return Outcome.Undefined; }
    var st := Atoi(Text(input, stand));
    if range == "*" {
      o := TimerLoop(min, max, st, now);
    } else {
      o := RunRange(range, st, now);
    }
  }

  // What timer returns, and whether it has called strtok.
  method RunTimer(min: int, max: int, input: string, now: int) returns (o: Outcome, called: bool)
    ensures o == Timer(min, max, input, now)
    ensures called <==> CallsStrtok(input)
  {
    called := true;
    if Has(input, '/') {
      o := RunSlash(min, max, input, now);
      return;
    }
    if Has(input, '-') {
      o := RunRange(input, 1, now);
      return;
    }
    if input == "*" { return Fires, false; }
    var num := Atoi(input);
    if num != 0 {
      o := if num == now then Fires else Quiet;
    } else {
      o, called := Quiet, false;
    }
  }
}
