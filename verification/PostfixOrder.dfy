// In what order the tokens of a text come out of the rearrangement in
// Project8/ssu_string.c: which of two operators comes first, and what a bracket,
// a stray closing bracket and the end of a text mean for that.
module PostfixOrder {
  import opened Common
  import opened Postfix

  // ------------------------------------------------------------ kinds of tokens

  // A token's kind is that of its first character.
  const OPERATOR_CHARS := {'*', '+', '-', '/', '%', '=', '!', '>', '<', '&', '|', '^', '~', '.', ',', ':'}

  lemma {:induction false} KindsByFirstCharacter(t: Tok)
    ensures IsOpen(t) <==> t.str != "" && t.str[0] in {'(', '['}
    ensures IsClose(t) <==> t.str != "" && t.str[0] in {')', ']'}
    ensures IsOperand(t) <==> t.str == "" || t.str[0] !in OPERATOR_CHARS + {'(', '[', ')', ']'}
    ensures IsOperator(t) <==> t.str != "" && t.str[0] in OPERATOR_CHARS && t.str != ":"
  {
  }

  // ----------------------------------------------------------- one before another

  // x stands before y.
  ghost predicate Comes(l: seq<Tok>, x: Tok, y: Tok) {
    exists i, j :: 0 <= i < j < |l| && l[i] == x && l[j] == y
  }

  lemma {:induction false} ComesAt(l: seq<Tok>, i: nat, j: nat)
    requires i < j < |l|
    ensures Comes(l, l[i], l[j])
  {
  }

  lemma {:induction false} ComesAcross(a: seq<Tok>, b: seq<Tok>, i: nat, j: nat)
    requires i < |a| && j < |b|
    ensures Comes(a + b, a[i], b[j])
  {
    ComesAt(a + b, i, |a| + j);
  }

  // Putting something in between, or taking another token out, changes nothing.
  lemma {:induction false} ComesInserted(a: seq<Tok>, m: seq<Tok>, b: seq<Tok>, x: Tok, y: Tok)
    requires Comes(a + b, x, y)
    ensures Comes(a + m + b, x, y)
  {
    var l := a + m + b;
    var i, j :| 0 <= i < j < |a + b| && (a + b)[i] == x && (a + b)[j] == y;
    var i', j' := if i < |a| then i else i + |m|, if j < |a| then j else j + |m|;
    assert l[i'] == x && l[j'] == y;
  }

  lemma {:induction false} ComesDropped(a: seq<Tok>, d: Tok, b: seq<Tok>, x: Tok, y: Tok)
    requires Comes(a + [d] + b, x, y) && x != d && y != d
    ensures Comes(a + b, x, y)
  {
    var l := a + [d] + b;
    var i, j :| 0 <= i < j < |l| && l[i] == x && l[j] == y;
    var i', j' := if i < |a| then i else i - 1, if j < |a| then j else j - 1;
    assert (a + b)[i'] == x && (a + b)[j'] == y;
  }

  // What is out and what waits, in the order in which it would come out now.
  ghost function Line(st: St): seq<Tok> { st.out + st.stack }

  // A step puts its token somewhere behind what is out, and may drop a bracket:
  // for tokens it has already read it decides nothing.
  lemma {:induction false} StepKeepsOrder(st: St, t: Tok, x: Tok, y: Tok)
    requires Comes(Line(st), x, y) && !IsBracket(x) && !IsBracket(y)
    ensures Comes(Line(Step(st, t)), x, y)
  {
    var k, drop, dest := StepShape(st, t);
    ShapedKeepsOrder(st, t, Step(st, t), k, drop, dest, x, y);
  }

  lemma {:induction false} SplitLine(out: seq<Tok>, stack: seq<Tok>, k: nat, drop: bool)
    requires k <= |stack| && (drop ==> k < |stack|)
    ensures out + stack == out + stack[..k] + (if drop then [stack[k]] else []) + stack[if drop then k + 1 else k..]
  {
  }

  lemma {:induction false} ShapedLine(st: St, t: Tok, st': St, k: nat, drop: bool, dest: Dest)
    requires Shaped(st, t, st', k, drop, dest)
    ensures Line(st') == st.out + st.stack[..k] + (if dest.Away? then [] else [t]) + st.stack[if drop then k + 1 else k..]
  {
  }

  lemma {:induction false} ShapedKeepsOrder(st: St, t: Tok, st': St, k: nat, drop: bool, dest: Dest, x: Tok, y: Tok)
    requires Shaped(st, t, st', k, drop, dest)
    requires Comes(Line(st), x, y) && !IsBracket(x) && !IsBracket(y)
    ensures Comes(Line(st'), x, y)
  {
    var a, rest := st.out + st.stack[..k], st.stack[if drop then k + 1 else k..];
    SplitLine(st.out, st.stack, k, drop);
    ShapedLine(st, t, st', k, drop, dest);
    if drop {
      ComesDropped(a, st.stack[k], rest, x, y);
    } else {
      assert a + [] + rest == a + rest;
    }
    ComesInserted(a, if dest.Away? then [] else [t], rest, x, y);
  }

  lemma {:induction false} RunKeepsOrder(st: St, ts: seq<Tok>, x: Tok, y: Tok)
    requires Comes(Line(st), x, y) && !IsBracket(x) && !IsBracket(y)
    ensures Comes(Line(Run(st, ts)), x, y)
    decreases |ts|
  {
    if ts != [] {
      StepKeepsOrder(st, ts[0], x, y);
      RunKeepsOrder(Step(st, ts[0]), ts[1..], x, y);
    }
  }

  // So what is out when a token is read comes before it,
  lemma {:induction false} OutComesFirst(st: St, i: nat, t: Tok)
    requires i < |st.out| && !IsBracket(t)
    ensures Comes(Line(Step(st, t)), st.out[i], t)
  {
    var k, drop, dest := StepShape(st, t);
    ShapedLine(st, t, Step(st, t), k, drop, dest);
    ComesAt(Line(Step(st, t)), i, |st.out| + k);
  }

  // and what waits behind the step, but was there before it, comes after.
  lemma {:induction false} WaitingComesLast(st: St, t: Tok, rest: seq<Tok>, j: nat)
    requires !IsBracket(t) && j < |rest|
    requires Step(st, t).stack == rest || Step(st, t).stack == [t] + rest
    requires Step(st, t).stack == rest ==> Step(st, t).out != [] && Step(st, t).out[|Step(st, t).out| - 1] == t
    ensures Comes(Line(Step(st, t)), t, rest[j])
  {
    var st' := Step(st, t);
    if st'.stack == rest {
      ComesAcross(st'.out, rest, |st'.out| - 1, j);
    } else {
      ComesAt(Line(st'), |st'.out|, |st'.out| + 1 + j);
    }
  }

  lemma {:induction false} ReadUpTo(ts: seq<Tok>, q: nat)
    requires q < |ts|
    ensures Run(START, ts) == Run(Step(Run(START, ts[..q]), ts[q]), ts[q + 1..])
    ensures Run(START, ts[..q + 1]) == Step(Run(START, ts[..q]), ts[q])
  {
    assert ts == ts[..q] + ts[q..] && ts[q..][0] == ts[q] && ts[q..][1..] == ts[q + 1..];
    RunConcat(START, ts[..q], ts[q..]);
    assert ts[..q + 1] == ts[..q] + [ts[q]] && [ts[q]][1..] == [];
    RunConcat(START, ts[..q], [ts[q]]);
  }

  // An order that holds when the later token has been read is final.
  lemma {:induction false} OrderIsFinal(ts: seq<Tok>, q: nat, x: Tok, y: Tok)
    requires q < |ts| && Comes(Line(Step(Run(START, ts[..q]), ts[q])), x, y) && !IsBracket(x) && !IsBracket(y)
    ensures Comes(ToPostfix(ts), x, y)
  {
    ReadUpTo(ts, q);
    RunKeepsOrder(Step(Run(START, ts[..q]), ts[q]), ts[q + 1..], x, y);
  }

  // ------------------------------------------------------------- never both ways

  lemma {:induction false} SameInFilter(l: seq<Tok>, i: nat)
    requires i < |l| && !IsBracket(l[i])
    ensures |NonBrackets(l[..i])| < |NonBrackets(l)| && NonBrackets(l)[|NonBrackets(l[..i])|] == l[i]
  {
    assert l == l[..i] + ([l[i]] + l[i + 1..]);
    NonBracketsConcat(l[..i], [l[i]] + l[i + 1..]);
    assert ([l[i]] + l[i + 1..])[1..] == l[i + 1..];
  }

  lemma {:induction false} TwiceCounts(s: seq<Tok>, i: nat, j: nat)
    requires i < j < |s| && s[i] == s[j]
    ensures multiset(s)[s[i]] >= 2
  {
    assert s == s[..j] + s[j..];
    assert s[i] in s[..j] && s[j] == s[j..][0];
    assert multiset(s) == multiset(s[..j]) + multiset(s[j..]);
  }

  lemma {:induction false} TwiceInFilter(l: seq<Tok>, i: nat, j: nat)
    requires i < j < |l| && l[i] == l[j] && !IsBracket(l[i])
    ensures multiset(NonBrackets(l))[l[i]] >= 2
  {
    SameInFilter(l, i);
    SameInFilter(l, j);
    assert l[..j] == l[..i] + l[i..j];
    NonBracketsConcat(l[..i], l[i..j]);
    assert l[i..j][0] == l[i];
    TwiceCounts(NonBrackets(l), |NonBrackets(l[..i])|, |NonBrackets(l[..j])|);
  }

  lemma {:induction false} OnceInText(ts: seq<Tok>, from: nat, x: Tok)
    requires Numbered(ts, from)
    ensures multiset(NonBrackets(ts))[x] <= 1
    ensures x in NonBrackets(ts) ==> from <= x.pos
    decreases |ts|
  {
    if ts != [] {
      OnceInText(ts[1..], from + 1, x);
    }
  }

  // No token comes both before and after another.
  lemma {:induction false} NotBothWays(ts: seq<Tok>, x: Tok, y: Tok)
    requires Numbered(ts, 0) && !IsBracket(x) && !IsBracket(y)
    requires Comes(ToPostfix(ts), x, y)
    ensures !Comes(ToPostfix(ts), y, x)
  {
    var l := ToPostfix(ts);
    var i, j :| 0 <= i < j < |l| && l[i] == x && l[j] == y;
    EveryNonBracketComesOutOnce(ts);
    OnceInText(ts, 0, x);
    OnceInText(ts, 0, y);
    forall i', j' | 0 <= i' < j' < |l| && l[i'] == y
      ensures l[j'] != x
    {
      OnlyPlace(l, x, i, j');
      OnlyPlace(l, y, j, i');
    }
  }

  lemma {:induction false} OnlyPlace(l: seq<Tok>, x: Tok, i: nat, j: nat)
    requires i < |l| && j < |l| && l[i] == x && !IsBracket(x) && multiset(NonBrackets(l))[x] <= 1
    ensures l[j] == x ==> i == j
  {
    if l[j] == x && i != j {
      TwiceInFilter(l, if i < j then i else j, if i < j then j else i);
    }
  }

  // ------------------------------------------------------------------ the brackets

  // How many brackets a text leaves open, as the program counts them: one
  // labelled POST_OP does not count outside brackets.
  function Depth(ts: seq<Tok>, d: nat): nat
    decreases |ts|
  {
    if ts == [] then d else Depth(ts[1..], DepthStep(ts[0], d))
  }

  function DepthStep(t: Tok, d: nat): nat {
    if IsOpen(t) && !IsColon(t) then if d == 0 && t.operands == POST_OP then 0 else d + 1
    else if IsClose(t) && !IsColon(t) && d > 0 then d - 1
    else d
  }

  // The program counts all of them, and no bracket waits that is not counted.
  ghost predicate Counted(st: St, d: nat) { st.cnt == d && Brackets(st.stack) <= d }

  lemma {:induction false} CountedPop(st: St, d: nat)
    requires Brackets(st.stack) <= d
    ensures Brackets(PopToOpen(st).stack) <= if d > 0 then d - 1 else 0
    ensures Brackets(PopToOpen(st).stack) <= Brackets(st.stack)
  {
    NoBrackets(st.stack);
    if OpenAt(st.stack) < |st.stack| {
      BracketsBelowOpen(st.stack);
    }
  }

  lemma {:induction false} StepCounted(st: St, t: Tok, d: nat)
    requires Counted(st, d)
    ensures Counted(Step(st, t), DepthStep(t, d))
  {
    NoBrackets(st.stack);
    BracketsConcat([t], st.stack);
    CountedPop(st, d);
    if d > 0 {
      PopAnyCount(st, d - 1);
    }
    if st.stack != [] {
      BracketsConcat([t], st.stack[1..]);
    }
  }

  lemma {:induction false} RunCounted(st: St, ts: seq<Tok>, d: nat)
    requires Counted(st, d)
    ensures Counted(Run(st, ts), Depth(ts, d))
    decreases |ts|
  {
    if ts != [] {
      StepCounted(st, ts[0], d);
      RunCounted(Step(st, ts[0]), ts[1..], DepthStep(ts[0], d));
    }
  }

  // A text that stays within the brackets it starts in: it closes no bracket but
  // its own, has no ':', and no bracket labelled POST_OP. d of its own are open.
  predicate Steady(ts: seq<Tok>, d: nat)
    decreases |ts|
  {
    if ts == [] then true
    else if IsColon(ts[0]) || (IsBracket(ts[0]) && ts[0].operands == POST_OP) then false
    else if IsClose(ts[0]) then d > 0 && Steady(ts[1..], d - 1)
    else Steady(ts[1..], if IsOpen(ts[0]) then d + 1 else d)
  }

  function Deeper(t: Tok, d: nat): nat { if IsOpen(t) then d + 1 else if IsClose(t) && d > 0 then d - 1 else d }

  // And it has no operator outside its own brackets.
  predicate NoOperator(ts: seq<Tok>, d: nat)
    decreases |ts|
  {
    ts == [] || (!(d == 0 && IsOperator(ts[0])) && NoOperator(ts[1..], Deeper(ts[0], d)))
  }

  // ------------------------------------------------- what a steady text leaves alone

  // The stack is u, from the text's own brackets, on w, from its operators
  // outside them, on what was there before.
  ghost predicate Above(st: St, u: seq<Tok>, w: seq<Tok>, base: seq<Tok>, d: nat, c: nat) {
    && st.stack == u + w + base && st.cnt == c + d && Brackets(u) == d
    && (u != [] ==> d > 0 && IsOpen(u[|u| - 1]))
    && (forall j :: 0 <= j < |w| ==> !IsOpen(w[j]))
  }

  function SteadyDepth(t: Tok, d: nat): int { if IsOpen(t) then d + 1 else if IsClose(t) then d - 1 else d }

  function DepthOf(ts: seq<Tok>, d: nat): nat
    requires Steady(ts, d)
    decreases |ts|
  {
    if ts == [] then d else DepthOf(ts[1..], SteadyDepth(ts[0], d))
  }

  lemma {:induction false} OpenAbove(u: seq<Tok>, rest: seq<Tok>)
    requires Brackets(u) > 0
    ensures OpenAt(u + rest) == OpenAt(u) < |u|
  {
    NoBrackets(u);
    if !IsOpen(u[0]) {
      assert (u + rest)[1..] == u[1..] + rest;
      OpenAbove(u[1..], rest);
    }
  }

  lemma {:induction false} LastIsOpen(u: seq<Tok>)
    requires u != [] && IsOpen(u[|u| - 1])
    ensures Brackets(u) > 0
  {
    NoBrackets(u);
  }

  lemma {:induction false} OneStack(u: seq<Tok>, w: seq<Tok>, base: seq<Tok>, b: nat)
    requires b <= |u|
    ensures (u + w + base)[b..] == u[b..] + w + base && (u + w + base)[..b] == u[..b]
    ensures u + w + base == u + (w + base)
  {
  }

  // What the stack is after a step of a steady text.
  lemma {:induction false} CloseAbove(st: St, t: Tok, u: seq<Tok>, w: seq<Tok>, base: seq<Tok>, d: nat, c: nat) returns (u': seq<Tok>)
    requires Above(st, u, w, base, d, c) && IsClose(t) && !IsColon(t) && d > 0
    ensures Above(Step(st, t), u', w, base, d - 1, c)
  {
    var b := OpenAt(u);
    OneStack(u, w, base, 0);
    OpenAbove(u, w + base);
    OneStack(u, w, base, b + 1);
    u' := u[b + 1..];
    BracketsBelowOpen(u);
    if u' != [] {
      LastIsOpen(u');
    }
  }

  lemma {:induction false} OperatorAbove(st: St, t: Tok, u: seq<Tok>, w: seq<Tok>, base: seq<Tok>, d: nat, c: nat)
    returns (u': seq<Tok>, w': seq<Tok>)
    requires Above(st, u, w, base, d, c) && IsOperator(t) && (d == 0 && c == 0 ==> w != [])
    ensures Above(Step(st, t), u', w', base, d, c) && (w != [] ==> w' != []) && (d > 0 ==> w' == w)
    ensures Step(st, t).stack != [] && Step(st, t).stack[0] == t && |u'| + |w'| > 0
  {
    if d > 0 {
      LastOf(t, u);
      u', w' := [t] + u, w;
      assert [t] + (u + w + base) == u' + w + base;
      assert u' [1..] == u;
    } else {
      u' := [];
      if c == 0 && Yields(st.stack[0], t) {
        w' := [t] + w[1..];
        assert st.stack[1..] == w[1..] + base;
        assert [t] + (w[1..] + base) == [] + w' + base;
      } else {
        w' := [t] + w;
        assert [t] + (u + w + base) == [] + w' + base;
      }
    }
  }

  lemma {:induction false} LastOf(t: Tok, u: seq<Tok>)
    requires u != []
    ensures ([t] + u)[|u|] == u[|u| - 1]
  {
  }

  lemma {:induction false} OpensAbove(st: St, t: Tok, u: seq<Tok>, w: seq<Tok>, base: seq<Tok>, d: nat, c: nat)
    requires Above(st, u, w, base, d, c) && IsOpen(t) && !IsColon(t) && t.operands != POST_OP
    ensures Above(Step(st, t), [t] + u, w, base, d + 1, c)
  {
    assert [t] + (u + w + base) == [t] + u + w + base;
    assert ([t] + u)[1..] == u;
    if u != [] {
      LastOf(t, u);
    }
  }

  lemma {:induction false} SteadyStep(st: St, t: Tok, rest: seq<Tok>, u: seq<Tok>, w: seq<Tok>, base: seq<Tok>, d: nat, c: nat)
    returns (u': seq<Tok>, w': seq<Tok>)
    requires Above(st, u, w, base, d, c) && Steady([t] + rest, d)
    requires c > 0 || w != [] || !(d == 0 && IsOperator(t))
    ensures SteadyDepth(t, d) >= 0 && Steady(rest, SteadyDepth(t, d))
    ensures Above(Step(st, t), u', w', base, SteadyDepth(t, d), c)
    ensures (w != [] ==> w' != []) && (!(d == 0 && IsOperator(t)) ==> w' == w)
    ensures IsOperand(t) ==> Step(st, t).out == st.out + [t]
    ensures IsOperator(t) ==> Step(st, t).stack != [] && Step(st, t).stack[0] == t && |u'| + |w'| > 0
  {
    assert ([t] + rest)[1..] == rest;
    if IsOperand(t) {
      u', w' := u, w;
    } else if IsOpen(t) {
      OpensAbove(st, t, u, w, base, d, c);
      u', w' := [t] + u, w;
    } else if IsClose(t) {
      u' := CloseAbove(st, t, u, w, base, d, c);
      w' := w;
    } else {
      u', w' := OperatorAbove(st, t, u, w, base, d, c);
    }
  }

  // A token read meanwhile comes before all that was waiting already.
  lemma {:induction false} ReadMeanwhile(st: St, t: Tok, u: seq<Tok>, w: seq<Tok>, base: seq<Tok>, d: nat, c: nat, j: nat)
    requires Above(st, u, w, base, d, c) && Steady([t], d) && !IsBracket(t) && j < |base|
    requires c > 0 || w != [] || !(d == 0 && IsOperator(t))
    ensures Comes(Line(Step(st, t)), t, base[j])
  {
    var u', w' := SteadyStep(st, t, [], u, w, base, d, c);
    var st' := Step(st, t);
    var at := |st'.out| + |u'| + |w'| + j;
    assert Line(st')[at] == base[j];
    ComesAt(Line(st'), if IsOperand(t) then |st'.out| - 1 else |st'.out|, at);
  }

  lemma {:induction false} SteadyRun(st: St, ts: seq<Tok>, u: seq<Tok>, w: seq<Tok>, base: seq<Tok>, d: nat, c: nat)
    returns (u': seq<Tok>, w': seq<Tok>)
    requires Above(st, u, w, base, d, c) && Steady(ts, d) && (c > 0 || w != [] || NoOperator(ts, d))
    ensures Above(Run(st, ts), u', w', base, DepthOf(ts, d), c)
    ensures (w != [] ==> w' != []) && (NoOperator(ts, d) ==> w' == w)
    decreases |ts|
  {
    if ts == [] {
      u', w' := u, w;
    } else {
      HeadAndTail(ts);
      u', w' := SteadyStep(st, ts[0], ts[1..], u, w, base, d, c);
      u', w' := SteadyRun(Step(st, ts[0]), ts[1..], u', w', base, SteadyDepth(ts[0], d), c);
    }
  }

  // ------------------------------------------------------------------- the numbers

  // The number that ranks an operator: 1 behind an operand, 2 before one, and by
  // the tables between two.
  predicate HasNumber(t: Tok, n: int) {
    || (t.operands == POST_OP && n == 1)
    || (t.operands == PRE_OP && n == 2)
    || (t.operands == TWO_OP && TableNumber(t.str, n))
    || (t.operands !in {POST_OP, PRE_OP, TWO_OP} && n == if t.str == "," then 15 else 0)
  }

  predicate TableNumber(str: string, n: int) {
    || (|str| == 1 && str[0] in SINGLES && n == SINGLES[str[0]])
    || (|str| != 1 && str in PAIRS && n == PAIRS[str])
    || (!(|str| == 1 && str[0] in SINGLES) && !(|str| != 1 && str in PAIRS) && n == ASSIGNMENT)
  }

  lemma {:induction false} YieldsByNumber(x: Tok, y: Tok, m: int, n: int)
    requires HasNumber(x, m) && HasNumber(y, n)
    ensures Yields(x, y) <==> n >= m
  {
  }

  // -------------------------------------------------------- what comes before what

  // The text before place p is outside brackets, as the program counts them.
  predicate Outside(ts: seq<Tok>, p: nat)
    requires p <= |ts|
  {
    Depth(ts[..p], 0) == 0
  }

  lemma {:induction false} CountedAt(ts: seq<Tok>, p: nat)
    requires p <= |ts|
    ensures Counted(Run(START, ts[..p]), Depth(ts[..p], 0))
  {
    RunCounted(START, ts[..p], 0);
  }

  // An operator goes on top of what then waits, and moves nothing it stands on.
  lemma {:induction false} OperatorWaits(st: St, x: Tok, d: nat) returns (base: seq<Tok>)
    requires Counted(st, d) && IsOperator(x)
    ensures base != [] && base[0] == x && Above(Step(st, x), [], [], base, 0, d)
  {
    base := Step(st, x).stack;
    StepCounted(st, x, d);
    assert [] + [] + base == base;
  }

  lemma {:induction false} RunBetween(ts: seq<Tok>, p: nat, q: nat)
    requires p <= q <= |ts|
    ensures Run(START, ts[..q]) == Run(Run(START, ts[..p]), ts[p..q])
  {
    assert ts[..q] == ts[..p] + ts[p..q];
    RunConcat(START, ts[..p], ts[p..q]);
  }

  lemma {:induction false} SteadyLast(ts: seq<Tok>, t: Tok, d: nat)
    requires Steady(ts + [t], d)
    ensures Steady(ts, d) && Steady([t], DepthOf(ts, d))
    ensures NoOperator(ts + [t], d) ==> NoOperator(ts, d) && !(DepthOf(ts, d) == 0 && IsOperator(t))
    decreases |ts|
  {
    if ts == [] {
      assert ts + [t] == [t];
    } else {
      assert (ts + [t])[0] == ts[0] && (ts + [t])[1..] == ts[1..] + [t];
      SteadyLast(ts[1..], t, SteadyDepth(ts[0], d));
    }
  }

  // What is read while base waits comes before all of it.
  lemma {:induction false} ReadWhileWaiting(ts: seq<Tok>, p: nat, r: nat, w: seq<Tok>, base: seq<Tok>, c: nat, j: nat)
    requires p <= r < |ts| && j < |base| && !IsBracket(ts[r]) && !IsBracket(base[j])
    requires Above(Run(START, ts[..p]), [], w, base, 0, c) && Steady(ts[p..r + 1], 0)
    requires c > 0 || w != [] || NoOperator(ts[p..r + 1], 0)
    ensures Comes(ToPostfix(ts), ts[r], base[j])
  {
    var mid := ts[p..r];
    assert ts[p..r + 1] == mid + [ts[r]];
    SteadyLast(mid, ts[r], 0);
    RunBetween(ts, p, r);
    var u', w' := SteadyRun(Run(START, ts[..p]), mid, [], w, base, 0, c);
    ReadMeanwhile(Run(START, ts[..r]), ts[r], u', w', base, DepthOf(mid, 0), c, j);
    OrderIsFinal(ts, r, ts[r], base[j]);
  }

  // What is out before a token is read comes before it.
  lemma {:induction false} OutBefore(ts: seq<Tok>, p: nat, r: nat, x: Tok)
    requires p <= r < |ts| && x in Run(START, ts[..p]).out && !IsBracket(x) && !IsBracket(ts[r])
    ensures Comes(ToPostfix(ts), x, ts[r])
  {
    RunBetween(ts, p, r);
    var more := OutGrows(Run(START, ts[..p]), ts[p..r]);
    var i :| 0 <= i < |Run(START, ts[..p]).out| && Run(START, ts[..p]).out[i] == x;
    assert Run(START, ts[..r]).out[i] == x;
    OutComesFirst(Run(START, ts[..r]), i, ts[r]);
    OrderIsFinal(ts, r, x, ts[r]);
  }

  // An operator comes behind everything that follows it inside the same brackets,
  // and behind what follows it up to the next operator if there are none.
  lemma {:induction false} OperandsComeFirst(ts: seq<Tok>, p: nat, r: nat)
    requires p < r < |ts| && IsOperator(ts[p]) && !IsBracket(ts[r]) && Steady(ts[p + 1..r + 1], 0)
    requires !Outside(ts, p) || NoOperator(ts[p + 1..r + 1], 0)
    ensures Comes(ToPostfix(ts), ts[r], ts[p])
  {
    CountedAt(ts, p);
    var base := OperatorWaits(Run(START, ts[..p]), ts[p], Depth(ts[..p], 0));
    ReadUpTo(ts, p);
    ReadWhileWaiting(ts, p + 1, r, [], base, Depth(ts[..p], 0), 0);
  }

  // Operators at p and q outside brackets, with only operands and bracketed texts
  // between them.
  ghost predicate Neighbours(ts: seq<Tok>, p: nat, q: nat) {
    && p < q < |ts| && IsOperator(ts[p]) && IsOperator(ts[q]) && Outside(ts, p)
    && Steady(ts[p + 1..q], 0) && DepthOf(ts[p + 1..q], 0) == 0 && NoOperator(ts[p + 1..q], 0)
  }

  // When the second is read, the first is on top.
  lemma {:induction false} FirstOnTop(ts: seq<Tok>, p: nat, q: nat) returns (base: seq<Tok>)
    requires Neighbours(ts, p, q)
    ensures base != [] && base[0] == ts[p]
    ensures Run(START, ts[..q]).stack == base && Run(START, ts[..q]).cnt == 0
    ensures forall j :: 0 <= j < |base| ==> !IsOpen(base[j])
  {
    CountedAt(ts, p);
    base := OperatorWaits(Run(START, ts[..p]), ts[p], 0);
    ReadUpTo(ts, p);
    RunBetween(ts, p + 1, q);
    var u', w' := SteadyRun(Run(START, ts[..p + 1]), ts[p + 1..q], [], [], base, 0, 0);
    if u' != [] {
      LastIsOpen(u');
    }
    assert [] + [] + base == base;
    CountedAt(ts, q);
    NoBrackets(base);
  }

  lemma {:induction false} YieldingStep(ts: seq<Tok>, p: nat, q: nat)
    requires Neighbours(ts, p, q) && Yields(ts[p], ts[q])
    ensures ts[p] in Run(START, ts[..q + 1]).out
    ensures Comes(ToPostfix(ts), ts[p], ts[q])
  {
    var base := FirstOnTop(ts, p, q);
    ReadUpTo(ts, q);
    var st := Run(START, ts[..q]);
    var st' := Step(st, ts[q]);
    assert st'.out == st.out + [ts[p]] && st'.stack[0] == ts[q];
    ComesAt(Line(st'), |st.out|, |st'.out|);
    OrderIsFinal(ts, q, ts[p], ts[q]);
  }

  lemma {:induction false} StayingStep(ts: seq<Tok>, p: nat, q: nat) returns (base: seq<Tok>)
    requires Neighbours(ts, p, q) && !Yields(ts[p], ts[q])
    ensures base != [] && base[0] == ts[p] && Above(Run(START, ts[..q + 1]), [], [ts[q]], base, 0, 0)
    ensures Comes(ToPostfix(ts), ts[q], ts[p])
  {
    base := FirstOnTop(ts, p, q);
    ReadUpTo(ts, q);
    var st' := Step(Run(START, ts[..q]), ts[q]);
    assert st'.stack == [ts[q]] + base;
    assert [] + [ts[q]] + base == [ts[q]] + base;
    ComesAt(Line(st'), |st'.out|, |st'.out| + 1);
    OrderIsFinal(ts, q, ts[q], ts[p]);
  }

  // Outside brackets an operator x comes before its neighbour z, and before all
  // that follows z, exactly when z's number is at least x's; otherwise it comes
  // after z and after all that follows z up to a ':' or a bracket closed too many.
  // So at most one operator gives way to another.
  lemma {:induction false} NumberDecides(ts: seq<Tok>, p: nat, q: nat, r: nat, m: int, n: int)
    requires Numbered(ts, 0) && Neighbours(ts, p, q) && HasNumber(ts[p], m) && HasNumber(ts[q], n)
    requires q <= r < |ts| && !IsBracket(ts[r]) && Steady(ts[q + 1..r + 1], 0)
    ensures Comes(ToPostfix(ts), ts[p], ts[r]) <==> n >= m
    ensures Comes(ToPostfix(ts), ts[r], ts[p]) <==> n < m
  {
    YieldsByNumber(ts[p], ts[q], m, n);
    if n >= m {
      GivesWay(ts, p, q, r);
      NotBothWays(ts, ts[p], ts[r]);
    } else {
      StaysBehind(ts, p, q, r);
      NotBothWays(ts, ts[r], ts[p]);
    }
  }

  lemma {:induction false} GivesWay(ts: seq<Tok>, p: nat, q: nat, r: nat)
    requires Neighbours(ts, p, q) && Yields(ts[p], ts[q]) && q <= r < |ts| && !IsBracket(ts[r])
    ensures Comes(ToPostfix(ts), ts[p], ts[r])
  {
    YieldingStep(ts, p, q);
    if r > q {
      OutBefore(ts, q + 1, r, ts[p]);
    }
  }

  lemma {:induction false} StaysBehind(ts: seq<Tok>, p: nat, q: nat, r: nat)
    requires Neighbours(ts, p, q) && !Yields(ts[p], ts[q])
    requires q <= r < |ts| && !IsBracket(ts[r]) && Steady(ts[q + 1..r + 1], 0)
    ensures Comes(ToPostfix(ts), ts[r], ts[p])
  {
    var base := StayingStep(ts, p, q);
    if r > q {
      ReadWhileWaiting(ts, q + 1, r, [ts[q]], base, 0, 0);
    }
  }

  // ------------------------------------------------------- what is over is out

  lemma {:induction false} HeldInOut(ts: seq<Tok>, q: nat, k: nat)
    requires k < q <= |ts| && !IsBracket(ts[k]) && ts[k] !in Run(START, ts[..q]).stack
    ensures ts[k] in Run(START, ts[..q]).out
  {
    var st := Run(START, ts[..q]);
    RunHeld(START, ts[..q]);
    assert ts[..q][k] == ts[k];
    InFilter(ts[..q], ts[k]);
    InFilter(st.stack, ts[k]);
    InFilter(st.out, ts[k]);
    var a, b := multiset(NonBrackets(st.out)), multiset(NonBrackets(st.stack));
    assert ts[k] in multiset(NonBrackets(ts[..q]));
    assert Held(START) == multiset{} && a + b == multiset(NonBrackets(ts[..q]));
    assert ts[k] in a;
  }

  lemma {:induction false} InFilter(l: seq<Tok>, x: Tok)
    requires !IsBracket(x)
    ensures x in NonBrackets(l) <==> x in l
  {
    if l != [] {
      InFilter(l[1..], x);
    }
  }

  lemma {:induction false} StackIsEarlier(ts: seq<Tok>, p: nat)
    requires Numbered(ts, 0) && p <= |ts|
    ensures Within(Run(START, ts[..p]).stack, 0, p)
  {
    RunAppends(START, ts[..p], 0, p);
  }

  lemma {:induction false} DeeperSteady(ts: seq<Tok>, d: nat)
    requires Steady(ts, d)
    ensures Steady(ts, d + 1) && DepthOf(ts, d + 1) == DepthOf(ts, d) + 1 && NoOperator(ts, d + 1)
    decreases |ts|
  {
    if ts != [] {
      DeeperSteady(ts[1..], SteadyDepth(ts[0], d));
    }
  }

  // A bracket at p, closed at q.
  ghost predicate Bracketed(ts: seq<Tok>, p: nat, q: nat) {
    && p < q < |ts| && IsOpen(ts[p]) && IsClose(ts[q]) && ts[p].operands != POST_OP && ts[q].operands != POST_OP
    && Steady(ts[p + 1..q], 0) && DepthOf(ts[p + 1..q], 0) == 0
  }

  // Behind it, only what waited before it waits.
  lemma {:induction false} BracketRestoresStack(ts: seq<Tok>, p: nat, q: nat)
    requires Bracketed(ts, p, q)
    ensures Run(START, ts[..q + 1]).stack == Run(START, ts[..p]).stack
  {
    var st0 := Run(START, ts[..p]);
    var c := Depth(ts[..p], 0);
    CountedAt(ts, p);
    assert [] + [] + st0.stack == st0.stack;
    OpensAbove(st0, ts[p], [], [], st0.stack, 0, c);
    ReadUpTo(ts, p);
    DeeperSteady(ts[p + 1..q], 0);
    RunBetween(ts, p + 1, q);
    assert [ts[p]] + [] == [ts[p]];
    var u1, w1 := SteadyRun(Run(START, ts[..p + 1]), ts[p + 1..q], [ts[p]], [], st0.stack, 1, c);
    var u2 := CloseAbove(Run(START, ts[..q]), ts[q], u1, w1, st0.stack, 1, c);
    ReadUpTo(ts, q);
    if u2 != [] {
      LastIsOpen(u2);
    }
    assert [] + [] + st0.stack == st0.stack;
  }

  // What stands inside a bracket comes before all that follows it.
  lemma {:induction false} InsideComesFirst(ts: seq<Tok>, p: nat, q: nat, k: nat, r: nat)
    requires Numbered(ts, 0) && Bracketed(ts, p, q) && p < k < q < r < |ts| && !IsBracket(ts[k]) && !IsBracket(ts[r])
    ensures Comes(ToPostfix(ts), ts[k], ts[r])
  {
    BracketRestoresStack(ts, p, q);
    StackIsEarlier(ts, p);
    HeldInOut(ts, q + 1, k);
    OutBefore(ts, q + 1, r, ts[k]);
  }

  // A ':', or a bracket closed outside brackets, ends what was before it.
  lemma {:induction false} EndEmptiesStack(ts: seq<Tok>, q: nat)
    requires q < |ts| && (IsColon(ts[q]) || (IsClose(ts[q]) && Outside(ts, q)))
    ensures Run(START, ts[..q + 1]).stack == []
  {
    ReadUpTo(ts, q);
    CountedAt(ts, q);
    NoBrackets(Run(START, ts[..q]).stack);
  }

  lemma {:induction false} EndedComesFirst(ts: seq<Tok>, q: nat, k: nat, r: nat)
    requires k < q < r < |ts| && (IsColon(ts[q]) || (IsClose(ts[q]) && Outside(ts, q)))
    requires !IsBracket(ts[k]) && !IsBracket(ts[r])
    ensures Comes(ToPostfix(ts), ts[k], ts[r])
  {
    EndEmptiesStack(ts, q);
    HeldInOut(ts, q + 1, k);
    OutBefore(ts, q + 1, r, ts[k]);
  }

  // ------------------------------------------------------ which brackets come out

  // A token held after a step was held before, or is the step's.
  lemma {:induction false} StepHolds(st: St, t: Tok, x: Tok)
    ensures x in Line(Step(st, t)) ==> x in Line(st) || x == t
  {
    var k, drop, dest := StepShape(st, t);
    SplitLine(st.out, st.stack, k, drop);
    ShapedLine(st, t, Step(st, t), k, drop, dest);
  }

  lemma {:induction false} RunHolds(st: St, ts: seq<Tok>, x: Tok)
    ensures x in Line(Run(st, ts)) ==> x in Line(st) || x in ts
    decreases |ts|
  {
    if ts != [] {
      StepHolds(st, ts[0], x);
      RunHolds(Step(st, ts[0]), ts[1..], x);
    }
  }

  lemma {:induction false} OutStays(st: St, ts: seq<Tok>, x: Tok)
    requires x in st.out
    ensures x in Run(st, ts).out
  {
    var more := OutGrows(st, ts);
  }

  // Read behind an open bracket, with d more opened since: the text closes it
  // before a ':' comes. One labelled POST_OP is not there to be closed.
  predicate ClosesIt(ts: seq<Tok>, d: nat)
    decreases |ts|
  {
    if ts == [] || IsColon(ts[0]) then false
    else if IsClose(ts[0]) then d == 0 || ClosesIt(ts[1..], d - 1)
    else ClosesIt(ts[1..], if IsOpen(ts[0]) && ts[0].operands != POST_OP then d + 1 else d)
  }

  // The open bracket x waits, with d more above it.
  ghost predicate WaitsUnder(st: St, u: seq<Tok>, x: Tok, base: seq<Tok>, d: nat) {
    && st.stack == u + ([x] + base) && IsOpen(x) && Brackets(u) == d && Brackets(st.stack) <= st.cnt
    && x !in st.out && x !in u && x !in base
  }

  lemma {:induction false} CloseUnder(st: St, t: Tok, u: seq<Tok>, x: Tok, base: seq<Tok>, d: nat) returns (u': seq<Tok>)
    requires WaitsUnder(st, u, x, base, d) && IsClose(t) && !IsColon(t) && st.cnt > 0 && x != t && d > 0
    ensures WaitsUnder(Step(st, t), u', x, base, d - 1)
  {
    StepCounted(st, t, st.cnt);
    NoBrackets(u);
    OpenAbove(u, [x] + base);
    BracketsBelowOpen(u);
    u' := u[OpenAt(u) + 1..];
  }

  lemma {:induction false} CloseTakesIt(st: St, t: Tok, u: seq<Tok>, x: Tok, base: seq<Tok>)
    requires WaitsUnder(st, u, x, base, 0) && IsClose(t) && !IsColon(t) && st.cnt > 0 && x != t
    ensures x !in Line(Step(st, t))
  {
    OpenBelow(u, x, base);
  }

  lemma {:induction false} OpenBelow(u: seq<Tok>, x: Tok, base: seq<Tok>)
    requires IsOpen(x) && Brackets(u) == 0
    ensures OpenAt(u + ([x] + base)) == |u|
    ensures (u + ([x] + base))[..|u|] == u && (u + ([x] + base))[|u| + 1..] == base
    decreases |u|
  {
    NoBrackets(u);
    if u == [] {
      assert u + ([x] + base) == [x] + base;
    } else {
      assert (u + ([x] + base))[1..] == u[1..] + ([x] + base);
      OpenBelow(u[1..], x, base);
    }
  }

  lemma {:induction false} PushUnder(st: St, t: Tok, u: seq<Tok>, x: Tok, base: seq<Tok>, d: nat)
    requires WaitsUnder(st, u, x, base, d) && t != x && st.cnt > 0
    requires !IsColon(t) && !IsClose(t) && !IsOperand(t) && (IsOpen(t) ==> t.operands != POST_OP)
    ensures WaitsUnder(Step(st, t), [t] + u, x, base, if IsOpen(t) then d + 1 else d)
  {
    StepCounted(st, t, st.cnt);
    assert [t] + (u + ([x] + base)) == ([t] + u) + ([x] + base) && ([t] + u)[1..] == u;
  }

  lemma {:induction false} UnderStep(st: St, t: Tok, u: seq<Tok>, x: Tok, base: seq<Tok>, d: nat) returns (u': seq<Tok>)
    requires WaitsUnder(st, u, x, base, d) && !IsColon(t) && t != x && (IsClose(t) ==> d > 0)
    requires st.cnt > 0
    ensures WaitsUnder(Step(st, t), u', x, base,
                       if IsClose(t) then d - 1 else if IsOpen(t) && t.operands != POST_OP then d + 1 else d)
  {
    if IsClose(t) {
      u' := CloseUnder(st, t, u, x, base, d);
    } else if IsOperand(t) || (IsOpen(t) && t.operands == POST_OP) {
      StepCounted(st, t, st.cnt);
      u' := u;
    } else {
      PushUnder(st, t, u, x, base, d);
      u' := [t] + u;
    }
  }

  lemma {:induction false} BracketsUnder(u: seq<Tok>, x: Tok, base: seq<Tok>)
    requires IsOpen(x)
    ensures Brackets(u + ([x] + base)) > 0
  {
    BracketsConcat(u, [x] + base);
    assert ([x] + base)[0] == x;
  }

  lemma {:induction false} UnderRun(st: St, ts: seq<Tok>, u: seq<Tok>, x: Tok, base: seq<Tok>, d: nat)
    requires WaitsUnder(st, u, x, base, d) && x !in ts
    ensures x in Line(Run(st, ts)) <==> !ClosesIt(ts, d)
    decreases |ts|
  {
    BracketsUnder(u, x, base);
    assert ([x] + base)[0] == x && st.stack[|u|] == x;
    if ts != [] {
      var t, st1, rest := ts[0], Step(st, ts[0]), ts[1..];
      if IsColon(t) {
        OutStays(st1, rest, x);
      } else if IsClose(t) && d == 0 {
        CloseTakesIt(st, t, u, x, base);
        RunHolds(st1, rest, x);
      } else {
        var u' := UnderStep(st, t, u, x, base, d);
        UnderRun(st1, rest, u', x, base, if IsClose(t) then d - 1 else if IsOpen(t) && t.operands != POST_OP then d + 1 else d);
      }
    }
  }

  lemma {:induction false} NotYetHeld(ts: seq<Tok>, p: nat)
    requires Numbered(ts, 0) && p < |ts|
    ensures ts[p] !in Line(Run(START, ts[..p])) && ts[p] !in ts[p + 1..]
    ensures Line(Run(Step(Run(START, ts[..p]), ts[p]), ts[p + 1..])) == ToPostfix(ts)
  {
    RunHolds(START, ts[..p], ts[p]);
    ReadUpTo(ts, p);
  }

  // An open bracket comes out exactly when it is labelled POST_OP, or no bracket
  // closes it before a ':' comes or the text ends.
  lemma {:induction false} OpenComesOutExactlyWhen(ts: seq<Tok>, p: nat)
    requires Numbered(ts, 0) && p < |ts| && IsOpen(ts[p])
    ensures ts[p] in ToPostfix(ts) <==> ts[p].operands == POST_OP || !ClosesIt(ts[p + 1..], 0)
  {
    NotYetHeld(ts, p);
    var st, x := Run(START, ts[..p]), ts[p];
    CountedAt(ts, p);
    if x.operands == POST_OP {
      OutStays(Step(st, x), ts[p + 1..], x);
    } else {
      assert [] + ([x] + st.stack) == [x] + st.stack;
      BracketsConcat([x], st.stack);
      UnderRun(Step(st, x), ts[p + 1..], [], x, st.stack, 0);
    }
  }

  // A closing bracket comes out exactly when it is labelled POST_OP and stands
  // outside brackets.
  lemma {:induction false} CloseComesOutExactlyWhen(ts: seq<Tok>, p: nat)
    requires Numbered(ts, 0) && p < |ts| && IsClose(ts[p])
    ensures ts[p] in ToPostfix(ts) <==> ts[p].operands == POST_OP && Outside(ts, p)
  {
    NotYetHeld(ts, p);
    var st, x := Run(START, ts[..p]), ts[p];
    CountedAt(ts, p);
    if x.operands == POST_OP && Outside(ts, p) {
      OutStays(Step(st, x), ts[p + 1..], x);
    } else {
      CloseIsGone(st, x);
      RunHolds(Step(st, x), ts[p + 1..], x);
    }
  }

  lemma {:induction false} CloseIsGone(st: St, x: Tok)
    requires IsClose(x) && x !in Line(st) && (st.cnt != 0 || x.operands != POST_OP)
    ensures x !in Line(Step(st, x))
  {
  }
}
