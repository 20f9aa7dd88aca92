// The rearrangement of a token list in Project8/ssu_string.c: the operator
// stack of makepostfix, on values. PostfixLists.dfy has the linked lists.
module Postfix {
  import opened Common

  const PRE_OP := -1
  const POST_OP := 1
  const TWO_OP := 2

  // A token and its place in the input list.
  datatype Tok = Tok(pos: nat, str: string, operands: int)

  function First(str: string): char { if str == "" then '\0' else str[0] }

  function Isop(c: char): int {
    if c == '*' || c == '+' || c == '-' || c == '/' || c == '%' then 1
    else if c == '=' || c == '!' || c == '>' || c == '<' then 2
    else if c == '&' || c == '|' || c == '^' || c == '~' then 3
    else if c == '.' || c == ',' then 4
    else if c == ':' then 5
    else if c == '(' || c == '[' then 6
    else if c == ')' || c == ']' then 7
    else 0
  }

  predicate IsOperand(t: Tok) { Isop(First(t.str)) <= 0 }
  predicate IsOpen(t: Tok) { Isop(First(t.str)) == 6 }
  predicate IsClose(t: Tok) { Isop(First(t.str)) == 7 }
  predicate IsBracket(t: Tok) { IsOpen(t) || IsClose(t) }
  predicate IsColon(t: Tok) { |t.str| == 1 && t.str[0] == ':' }
  predicate IsOperator(t: Tok) { !IsOperand(t) && !IsBracket(t) && !IsColon(t) }

  // The binary operators by precedence, as in C, of one character and of two;
  // assignments come after them.
  const SINGLES: map<char, int> := map[
    '.' := 1, '*' := 3, '/' := 3, '%' := 3, '+' := 4, '-' := 4, '<' := 6, '>' := 6, '&' := 8, '^' := 9, '|' := 10
  ]

  const PAIRS: map<string, int> := map[
    "->" := 1, "<<" := 5, ">>" := 5, "<=" := 6, ">=" := 6, "==" := 7, "!=" := 7, "&&" := 11, "||" := 12
  ]

  const ASSIGNMENT := 14

  // The operators that a mark sets apart.
  const MARKED_SINGLES: set<char> := {'*', '+', '<', '>', '&', '^', '|'}
  const MARKED_PAIRS: set<string> := {"<=", ">=", "==", "&&", "||"}

  function Precedence(str: string): int {
    if |str| == 1 then if str[0] in SINGLES then SINGLES[str[0]] else ASSIGNMENT
    else if str in PAIRS then PAIRS[str] else ASSIGNMENT
  }

  predicate Marked(str: string) {
    if |str| == 1 then str[0] in MARKED_SINGLES else str in MARKED_PAIRS
  }

  // The value that priority returns, and the mark that it leaves in ch.
  function Priority(str: string, operands: int): int {
    if operands == POST_OP then 1
    else if operands == PRE_OP then 2
    else if operands == TWO_OP then Precedence(str)
    else if str == "," then 15
    else 0
  }

  function Mark(str: string, operands: int): int {
    if operands == TWO_OP then if Marked(str) then 1 else 0
    else if operands != POST_OP && operands != PRE_OP && str == "," then 1
    else 0
  }

  // --------------------------------------------------------------- the machine

  // The output so far, the operator stack (top first), and the count of open
  // brackets that makepostfix keeps.
  datatype St = St(out: seq<Tok>, stack: seq<Tok>, cnt: int)

  // Where the topmost open bracket is on the stack.
  function OpenAt(stack: seq<Tok>): (b: nat)
    ensures b <= |stack|
    ensures b < |stack| ==> IsOpen(stack[b])
    ensures forall j :: 0 <= j < b ==> !IsOpen(stack[j])
  {
    if stack == [] || IsOpen(stack[0]) then 0 else 1 + OpenAt(stack[1..])
  }

  // Pop to the output down to an open bracket, which is dropped.
  function PopToOpen(st: St): St {
    var b := OpenAt(st.stack);
    if b < |st.stack| then st.(out := st.out + st.stack[..b], stack := st.stack[b + 1..])
    else st.(out := st.out + st.stack, stack := [])
  }

  function Emit(st: St, t: Tok): St { st.(out := st.out + [t]) }
  function Push(st: St, t: Tok): St { st.(stack := [t] + st.stack) }

  function StepNested(st: St, t: Tok): St {
    if IsOperand(t) then Emit(st, t)
    else if IsOpen(t) then
      var st1 := st.(cnt := st.cnt + 1);
      if t.operands != POST_OP then Push(st1, t) else Emit(st1, t)
    else if IsClose(t) then PopToOpen(st.(cnt := st.cnt - 1))
    else Push(st, t)
  }

  // An operator outside brackets: one operator gives way at most.
  function StepOperator(st: St, t: Tok, yielding: bool): St {
    if st.stack != [] && yielding then
      var st1 := st.(stack := st.stack[1..]);
      Push(if IsOpen(st.stack[0]) then st1 else Emit(st1, st.stack[0]), t)
    else Push(st, t)
  }

  predicate Yields(top: Tok, t: Tok) {
    Priority(t.str, t.operands) >= Priority(top.str, top.operands)
  }

  function CloseTop(st: St, t: Tok): St {
    var st1 := PopToOpen(if OpenAt(st.stack) < |st.stack| then st.(cnt := st.cnt - 1) else st);
    if t.operands == POST_OP then Emit(st1, t) else st1
  }

  function StepTop(st: St, t: Tok, yielding: bool): St {
    if IsOperand(t) then Emit(st, t)
    else if IsOpen(t) then
      if t.operands != POST_OP then Push(st.(cnt := st.cnt + 1), t) else Emit(st, t)
    else if IsClose(t) then CloseTop(st, t)
    else StepOperator(st, t, yielding)
  }

  function Step(st: St, t: Tok): St {
    if IsColon(t) then Emit(st.(out := st.out + st.stack, stack := []), t)
    else if st.cnt != 0 then StepNested(st, t)
    else StepTop(st, t, st.stack != [] && Yields(st.stack[0], t))
  }

  function Run(st: St, ts: seq<Tok>): St
    decreases |ts|
  {
    if ts == [] then st else Run(Step(st, ts[0]), ts[1..])
  }

  lemma {:induction false} PopAnyCount(st: St, c: int)
    ensures PopToOpen(st.(cnt := c)) == PopToOpen(st).(cnt := c)
  {
  }

  // Whether the count goes down can be told after the popping.
  lemma {:induction false} CloseTopIs(st: St, t: Tok, found: bool, cnt': int)
    requires found == (OpenAt(st.stack) < |st.stack|)
    requires cnt' == if found then st.cnt - 1 else st.cnt
    ensures t.operands == POST_OP ==> CloseTop(st, t) == Emit(PopToOpen(st).(cnt := cnt'), t)
    ensures t.operands != POST_OP ==> CloseTop(st, t) == PopToOpen(st).(cnt := cnt')
  {
    PopAnyCount(st, cnt');
  }

  lemma {:induction false} RunStep(st: St, ts: seq<Tok>, i: nat)
    requires i < |ts|
    ensures Run(st, ts[i..]) == Run(Step(st, ts[i]), ts[i + 1..])
  {
    assert ts[i..][1..] == ts[i + 1..];
  }

  const START := St([], [], 0)

  function ToPostfix(ts: seq<Tok>): seq<Tok> {
    var st := Run(START, ts);
    st.out + st.stack
  }

  lemma {:induction false} RunConcat(st: St, a: seq<Tok>, b: seq<Tok>)
    ensures Run(st, a + b) == Run(Run(st, a), b)
    decreases |a|
  {
    if a == [] {
      assert a + b == b;
    } else {
      assert (a + b)[0] == a[0] && (a + b)[1..] == a[1..] + b;
      RunConcat(Step(st, a[0]), a[1..], b);
    }
  }

  // The shape of every pass of the loop, whatever the branch: k tokens move from
  // the stack to the output, an open bracket may be dropped, and the token at
  // hand goes to the output, to the stack, or, if it is a bracket, away.
  datatype Dest = ToOut | ToStack | Away

  ghost predicate Shaped(st: St, t: Tok, st': St, k: nat, drop: bool, dest: Dest) {
    && k <= |st.stack|
    && (drop ==> k < |st.stack| && IsOpen(st.stack[k]))
    && st'.out == st.out + st.stack[..k] + (if dest.ToOut? then [t] else [])
    && st'.stack == (if dest.ToStack? then [t] else []) + st.stack[if drop then k + 1 else k..]
    && (dest.Away? ==> IsBracket(t))
    && (dest.ToStack? ==> !IsOperand(t))
  }

  lemma {:induction false} PopToOpenShape(st: St, t: Tok, emit: bool) returns (k: nat, drop: bool)
    requires IsClose(t)
    ensures Shaped(st, t, if emit then Emit(PopToOpen(st), t) else PopToOpen(st), k, drop, if emit then ToOut else Away)
  {
    k := OpenAt(st.stack);
    drop := k < |st.stack|;
  }

  lemma {:induction false} OperatorShape(st: St, t: Tok, yielding: bool) returns (k: nat, drop: bool)
    requires !IsOperand(t)
    ensures Shaped(st, t, StepOperator(st, t, yielding), k, drop, ToStack)
  {
    k, drop := 0, false;
    if st.stack != [] && yielding {
      if IsOpen(st.stack[0]) {
        drop := true;
      } else {
        k := 1;
      }
    }
  }

  lemma {:induction false} PlainShapes(st: St, t: Tok)
    ensures Shaped(st, t, Emit(st, t), 0, false, ToOut)
    ensures !IsOperand(t) ==> Shaped(st, t, Push(st, t), 0, false, ToStack)
    ensures Shaped(st, t, Emit(st.(out := st.out + st.stack, stack := []), t), |st.stack|, false, ToOut)
  {
    assert st.stack[..0] == [] && st.stack[..|st.stack|] == st.stack;
  }

  lemma {:induction false} StepNestedShape(st: St, t: Tok) returns (k: nat, drop: bool, dest: Dest)
    ensures Shaped(st, t, StepNested(st, t), k, drop, dest)
  {
    PlainShapes(st, t);
    k, drop, dest := 0, false, if IsOperand(t) || (IsOpen(t) && t.operands == POST_OP) then ToOut else ToStack;
    if IsClose(t) {
      k, drop := PopToOpenShape(st, t, false);
      dest := Away;
    }
  }

  lemma {:induction false} CloseTopShape(st: St, t: Tok) returns (k: nat, drop: bool, dest: Dest)
    requires IsClose(t)
    ensures Shaped(st, t, CloseTop(st, t), k, drop, dest)
  {
    k, drop := PopToOpenShape(st, t, t.operands == POST_OP);
    dest := if t.operands == POST_OP then ToOut else Away;
  }

  lemma {:induction false} StepTopShape(st: St, t: Tok, yielding: bool) returns (k: nat, drop: bool, dest: Dest)
    ensures Shaped(st, t, StepTop(st, t, yielding), k, drop, dest)
  {
    PlainShapes(st, t);
    if IsOperand(t) || IsOpen(t) {
      k, drop, dest := 0, false, if IsOpen(t) && t.operands != POST_OP then ToStack else ToOut;
    } else if IsClose(t) {
      k, drop, dest := CloseTopShape(st, t);
    } else {
      dest := ToStack;
      k, drop := OperatorShape(st, t, yielding);
    }
  }

  lemma {:induction false} StepShape(st: St, t: Tok) returns (k: nat, drop: bool, dest: Dest)
    ensures Shaped(st, t, Step(st, t), k, drop, dest)
  {
    if IsColon(t) {
      PlainShapes(st, t);
      k, drop, dest := |st.stack|, false, ToOut;
    } else if st.cnt != 0 {
      k, drop, dest := StepNestedShape(st, t);
    } else {
      k, drop, dest := StepTopShape(st, t, st.stack != [] && Yields(st.stack[0], t));
    }
  }

  // ------------------------------------------------------ nothing gets lost

  function NonBrackets(ts: seq<Tok>): seq<Tok> {
    if ts == [] then []
    else if IsBracket(ts[0]) then NonBrackets(ts[1..])
    else [ts[0]] + NonBrackets(ts[1..])
  }

  lemma {:induction false} NonBracketsConcat(a: seq<Tok>, b: seq<Tok>)
    ensures NonBrackets(a + b) == NonBrackets(a) + NonBrackets(b)
  {
    if a == [] {
      assert a + b == b;
    } else {
      assert (a + b)[0] == a[0] && (a + b)[1..] == a[1..] + b;
      NonBracketsConcat(a[1..], b);
    }
  }

  // The non-bracket tokens held by a state, output and stack together.
  function Held(st: St): multiset<Tok> {
    multiset(NonBrackets(st.out)) + multiset(NonBrackets(st.stack))
  }

  function Single(t: Tok): multiset<Tok> { if IsBracket(t) then multiset{} else multiset{t} }

  // A dropped bracket is not missed.
  lemma {:induction false} SplitStack(stack: seq<Tok>, k: nat, drop: bool)
    requires k <= |stack| && (drop ==> k < |stack| && IsOpen(stack[k]))
    ensures NonBrackets(stack) == NonBrackets(stack[..k]) + NonBrackets(stack[if drop then k + 1 else k..])
  {
    var tail := stack[k..];
    assert stack == stack[..k] + tail;
    NonBracketsConcat(stack[..k], tail);
    if drop {
      assert tail[0] == stack[k] && tail[1..] == stack[k + 1..];
    }
  }

  // The output and the stack of a step, as bags of what is no bracket.
  lemma {:induction false} ShapedOut(out: seq<Tok>, moved: seq<Tok>, t: Tok)
    ensures multiset(NonBrackets(out + moved)) == multiset(NonBrackets(out)) + multiset(NonBrackets(moved))
    ensures multiset(NonBrackets(out + moved + [t])) == multiset(NonBrackets(out)) + multiset(NonBrackets(moved)) + Single(t)
  {
    NonBracketsConcat(out, moved);
    NonBracketsConcat(out + moved, [t]);
    NonBracketsOne(t);
  }

  lemma {:induction false} NonBracketsOne(t: Tok)
    ensures multiset(NonBrackets([t])) == Single(t)
  {
  }

  lemma {:induction false} ShapedStack(stack: seq<Tok>, t: Tok)
    ensures multiset(NonBrackets([t] + stack)) == Single(t) + multiset(NonBrackets(stack))
  {
    NonBracketsConcat([t], stack);
    NonBracketsOne(t);
  }

  lemma {:induction false} SplitBag(stack: seq<Tok>, k: nat, drop: bool)
    requires k <= |stack| && (drop ==> k < |stack| && IsOpen(stack[k]))
    ensures multiset(NonBrackets(stack)) ==
      multiset(NonBrackets(stack[..k])) + multiset(NonBrackets(stack[if drop then k + 1 else k..]))
  {
    SplitStack(stack, k, drop);
  }

  lemma {:induction false} NoneAdded(a: seq<Tok>, b: seq<Tok>)
    ensures a + [] == a && [] + b == b
  {
  }

  lemma {:induction false} ShapedHeld(st: St, t: Tok, st': St, k: nat, drop: bool, dest: Dest)
    requires Shaped(st, t, st', k, drop, dest)
    ensures Held(st') == Held(st) + Single(t)
  {
    var moved, rest := st.stack[..k], st.stack[if drop then k + 1 else k..];
    SplitBag(st.stack, k, drop);
    ShapedOut(st.out, moved, t);
    ShapedStack(rest, t);
    NoneAdded(st.out + moved, rest);
  }

  lemma {:induction false} StepHeld(st: St, t: Tok)
    ensures Held(Step(st, t)) == Held(st) + Single(t)
  {
    var k, drop, dest := StepShape(st, t);
    ShapedHeld(st, t, Step(st, t), k, drop, dest);
  }

  lemma {:induction false} RunHeld(st: St, ts: seq<Tok>)
    ensures Held(Run(st, ts)) == Held(st) + multiset(NonBrackets(ts))
    decreases |ts|
  {
    if ts != [] {
      StepHeld(st, ts[0]);
      RunHeld(Step(st, ts[0]), ts[1..]);
    }
  }

  // Every token that is not a bracket comes out exactly as often as it goes
  // in, for every input, balanced or not.
  lemma {:induction false} EveryNonBracketComesOutOnce(ts: seq<Tok>)
    ensures multiset(NonBrackets(ToPostfix(ts))) == multiset(NonBrackets(ts))
  {
    RunHeld(START, ts);
    NonBracketsConcat(Run(START, ts).out, Run(START, ts).stack);
  }

  // ------------------------------------------------- operands keep their order

  function Operands(ts: seq<Tok>): seq<Tok> {
    if ts == [] then []
    else if IsOperand(ts[0]) then [ts[0]] + Operands(ts[1..])
    else Operands(ts[1..])
  }

  lemma {:induction false} OperandsConcat(a: seq<Tok>, b: seq<Tok>)
    ensures Operands(a + b) == Operands(a) + Operands(b)
  {
    if a == [] {
      assert a + b == b;
    } else {
      assert (a + b)[0] == a[0] && (a + b)[1..] == a[1..] + b;
      OperandsConcat(a[1..], b);
    }
  }

  ghost predicate NoOperands(ts: seq<Tok>) {
    forall j :: 0 <= j < |ts| ==> !IsOperand(ts[j])
  }

  lemma {:induction false} NoOperandsNone(ts: seq<Tok>)
    requires NoOperands(ts)
    ensures Operands(ts) == []
  {
    if ts != [] {
      NoOperandsNone(ts[1..]);
    }
  }

  lemma {:induction false} ShapedOperands(st: St, t: Tok, st': St, k: nat, drop: bool, dest: Dest)
    requires Shaped(st, t, st', k, drop, dest) && NoOperands(st.stack)
    ensures NoOperands(st'.stack)
    ensures Operands(st'.out) == Operands(st.out) + Operands([t])
  {
    OperandsConcat(st.out, st.stack[..k]);
    NoOperandsNone(st.stack[..k]);
    OperandsConcat(st.out + st.stack[..k], if dest.ToOut? then [t] else []);
  }

  lemma {:induction false} StepOperands(st: St, t: Tok)
    requires NoOperands(st.stack)
    ensures NoOperands(Step(st, t).stack)
    ensures Operands(Step(st, t).out) == Operands(st.out) + Operands([t])
  {
    var k, drop, dest := StepShape(st, t);
    ShapedOperands(st, t, Step(st, t), k, drop, dest);
  }

  lemma {:induction false} OperandsCons(t: Tok, ts: seq<Tok>, before: seq<Tok>)
    ensures before + Operands([t]) + Operands(ts) == before + Operands([t] + ts)
  {
    OperandsConcat([t], ts);
  }

  lemma {:induction false} RunOperands(st: St, ts: seq<Tok>)
    requires NoOperands(st.stack)
    ensures NoOperands(Run(st, ts).stack)
    ensures Operands(Run(st, ts).out) == Operands(st.out) + Operands(ts)
    decreases |ts|
  {
    if ts != [] {
      StepOperands(st, ts[0]);
      RunOperands(Step(st, ts[0]), ts[1..]);
      OperandsCons(ts[0], ts[1..], Operands(st.out));
      assert ts == [ts[0]] + ts[1..];
    } else {
      assert Operands(st.out) + [] == Operands(st.out);
    }
  }

  lemma {:induction false} OperandsKeepTheirOrder(ts: seq<Tok>)
    ensures Operands(ToPostfix(ts)) == Operands(ts)
  {
    RunOperands(START, ts);
    var st := Run(START, ts);
    OperandsConcat(st.out, st.stack);
    NoOperandsNone(st.stack);
  }

  // ------------------------------------------------------ nothing crosses a ':'

  // Everything a state holds comes from a set of positions.
  ghost predicate Within(ts: seq<Tok>, lo: int, hi: int) {
    forall j :: 0 <= j < |ts| ==> lo <= ts[j].pos < hi
  }

  ghost predicate Numbered(ts: seq<Tok>, from: nat) {
    forall j :: 0 <= j < |ts| ==> ts[j].pos == from + j
  }

  // A step only adds to the output, from the stack and the token at hand.
  lemma {:induction false} ShapedAppends(st: St, t: Tok, st': St, k: nat, drop: bool, dest: Dest, lo: int, hi: int)
    requires Shaped(st, t, st', k, drop, dest)
    requires Within(st.stack, lo, hi) && lo <= t.pos < hi
    ensures st.out <= st'.out
    ensures Within(st'.stack, lo, hi)
    ensures Within(st'.out[|st.out|..], lo, hi)
  {
    assert st'.out[|st.out|..] == st.stack[..k] + (if dest.ToOut? then [t] else []);
    var rest := st.stack[if drop then k + 1 else k..];
    forall j | 0 <= j < |rest|
      ensures lo <= rest[j].pos < hi
    {
      assert rest[j] in st.stack;
    }
  }

  lemma {:induction false} StepAppends(st: St, t: Tok, lo: int, hi: int)
    requires Within(st.stack, lo, hi) && lo <= t.pos < hi
    ensures st.out <= Step(st, t).out
    ensures Within(Step(st, t).stack, lo, hi)
    ensures Within(Step(st, t).out[|st.out|..], lo, hi)
  {
    var k, drop, dest := StepShape(st, t);
    ShapedAppends(st, t, Step(st, t), k, drop, dest, lo, hi);
  }

  lemma {:induction false} RunAppends(st: St, ts: seq<Tok>, lo: int, hi: int)
    requires Within(st.stack, lo, hi) && Within(ts, lo, hi)
    ensures st.out <= Run(st, ts).out
    ensures Within(Run(st, ts).stack, lo, hi)
    ensures Within(Run(st, ts).out[|st.out|..], lo, hi)
    decreases |ts|
  {
    if ts != [] {
      var st1 := Step(st, ts[0]);
      StepAppends(st, ts[0], lo, hi);
      RunAppends(st1, ts[1..], lo, hi);
      var out := Run(st, ts).out;
      forall j | 0 <= j < |out| - |st.out|
        ensures lo <= out[|st.out|..][j].pos < hi
      {
        if j < |st1.out| - |st.out| {
          assert out[|st.out| + j] == st1.out[|st.out|..][j];
        } else {
          assert out[|st.out| + j] == out[|st1.out|..][|st.out| + j - |st1.out|];
        }
      }
    }
  }

  // The machine flushes at a ':', so what was before it is all put out.
  lemma {:induction false} ThroughColon(ts: seq<Tok>, p: nat) returns (a: seq<Tok>)
    requires Numbered(ts, 0) && p < |ts| && IsColon(ts[p])
    ensures Within(a, 0, p)
    ensures var mid := Run(START, ts[..p + 1]); mid.out == a + [ts[p]] && mid.stack == []
  {
    var before := ts[..p];
    var st := Run(START, before);
    assert ts[..p + 1] == before + [ts[p]];
    RunConcat(START, before, [ts[p]]);
    RunAppends(START, before, 0, p);
    assert st.out[0..] == st.out;
    a := st.out + st.stack;
  }

  lemma {:induction false} FromColon(mid: St, after: seq<Tok>, lo: nat, hi: nat) returns (b: seq<Tok>)
    requires Within(after, lo, hi) && mid.stack == []
    ensures var end := Run(mid, after); end.out + end.stack == mid.out + b
    ensures Within(b, lo, hi)
  {
    RunAppends(mid, after, lo, hi);
    var end := Run(mid, after);
    var tail := end.out[|mid.out|..];
    assert end.out == mid.out + tail;
    Regroup(mid.out, tail, end.stack);
    b := tail + end.stack;
  }

  // A ':' splits the output at its own place: the earlier tokens before it,
  // the later ones after it.
  lemma {:induction false} NothingCrossesAColon(ts: seq<Tok>, p: nat)
    requires Numbered(ts, 0) && p < |ts| && IsColon(ts[p])
    ensures exists a: seq<Tok>, b: seq<Tok> ::
      ToPostfix(ts) == a + [ts[p]] + b && Within(a, 0, p) && Within(b, p + 1, |ts|)
  {
    var a := ThroughColon(ts, p);
    var mid, after := Run(START, ts[..p + 1]), ts[p + 1..];
    assert ts == ts[..p + 1] + after;
    RunConcat(START, ts[..p + 1], after);
    var b := FromColon(mid, after, p + 1, |ts|);
    assert ToPostfix(ts) == a + [ts[p]] + b;
  }

  // ---------------------------------------------------- infix in, postfix out

  // How many operands an operator takes is a matter of its place in the text, not
  // of its label: un are the positions of the unary ones.
  predicate IsUnary(t: Tok, un: set<nat>) { IsOperator(t) && t.pos in un }
  predicate IsBinary(t: Tok, un: set<nat>) { IsOperator(t) && t.pos !in un }

  function Needs(t: Tok, un: set<nat>): nat { if IsUnary(t, un) then 1 else 2 }

  // Operands and operators alternate, with unary operators before or behind an
  // operand, brackets balance, ':' separates.
  predicate Infix(ts: seq<Tok>, wantOperand: bool, depth: nat, un: set<nat>) {
    if ts == [] then !wantOperand && depth == 0
    else if IsColon(ts[0]) then !wantOperand && depth == 0 && Infix(ts[1..], true, 0, un)
    else if IsOperand(ts[0]) then wantOperand && Infix(ts[1..], false, depth, un)
    else if IsOpen(ts[0]) then wantOperand && ts[0].operands != POST_OP && Infix(ts[1..], true, depth + 1, un)
    else if IsClose(ts[0]) then
      !wantOperand && depth > 0 && ts[0].operands != POST_OP && Infix(ts[1..], false, depth - 1, un)
    else if IsUnary(ts[0], un) then Infix(ts[1..], wantOperand, depth, un)
    else !wantOperand && Infix(ts[1..], true, depth, un)
  }

  // The height of an evaluation stack after reading postfix tokens from height
  // h, or -1 once an operator has found fewer values than it needs or a segment
  // has not ended at one.
  function Height(ts: seq<Tok>, h: int, un: set<nat>): int {
    if ts == [] || h < 0 then h else Height(ts[1..], HeightAfter(ts[0], h, un), un)
  }

  function HeightAfter(t: Tok, h: int, un: set<nat>): int {
    if IsColon(t) then if h == 1 then 0 else -1
    else if IsOperand(t) then h + 1
    else if IsOperator(t) && h >= Needs(t, un) then h - Needs(t, un) + 1
    else -1
  }

  lemma {:induction false} HeightConcat(a: seq<Tok>, b: seq<Tok>, h: int, un: set<nat>)
    ensures Height(a + b, h, un) == Height(b, Height(a, h, un), un)
  {
    if a == [] {
      assert a + b == b;
    } else if h >= 0 {
      assert (a + b)[0] == a[0] && (a + b)[1..] == a[1..] + b;
      HeightConcat(a[1..], b, HeightAfter(a[0], h, un), un);
    } else {
      assert Height(b, h, un) == h;
    }
  }

  lemma {:induction false} HeightOne(a: seq<Tok>, t: Tok, h: int, un: set<nat>)
    ensures Height(a + [t], h, un) == if Height(a, h, un) < 0 then Height(a, h, un) else HeightAfter(t, Height(a, h, un), un)
  {
    HeightConcat(a, [t], h, un);
  }

  function Binaries(stack: seq<Tok>, un: set<nat>): (n: nat)
    ensures n <= |stack|
  {
    if stack == [] then 0 else (if IsBinary(stack[0], un) then 1 else 0) + Binaries(stack[1..], un)
  }

  lemma {:induction false} BinariesConcat(a: seq<Tok>, b: seq<Tok>, un: set<nat>)
    ensures Binaries(a + b, un) == Binaries(a, un) + Binaries(b, un)
  {
    if a == [] {
      assert a + b == b;
    } else {
      assert (a + b)[0] == a[0] && (a + b)[1..] == a[1..] + b;
      BinariesConcat(a[1..], b, un);
    }
  }

  // Operators put out above enough values take one away for each binary one.
  lemma {:induction false} OperatorsLower(ops: seq<Tok>, h: int, un: set<nat>)
    requires forall j :: 0 <= j < |ops| ==> IsOperator(ops[j])
    requires h >= Binaries(ops, un) + 1
    ensures Height(ops, h, un) == h - Binaries(ops, un)
  {
    if ops != [] {
      OperatorsLower(ops[1..], HeightAfter(ops[0], h, un), un);
    }
  }

  function Brackets(stack: seq<Tok>): (n: nat)
    ensures n <= |stack|
  {
    if stack == [] then 0 else (if IsOpen(stack[0]) then 1 else 0) + Brackets(stack[1..])
  }

  lemma {:induction false} BracketsConcat(a: seq<Tok>, b: seq<Tok>)
    ensures Brackets(a + b) == Brackets(a) + Brackets(b)
  {
    if a == [] {
      assert a + b == b;
    } else {
      assert (a + b)[0] == a[0] && (a + b)[1..] == a[1..] + b;
      BracketsConcat(a[1..], b);
    }
  }

  lemma {:induction false} NoBrackets(stack: seq<Tok>)
    ensures Brackets(stack) == 0 <==> OpenAt(stack) == |stack|
  {
    if stack != [] {
      NoBrackets(stack[1..]);
    }
  }

  // Each binary operator on the stack is owed one of the values on the height,
  // and one more value is there when an operator is awaited.
  ghost predicate Owed(st: St, wantOperand: bool, depth: nat, un: set<nat>) {
    && (forall j :: 0 <= j < |st.stack| ==> IsOperator(st.stack[j]) || (IsOpen(st.stack[j]) && !IsColon(st.stack[j])))
    && Brackets(st.stack) == depth && st.cnt == depth
    && Height(st.out, 0, un) == Binaries(st.stack, un) + (if wantOperand then 0 else 1)
  }

  lemma {:induction false} OwedFlush(st: St, un: set<nat>)
    requires Owed(st, false, 0, un)
    ensures Height(st.out + st.stack, 0, un) == 1
  {
    NoBrackets(st.stack);
    HeightConcat(st.out, st.stack, 0, un);
    OperatorsLower(st.stack, Height(st.out, 0, un), un);
  }

  // The brackets below the topmost open one.
  lemma {:induction false} BracketsBelowOpen(stack: seq<Tok>)
    requires OpenAt(stack) < |stack|
    ensures Brackets(stack[OpenAt(stack) + 1..]) == Brackets(stack) - 1
  {
    if !IsOpen(stack[0]) {
      BracketsBelowOpen(stack[1..]);
      assert stack[1..][OpenAt(stack[1..]) + 1..] == stack[OpenAt(stack) + 1..];
    }
  }

  lemma {:induction false} SplitAtOpen(stack: seq<Tok>, un: set<nat>)
    requires OpenAt(stack) < |stack|
    ensures Binaries(stack, un) == Binaries(stack[..OpenAt(stack)], un) + Binaries(stack[OpenAt(stack) + 1..], un)
  {
    var b := OpenAt(stack);
    assert stack == stack[..b] + ([stack[b]] + stack[b + 1..]);
    BinariesConcat(stack[..b], [stack[b]] + stack[b + 1..], un);
    BinariesConcat([stack[b]], stack[b + 1..], un);
  }

  lemma {:induction false} OwedClose(st: St, depth: nat, un: set<nat>)
    requires Owed(st, false, depth, un) && depth > 0
    ensures OpenAt(st.stack) < |st.stack|
    ensures Owed(PopToOpen(st.(cnt := st.cnt - 1)), false, depth - 1, un)
  {
    NoBrackets(st.stack);
    var b := OpenAt(st.stack);
    BracketsBelowOpen(st.stack);
    SplitAtOpen(st.stack, un);
    HeightConcat(st.out, st.stack[..b], 0, un);
    OperatorsLower(st.stack[..b], Height(st.out, 0, un), un);
  }

  // A prefix operator makes the top of the stack give way before its last
  // operand has come, and the values are too few for it.
  predicate Starves(st: St, t: Tok, wantOperand: bool, un: set<nat>) {
    && IsOperator(t) && wantOperand && st.cnt == 0
    && st.stack != [] && Yields(st.stack[0], t) && Binaries(st.stack, un) < Needs(st.stack[0], un)
  }

  // No token of ts does that.
  ghost predicate Fed(st: St, ts: seq<Tok>, wantOperand: bool, un: set<nat>)
    decreases |ts|
  {
    ts == [] || (!Starves(st, ts[0], wantOperand, un) && Fed(Step(st, ts[0]), ts[1..], WantAfter(ts[0], wantOperand, un), un))
  }

  // An operator, behind an operand or before one, with enough values for the
  // operator that gives way to it, if any does.
  lemma {:induction false} OwedOperator(st: St, wantOperand: bool, depth: nat, t: Tok, yielding: bool, un: set<nat>)
    requires Owed(st, wantOperand, depth, un) && IsOperator(t)
    requires wantOperand ==> IsUnary(t, un)
    requires st.stack != [] && yielding ==> depth == 0 && Height(st.out, 0, un) >= Needs(st.stack[0], un)
    ensures Owed(StepOperator(st, t, yielding), wantOperand || IsBinary(t, un), depth, un)
  {
    if st.stack != [] && yielding {
      NoBrackets(st.stack);
      HeightOne(st.out, st.stack[0], 0, un);
      BracketsConcat([t], st.stack[1..]);
      BinariesConcat([t], st.stack[1..], un);
    } else {
      BracketsConcat([t], st.stack);
      BinariesConcat([t], st.stack, un);
    }
  }

  lemma {:induction false} OwedHasEnough(st: St, wantOperand: bool, t: Tok, un: set<nat>)
    requires Owed(st, wantOperand, 0, un) && IsOperator(t)
    requires st.stack != [] && Yields(st.stack[0], t) && !Starves(st, t, wantOperand, un)
    ensures Height(st.out, 0, un) >= Needs(st.stack[0], un)
  {
    NoBrackets(st.stack);
  }

  lemma {:induction false} OwedColon(st: St, t: Tok, un: set<nat>)
    requires Owed(st, false, 0, un) && IsColon(t)
    ensures Owed(Step(st, t), true, 0, un)
  {
    OwedFlush(st, un);
    HeightOne(st.out + st.stack, t, 0, un);
  }

  lemma {:induction false} OwedOperand(st: St, depth: nat, t: Tok, un: set<nat>)
    requires Owed(st, true, depth, un) && IsOperand(t)
    ensures Owed(Emit(st, t), false, depth, un)
  {
    HeightOne(st.out, t, 0, un);
  }

  lemma {:induction false} OwedOpen(st: St, depth: nat, t: Tok, un: set<nat>)
    requires Owed(st, true, depth, un) && IsOpen(t)
    ensures Owed(Push(st.(cnt := st.cnt + 1), t), true, depth + 1, un)
  {
    BracketsConcat([t], st.stack);
    BinariesConcat([t], st.stack, un);
  }

  // What is awaited, and how deep in brackets, behind a token.
  function WantAfter(t: Tok, wantOperand: bool, un: set<nat>): bool {
    IsColon(t) || IsOpen(t) || IsBinary(t, un) || (IsUnary(t, un) && wantOperand)
  }

  function DepthAfter(t: Tok, depth: nat): int {
    if IsColon(t) then 0 else if IsOpen(t) then depth + 1 else if IsClose(t) then depth - 1 else depth
  }

  lemma {:induction false} StepOwed(st: St, ts: seq<Tok>, wantOperand: bool, depth: nat, un: set<nat>)
    requires Owed(st, wantOperand, depth, un) && ts != [] && Infix(ts, wantOperand, depth, un) && !Starves(st, ts[0], wantOperand, un)
    ensures DepthAfter(ts[0], depth) >= 0
    ensures Owed(Step(st, ts[0]), WantAfter(ts[0], wantOperand, un), DepthAfter(ts[0], depth), un)
    ensures Infix(ts[1..], WantAfter(ts[0], wantOperand, un), DepthAfter(ts[0], depth), un)
  {
    var t := ts[0];
    if IsColon(t) {
      OwedColon(st, t, un);
    } else if IsOperand(t) {
      OwedOperand(st, depth, t, un);
    } else if IsOpen(t) {
      OwedOpen(st, depth, t, un);
    } else if IsClose(t) {
      OwedClose(st, depth, un);
    } else {
      var yielding := st.cnt == 0 && st.stack != [] && Yields(st.stack[0], t);
      if yielding {
        OwedHasEnough(st, wantOperand, t, un);
      }
      OwedOperator(st, wantOperand, depth, t, yielding, un);
    }
  }

  lemma {:induction false} RunOwed(st: St, ts: seq<Tok>, wantOperand: bool, depth: nat, un: set<nat>)
    requires Owed(st, wantOperand, depth, un) && Infix(ts, wantOperand, depth, un) && Fed(st, ts, wantOperand, un)
    ensures Owed(Run(st, ts), false, 0, un)
    decreases |ts|
  {
    if ts != [] {
      StepOwed(st, ts, wantOperand, depth, un);
      RunOwed(Step(st, ts[0]), ts[1..], WantAfter(ts[0], wantOperand, un), DepthAfter(ts[0], depth), un);
    }
  }

  lemma {:induction false} OutGrows(st: St, ts: seq<Tok>) returns (more: seq<Tok>)
    ensures Run(st, ts).out == st.out + more
    decreases |ts|
  {
    if ts == [] {
      more := [];
    } else {
      var st1 := Step(st, ts[0]);
      var first := st1.out[|st.out|..];
      assert st1.out == st.out + first;
      var rest := OutGrows(st1, ts[1..]);
      Regroup(st.out, first, rest);
      more := first + rest;
    }
  }

  lemma {:induction false} FailureStays(st: St, ts: seq<Tok>, un: set<nat>)
    requires Height(st.out, 0, un) < 0
    ensures Height(Run(st, ts).out + Run(st, ts).stack, 0, un) < 0
  {
    var more := OutGrows(st, ts);
    HeightConcat(st.out, more, 0, un);
    HeightConcat(st.out + more, Run(st, ts).stack, 0, un);
  }

  lemma {:induction false} StarvingFails(st: St, t: Tok, un: set<nat>)
    requires Owed(st, true, 0, un) && Starves(st, t, true, un)
    ensures Height(Step(st, t).out, 0, un) < 0
  {
    NoBrackets(st.stack);
    HeightOne(st.out, st.stack[0], 0, un);
  }

  lemma {:induction false} RunFails(st: St, ts: seq<Tok>, wantOperand: bool, depth: nat, un: set<nat>)
    requires Owed(st, wantOperand, depth, un) && Infix(ts, wantOperand, depth, un) && !Fed(st, ts, wantOperand, un)
    ensures Height(Run(st, ts).out + Run(st, ts).stack, 0, un) < 0
    decreases |ts|
  {
    if Starves(st, ts[0], wantOperand, un) {
      StarvingFails(st, ts[0], un);
      FailureStays(Step(st, ts[0]), ts[1..], un);
    } else {
      StepOwed(st, ts, wantOperand, depth, un);
      RunFails(Step(st, ts[0]), ts[1..], WantAfter(ts[0], wantOperand, un), DepthAfter(ts[0], depth), un);
    }
  }

  lemma {:induction false} FedCons(st: St, t: Tok, ts: seq<Tok>, wantOperand: bool, un: set<nat>)
    ensures Fed(st, [t] + ts, wantOperand, un)
       <==> !Starves(st, t, wantOperand, un) && Fed(Step(st, t), ts, WantAfter(t, wantOperand, un), un)
  {
    assert ([t] + ts)[1..] == ts;
  }

  // Balanced alternating segments become postfix segments that evaluate, no
  // operator short of a value and each segment ending at exactly one, exactly
  // when no prefix operator makes another operator give way too early.
  lemma {:induction false} InfixBecomesPostfixExactlyWhen(ts: seq<Tok>, un: set<nat>)
    requires Infix(ts, true, 0, un)
    ensures Height(ToPostfix(ts), 0, un) == 1 <==> Fed(START, ts, true, un)
  {
    if Fed(START, ts, true, un) {
      RunOwed(START, ts, true, 0, un);
      OwedFlush(Run(START, ts), un);
    } else {
      RunFails(START, ts, true, 0, un);
    }
  }

  // No operator stands where an operand is awaited.
  predicate NoPrefix(ts: seq<Tok>, wantOperand: bool, un: set<nat>)
    decreases |ts|
  {
    ts == [] || (!(wantOperand && IsOperator(ts[0])) && NoPrefix(ts[1..], WantAfter(ts[0], wantOperand, un), un))
  }

  // Then none makes another give way too early.
  lemma {:induction false} FedWithoutPrefix(st: St, ts: seq<Tok>, wantOperand: bool, un: set<nat>)
    requires NoPrefix(ts, wantOperand, un)
    ensures Fed(st, ts, wantOperand, un)
    decreases |ts|
  {
    if ts != [] {
      FedWithoutPrefix(Step(st, ts[0]), ts[1..], WantAfter(ts[0], wantOperand, un), un);
    }
  }

  lemma {:induction false} BinaryHasNoPrefix(ts: seq<Tok>, wantOperand: bool, depth: nat)
    requires Infix(ts, wantOperand, depth, {})
    ensures NoPrefix(ts, wantOperand, {})
    decreases |ts|
  {
    if ts != [] {
      BinaryHasNoPrefix(ts[1..], WantAfter(ts[0], wantOperand, {}), DepthAfter(ts[0], depth));
    }
  }

  // So a text in which operands and binary operators alternate always becomes
  // well-formed postfix, whatever the labels of its operators.
  lemma {:induction false} BinaryInfixBecomesPostfix(ts: seq<Tok>)
    requires Infix(ts, true, 0, {})
    ensures Height(ToPostfix(ts), 0, {}) == 1
  {
    BinaryHasNoPrefix(ts, true, 0);
    FedWithoutPrefix(START, ts, true, {});
    InfixBecomesPostfixExactlyWhen(ts, {});
  }

  // But two prefix operators at the start fail whenever the first gives way to
  // the second, as any does to one with its own label.
  lemma {:induction false} TwoPrefixesFail(x: Tok, y: Tok, ts: seq<Tok>, un: set<nat>)
    requires IsUnary(x, un) && IsUnary(y, un) && Infix(ts, true, 0, un)
    requires Yields(x, y)
    ensures Infix([x, y] + ts, true, 0, un) && Height(ToPostfix([x, y] + ts), 0, un) < 0
  {
    var all := [x] + ([y] + ts);
    assert [x, y] + ts == all && all[1..] == [y] + ts && ([y] + ts)[1..] == ts;
    assert Step(START, x) == Push(START, x);
    assert Starves(Step(START, x), y, true, un);
    FedCons(START, x, [y] + ts, true, un);
    FedCons(Step(START, x), y, ts, true, un);
    RunFails(START, all, true, 0, un);
  }

  // And so does a prefix operator behind a binary one that gives way to it, with
  // one operand before both.
  lemma {:induction false} PrefixBehindBinaryFails(o: Tok, x: Tok, y: Tok, ts: seq<Tok>, un: set<nat>)
    requires IsOperand(o) && IsBinary(x, un) && IsUnary(y, un) && Infix(ts, true, 0, un)
    requires Yields(x, y)
    ensures Infix([o, x, y] + ts, true, 0, un) && Height(ToPostfix([o, x, y] + ts), 0, un) < 0
  {
    var two, three := [y] + ts, [x] + ([y] + ts);
    var all := [o] + three;
    assert [o, x, y] + ts == all && all[1..] == three && three[1..] == two && two[1..] == ts;
    var st := Step(START, o);
    assert st == Emit(START, o) && Step(st, x) == Push(st, x);
    assert Starves(Step(st, x), y, true, un);
    FedCons(START, o, three, true, un);
    FedCons(st, x, two, false, un);
    FedCons(Step(st, x), y, ts, true, un);
    RunFails(START, all, true, 0, un);
  }

  // Such is a '-' behind a '+': every '+' and '-' between operands is labelled as
  // if it were a prefix operator, and so ranks as high.
  lemma {:induction false} MinusBehindPlusFails(a: string, b: string)
    requires IsOperand(Tok(0, a, 0)) && IsOperand(Tok(3, b, 0))
    ensures var ts := [Tok(0, a, 0), Tok(1, "+", PRE_OP), Tok(2, "-", PRE_OP)] + [Tok(3, b, 0)];
      Infix(ts, true, 0, {2}) && Height(ToPostfix(ts), 0, {2}) < 0
  {
    assert [Tok(3, b, 0)][1..] == [];
    PrefixBehindBinaryFails(Tok(0, a, 0), Tok(1, "+", PRE_OP), Tok(2, "-", PRE_OP), [Tok(3, b, 0)], {2});
  }

  // Height never fails on the way: after every token read, at least one value
  // is there, or a segment has just ended.
  lemma {:induction false} HeightStaysUp(ts: seq<Tok>, h: int, k: nat, un: set<nat>)
    requires k <= |ts| && Height(ts, h, un) >= 0
    ensures Height(ts[..k], h, un) >= 0
    ensures k > 0 && !IsColon(ts[k - 1]) ==> Height(ts[..k], h, un) >= 1
  {
    assert ts == ts[..k] + ts[k..];
    HeightConcat(ts[..k], ts[k..], h, un);
    if k > 0 {
      assert ts[..k] == ts[..k - 1] + [ts[k - 1]];
      HeightConcat(ts[..k - 1], [ts[k - 1]], h, un);
    }
  }
}
