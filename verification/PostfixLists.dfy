// The linked lists of Project8/ssu_string.c: tokens relinked in place between
// the input list, the output list and the operator stack.
module PostfixLists {
  import opened Common
  import opened Postfix

  // makepostfix relinks tokens and marks them; the text and the operand count
  // of a token never change here.
  class Token {
    const str: string
    const operands: int
    var nexttoken: Token?
    var ch: int
    var isch: int

    constructor (str: string, operands: int)
      ensures this.str == str && this.operands == operands && nexttoken == null
    {
      this.str, this.operands := str, operands;
      nexttoken, ch, isch := null, 0, 0;
    }
  }

  // head is a list header; s are the tokens behind it, in order.
  ghost predicate IsList(head: Token, s: seq<Token>)
    reads head`nexttoken, s`nexttoken
  {
    && head !in s
    && (forall i, j :: 0 <= i < j < |s| ==> s[i] != s[j])
    && head.nexttoken == (if s == [] then null else s[0])
    && (forall i {:trigger s[i].nexttoken} :: 0 <= i < |s| - 1 ==> s[i].nexttoken == s[i + 1])
    && (s != [] ==> s[|s| - 1].nexttoken == null)
  }

  method PopToken(head: Token, ghost s: seq<Token>) returns (tmp: Token?)
    requires IsList(head, s)
    modifies head`nexttoken, s`nexttoken
    ensures s == [] ==> tmp == null
    ensures s != [] ==> tmp == s[0] && tmp.nexttoken == null
    ensures IsList(head, Rest(s))
  {
    tmp := head.nexttoken;
    if head.nexttoken != null {
      head.nexttoken := tmp.nexttoken;
      tmp.nexttoken := null;
    }
  }

  method PushToken(head: Token, push: Token, ghost s: seq<Token>)
    requires IsList(head, s) && push != head && push !in s
    modifies head`nexttoken, push`nexttoken
    ensures IsList(head, [push] + s)
  {
    var tmp := head.nexttoken;
    head.nexttoken := push;
    push.nexttoken := tmp;
    ghost var l := [push] + s;
    forall i | 0 <= i < |l| - 1
      ensures l[i].nexttoken == l[i + 1]
    {
      assert i > 0 ==> l[i].nexttoken == s[i - 1].nexttoken;
    }
  }

  method InsertToken(head: Token, push: Token, ghost s: seq<Token>)
    requires IsList(head, s) && push != head && push !in s
    modifies head`nexttoken, s`nexttoken, push`nexttoken
    ensures IsList(head, s + [push])
  {
    var next := head;
    ghost var i := 0;
    while next.nexttoken != null
      invariant 0 <= i <= |s| && next == if i == 0 then head else s[i - 1]
      decreases |s| - i
    {
      next := next.nexttoken;
      i := i + 1;
    }
    next.nexttoken := push;
    push.nexttoken := null;
  }

  // The comparisons for an operator between two operands.
  method BinaryPriority(str: string) returns (ret: int, ch: int)
    ensures ret == Precedence(str)
    ensures ch == if Marked(str) then 1 else 0
  {
    ch := 0;
    if str == "->" || str == "." {
      ret := 1;
    } else if str == "*" {
      ch := 1;
      ret := 3;
    } else if str == "/" || str == "%" {
      ret := 3;
    } else if str == "+" {
      ch := 1;
      ret := 4;
    } else if str == "-" {
      ret := 4;
    } else if str == "<<" || str == ">>" {
      ret := 5;
    } else if str == "<" || str == "<=" {
      ch := 1;
      ret := 6;
    } else if str == ">" || str == ">=" {
      ch := 1;
      ret := 6;
    } else if str == "==" {
      ch := 1;
      ret := 7;
    } else if str == "!=" {
      ret := 7;
    } else if str == "&" {
      ch := 1;
      ret := 8;
    } else if str == "^" {
      ch := 1;
      ret := 9;
    } else if str == "|" {
      ch := 1;
      ret := 10;
    } else if str == "&&" {
      ch := 1;
      ret := 11;
    } else if str == "||" {
      ch := 1;
      ret := 12;
    } else {
      ret := 14;
    }
  }

  method PriorityOf(tk: Token) returns (ret: int)
    modifies tk`ch, tk`isch
    ensures ret == Priority(tk.str, tk.operands)
    ensures tk.ch == Mark(tk.str, tk.operands) && tk.isch == 0
  {
    tk.ch := 0;
    tk.isch := 0;
    if tk.operands == POST_OP {
      ret := 1;
    } else if tk.operands == PRE_OP {
      ret := 2;
    } else if tk.operands == TWO_OP {
      ret, tk.ch := BinaryPriority(tk.str);
    } else if tk.str == "," {
      tk.ch := 1;
      ret := 15;
    } else {
      tk.ch := 0;
      ret := 0;
    }
  }

  ghost predicate Apart(a: Token, s: seq<Token>, b: Token, t: seq<Token>) {
    a != b && a !in s && a !in t && b !in s && b !in t && forall i :: 0 <= i < |s| ==> s[i] !in t
  }

  // A token op is off both lists.
  ghost predicate Loose(op: Token, a: Token, s: seq<Token>, b: Token, t: seq<Token>) {
    Apart(a, s, b, t) && op != a && op != b && op !in s && op !in t
  }

  lemma {:induction false} LooseAdvance(op: Token, a: Token, s: seq<Token>, b: Token, t: seq<Token>)
    requires Loose(op, a, s, b, t)
    requires forall i, j :: 0 <= i < j < |s| ==> s[i] != s[j]
    ensures s != [] ==> Loose(s[0], a, s[1..], b, t + [op])
  {
    if s != [] {
      assert forall i :: 0 <= i < |s| - 1 ==> s[1..][i] == s[i + 1];
    }
  }

  // One turn of a flushing loop: insert the popped token, pop the next.
  method Advance(opstack: Token, phead: Token, op: Token, ghost s: seq<Token>, ghost o: seq<Token>)
    returns (op': Token?)
    requires IsList(opstack, s) && IsList(phead, o) && Loose(op, opstack, s, phead, o)
    modifies opstack`nexttoken, s`nexttoken, phead`nexttoken, o`nexttoken, op`nexttoken
    ensures IsList(phead, o + [op]) && IsList(opstack, Rest(s))
    ensures s == [] ==> op' == null
    ensures s != [] ==> op' == s[0] && Loose(s[0], opstack, Rest(s), phead, o + [op])
  {
    InsertToken(phead, op, o);
    op' := PopToken(opstack, s);
    LooseAdvance(op, opstack, s, phead, o);
  }

  // A flushing loop that has moved b tokens of the stack and holds the next.
  ghost predicate Flushing(opstack: Token, phead: Token, stack: seq<Token>, out: seq<Token>, op: Token?, b: nat)
    reads opstack`nexttoken, phead`nexttoken, stack`nexttoken, out`nexttoken
  {
    && b <= |stack|
    && IsList(phead, out + stack[..b]) && IsList(opstack, Rest(stack[b..]))
    && (op == null <==> b == |stack|)
    && (op != null ==> op == stack[b] && Loose(op, opstack, Rest(stack[b..]), phead, out + stack[..b]))
  }

  method FlushStart(opstack: Token, phead: Token, ghost stack: seq<Token>, ghost out: seq<Token>)
    returns (op: Token?)
    requires IsList(opstack, stack) && IsList(phead, out) && Apart(opstack, stack, phead, out)
    modifies opstack`nexttoken, stack`nexttoken
    ensures Flushing(opstack, phead, stack, out, op, 0)
  {
    op := PopToken(opstack, stack);
    assert out + stack[..0] == out && stack[0..] == stack;
  }

  method FlushTurn(opstack: Token, phead: Token, op: Token, ghost stack: seq<Token>, ghost out: seq<Token>, ghost b: nat)
    returns (op': Token?)
    requires Flushing(opstack, phead, stack, out, op, b)
    modifies opstack`nexttoken, stack`nexttoken, phead`nexttoken, out`nexttoken
    ensures b < |stack| && Flushing(opstack, phead, stack, out, op', b + 1)
  {
    op' := Advance(opstack, phead, op, Rest(stack[b..]), out + stack[..b]);
    assert out + stack[..b] + [op] == out + stack[..b + 1];
    assert Rest(stack[b..]) == stack[b + 1..];
  }

  // Every token comes off the stack and goes to the end of the output.
  method Flush(opstack: Token, phead: Token, ghost stack: seq<Token>, ghost out: seq<Token>)
    requires IsList(opstack, stack) && IsList(phead, out) && Apart(opstack, stack, phead, out)
    modifies opstack`nexttoken, stack`nexttoken, phead`nexttoken, out`nexttoken
    ensures IsList(opstack, []) && IsList(phead, out + stack)
  {
    ghost var b := 0;
    var op := FlushStart(opstack, phead, stack, out);
    while op != null
      invariant Flushing(opstack, phead, stack, out, op, b)
      decreases |stack| - b
    {
      op := FlushTurn(opstack, phead, op, stack, out, b);
      b := b + 1;
    }
    assert stack[..b] == stack;
  }

  ghost predicate OpenNode(t: Token) {
    Isop(First(t.str)) == 6
  }

  // The loop at a closing bracket: the same, but an open bracket ends it.
  method FlushToOpen(opstack: Token, phead: Token, ghost stack: seq<Token>, ghost out: seq<Token>)
    returns (found: bool, ghost b: nat)
    requires IsList(opstack, stack) && IsList(phead, out) && Apart(opstack, stack, phead, out)
    modifies opstack`nexttoken, stack`nexttoken, phead`nexttoken, out`nexttoken
    ensures b <= |stack| && found == (b < |stack|)
    ensures found ==> OpenNode(stack[b])
    ensures forall j :: 0 <= j < b ==> !OpenNode(stack[j])
    ensures IsList(phead, out + stack[..b]) && IsList(opstack, if found then stack[b + 1..] else [])
  {
    b := 0;
    var op := FlushStart(opstack, phead, stack, out);
    while op != null
      invariant Flushing(opstack, phead, stack, out, op, b)
      invariant forall j :: 0 <= j < b ==> !OpenNode(stack[j])
      decreases |stack| - b
    {
      if Isop(First(op.str)) == 6 {
        assert Rest(stack[b..]) == stack[b + 1..];
        return true, b;
      }
      op := FlushTurn(opstack, phead, op, stack, out, b);
      b := b + 1;
    }
    found := false;
  }

  // ------------------------------------- both lists, whatever they stand for

  ghost predicate Lists(phead: Token, outN: seq<Token>, opstack: Token, stackN: seq<Token>)
    reads phead`nexttoken, outN`nexttoken, opstack`nexttoken, stackN`nexttoken
  {
    IsList(phead, outN) && IsList(opstack, stackN) && Apart(opstack, stackN, phead, outN)
  }

  method InsertOut(phead: Token, ghost opstack: Token, tmp: Token, ghost outN: seq<Token>, ghost stackN: seq<Token>)
    requires Lists(phead, outN, opstack, stackN) && Loose(tmp, opstack, stackN, phead, outN)
    modifies phead`nexttoken, outN`nexttoken, tmp`nexttoken
    ensures Lists(phead, outN + [tmp], opstack, stackN)
  {
    InsertToken(phead, tmp, outN);
  }

  method PushStack(ghost phead: Token, opstack: Token, tmp: Token, ghost outN: seq<Token>, ghost stackN: seq<Token>)
    requires Lists(phead, outN, opstack, stackN) && Loose(tmp, opstack, stackN, phead, outN)
    modifies opstack`nexttoken, tmp`nexttoken
    ensures Lists(phead, outN, opstack, [tmp] + stackN)
  {
    PushToken(opstack, tmp, stackN);
  }

  method FlushLists(phead: Token, opstack: Token, ghost outN: seq<Token>, ghost stackN: seq<Token>)
    requires Lists(phead, outN, opstack, stackN)
    modifies opstack`nexttoken, stackN`nexttoken, phead`nexttoken, outN`nexttoken
    ensures Lists(phead, outN + stackN, opstack, [])
  {
    Flush(opstack, phead, stackN, outN);
  }

  function AfterOpen(ns: seq<Token>, b: nat): seq<Token>
    requires b <= |ns|
  {
    if b < |ns| then ns[b + 1..] else []
  }

  method FlushListsToOpen(phead: Token, opstack: Token, ghost outN: seq<Token>, ghost stackN: seq<Token>)
    returns (found: bool, ghost b: nat)
    requires Lists(phead, outN, opstack, stackN)
    modifies opstack`nexttoken, stackN`nexttoken, phead`nexttoken, outN`nexttoken
    ensures b <= |stackN| && found == (b < |stackN|)
    ensures found ==> OpenNode(stackN[b])
    ensures forall j :: 0 <= j < b ==> !OpenNode(stackN[j])
    ensures Lists(phead, outN + stackN[..b], opstack, AfterOpen(stackN, b))
  {
    found, b := FlushToOpen(opstack, phead, stackN, outN);
  }

  method TakeTop(ghost phead: Token, opstack: Token, ghost outN: seq<Token>, ghost stackN: seq<Token>) returns (op: Token)
    requires Lists(phead, outN, opstack, stackN) && stackN != []
    modifies opstack`nexttoken, stackN`nexttoken
    ensures op == stackN[0] && Lists(phead, outN, opstack, stackN[1..]) && Loose(op, opstack, stackN[1..], phead, outN)
  {
    op := PopToken(opstack, stackN);
  }

  // ------------------------------------------------- lists against the machine

  // No node twice.
  ghost predicate Distinct(s: seq<Token>)
    decreases |s|
  {
    s == [] || (s[|s| - 1] !in s[..|s| - 1] && Distinct(s[..|s| - 1]))
  }

  lemma {:induction false} DistinctPairs(s: seq<Token>)
    ensures Distinct(s) <==> forall i, j :: 0 <= i < j < |s| ==> s[i] != s[j]
    decreases |s|
  {
    if s != [] {
      var n := |s| - 1;
      DistinctPairs(s[..n]);
      assert forall i :: 0 <= i < n ==> s[..n][i] == s[i];
    }
  }

  // One call of makepostfix: the input nodes, their values, the two headers.
  datatype Job = Job(input: seq<Token>, vals: seq<Tok>, phead: Token, opstack: Token)
  {
    ghost predicate Valid() {
      && |vals| == |input| && Numbered(vals, 0)
      && phead !in input && opstack !in input
      && Distinct(input)
    }

    // The values are what the nodes say.
    ghost predicate Says()
      requires |vals| == |input|
    {
      forall i :: 0 <= i < |input| ==> vals[i].str == input[i].str && vals[i].operands == input[i].operands
    }

    // The values ts, all from the first i tokens, stand for the nodes ns.
    ghost predicate Mapped(i: nat, ts: seq<Tok>, ns: seq<Token>)
      requires |vals| == |input|
      decreases |ts|
    {
      && i <= |input| && |ns| == |ts|
      && (ts != [] ==> StandsFor(i, ts[0], ns[0]) && Mapped(i, ts[1..], ns[1..]))
    }

    ghost predicate StandsFor(i: nat, t: Tok, n: Token)
      requires |vals| == |input|
    {
      t.pos < i <= |input| && n == input[t.pos] && t == vals[t.pos]
    }

    lemma {:induction false} MappedEach(i: nat, ts: seq<Tok>, ns: seq<Token>)
      requires |vals| == |input| && i <= |input| && |ns| == |ts|
      ensures Mapped(i, ts, ns) <==> forall j :: 0 <= j < |ts| ==> StandsFor(i, ts[j], ns[j])
      decreases |ts|
    {
      if ts != [] {
        MappedEach(i, ts[1..], ns[1..]);
        assert forall j :: 0 < j < |ts| ==> ts[j] == ts[1..][j - 1] && ns[j] == ns[1..][j - 1];
      }
    }

    // The output list and the operator stack hold what the machine's state
    // says, all of it from the first i input tokens.
    ghost predicate Linked(i: nat, st: St, outN: seq<Token>, stackN: seq<Token>)
      requires |vals| == |input|
      reads phead`nexttoken, opstack`nexttoken, outN`nexttoken, stackN`nexttoken
    {
      Mapped(i, st.out, outN) && Mapped(i, st.stack, stackN) && Lists(phead, outN, opstack, stackN)
    }

    lemma {:induction false} MappedConcat(i: nat, a: seq<Tok>, an: seq<Token>, b: seq<Tok>, bn: seq<Token>)
      requires |vals| == |input| && Mapped(i, a, an) && Mapped(i, b, bn)
      ensures Mapped(i, a + b, an + bn)
    {
      MappedEach(i, a, an);
      MappedEach(i, b, bn);
      MappedEach(i, a + b, an + bn);
    }

    lemma {:induction false} MappedSplit(i: nat, a: seq<Tok>, an: seq<Token>, b: nat)
      requires |vals| == |input| && Mapped(i, a, an) && b <= |a|
      ensures Mapped(i, a[..b], an[..b]) && Mapped(i, a[b..], an[b..])
    {
      MappedEach(i, a, an);
      MappedEach(i, a[..b], an[..b]);
      MappedEach(i, a[b..], an[b..]);
    }

    lemma {:induction false} MappedOn(i: nat, ts: seq<Tok>, ns: seq<Token>)
      requires |vals| == |input| && Mapped(i, ts, ns) && i < |input|
      ensures Mapped(i + 1, ts, ns)
    {
      MappedEach(i, ts, ns);
      MappedEach(i + 1, ts, ns);
    }

    lemma {:induction false} MappedTop(i: nat, ts: seq<Tok>, ns: seq<Token>)
      requires |vals| == |input| && Mapped(i, ts, ns) && ts != []
      ensures Mapped(i, [ts[0]], [ns[0]]) && Mapped(i, ts[1..], ns[1..])
    {
    }

    lemma {:induction false} MappedInside(i: nat, ts: seq<Tok>, ns: seq<Token>)
      requires |vals| == |input| && Mapped(i, ts, ns)
      ensures forall j :: 0 <= j < |ns| ==> ns[j] in input[..i]
      ensures Valid() && i < |input| ==> input[i] !in ns
    {
      DistinctPairs(input);
      MappedEach(i, ts, ns);
      forall j | 0 <= j < |ns|
        ensures ns[j] in input[..i]
      {
        assert input[..i][ts[j].pos] == ns[j];
      }
    }

    lemma {:induction false} Own(i: nat)
      requires Valid() && i < |input|
      ensures Mapped(i + 1, [vals[i]], [input[i]])
    {
      assert Mapped(i + 1, [vals[i]][1..], [input[i]][1..]);
    }

    // The token at hand is loose, and everything linked so far is earlier input.
    lemma {:induction false} AtHand(i: nat, st: St, outN: seq<Token>, stackN: seq<Token>)
      requires Valid() && i < |input| && Linked(i, st, outN, stackN)
      ensures Loose(input[i], opstack, stackN, phead, outN)
      ensures Mapped(i + 1, [vals[i]], [input[i]])
      ensures Mapped(i + 1, st.out, outN) && Mapped(i + 1, st.stack, stackN)
      ensures forall j :: 0 <= j < |outN| ==> outN[j] in input[..i + 1]
      ensures input[i] in input[..i + 1]
    {
      MappedInside(i, st.out, outN);
      MappedInside(i, st.stack, stackN);
      MappedOn(i, st.out, outN);
      MappedOn(i, st.stack, stackN);
      MappedInside(i + 1, st.out, outN);
      Own(i);
      assert input[..i + 1][i] == input[i];
    }

    lemma {:induction false} AllInside(i: nat, st: St, outN: seq<Token>, stackN: seq<Token>)
      requires |vals| == |input| && Linked(i, st, outN, stackN)
      ensures forall j :: 0 <= j < |outN| ==> outN[j] in input[..i]
      ensures forall j :: 0 <= j < |stackN| ==> stackN[j] in input[..i]
    {
      MappedInside(i, st.out, outN);
      MappedInside(i, st.stack, stackN);
    }

    // The topmost open bracket, on nodes and on values.
    lemma {:induction false} SameOpen(i: nat, stack: seq<Tok>, ns: seq<Token>, b: nat)
      requires |vals| == |input| && Says() && Mapped(i, stack, ns) && b <= |stack|
      requires b < |stack| ==> OpenNode(ns[b])
      requires forall j :: 0 <= j < b ==> !OpenNode(ns[j])
      ensures b == OpenAt(stack)
    {
      MappedEach(i, stack, ns);
      forall j | 0 <= j < |stack|
        ensures OpenNode(ns[j]) <==> IsOpen(stack[j])
      {
        assert ns[j] == input[stack[j].pos];
      }
    }

    lemma {:induction false} MappedPop(i: nat, st: St, outN: seq<Token>, stackN: seq<Token>)
      requires |vals| == |input| && Mapped(i, st.out, outN) && Mapped(i, st.stack, stackN)
      ensures Mapped(i, PopToOpen(st).out, outN + stackN[..OpenAt(st.stack)])
      ensures Mapped(i, PopToOpen(st).stack, AfterOpen(stackN, OpenAt(st.stack)))
    {
      var b := OpenAt(st.stack);
      MappedSplit(i, st.stack, stackN, b);
      MappedConcat(i, st.out, outN, st.stack[..b], stackN[..b]);
      if b < |st.stack| {
        MappedSplit(i, st.stack, stackN, b + 1);
      } else {
        assert st.stack[..b] == st.stack;
      }
    }

    lemma {:induction false} TopIsInput(i: nat, st: St, outN: seq<Token>, stackN: seq<Token>)
      requires Valid() && Says() && i < |input| && Linked(i, st, outN, stackN) && opstack.nexttoken != null
      ensures st.stack != [] && opstack.nexttoken in input[..i + 1]
      ensures st.stack[0].str == opstack.nexttoken.str && st.stack[0].operands == opstack.nexttoken.operands
    {
      assert opstack.nexttoken == stackN[0];
      assert input[..i + 1][st.stack[0].pos] == input[st.stack[0].pos];
    }
  }

  // What a piece of makepostfix hands on: the machine's state and its nodes.
  datatype View = View(st: St, outN: seq<Token>, stackN: seq<Token>)

  ghost predicate Holds(job: Job, i: nat, v: View)
    requires |job.vals| == |job.input|
    reads job.phead`nexttoken, job.opstack`nexttoken, v.outN`nexttoken, v.stackN`nexttoken
  {
    job.Linked(i, v.st, v.outN, v.stackN)
  }

  method EmitToken(tmp: Token, phead: Token, ghost job: Job, ghost i: nat, ghost v: View) returns (ghost v': View)
    requires job.Valid() && i < |job.input| && Holds(job, i, v) && phead == job.phead && tmp == job.input[i]
    modifies phead`nexttoken, job.input[..i + 1]`nexttoken
    ensures Holds(job, i + 1, v') && v'.st == Emit(v.st, job.vals[i])
  {
    v' := View(Emit(v.st, job.vals[i]), v.outN + [tmp], v.stackN);
    job.AtHand(i, v.st, v.outN, v.stackN);
    InsertOut(phead, job.opstack, tmp, v.outN, v.stackN);
    job.MappedConcat(i + 1, v.st.out, v.outN, [job.vals[i]], [tmp]);
  }

  method PushOperator(tmp: Token, opstack: Token, ghost job: Job, ghost i: nat, ghost v: View) returns (ghost v': View)
    requires job.Valid() && i < |job.input| && Holds(job, i, v) && opstack == job.opstack && tmp == job.input[i]
    modifies opstack`nexttoken, job.input[..i + 1]`nexttoken
    ensures Holds(job, i + 1, v') && v'.st == Push(v.st, job.vals[i])
  {
    v' := View(Push(v.st, job.vals[i]), v.outN, [tmp] + v.stackN);
    job.AtHand(i, v.st, v.outN, v.stackN);
    PushStack(job.phead, opstack, tmp, v.outN, v.stackN);
    job.MappedConcat(i + 1, [job.vals[i]], [tmp], v.st.stack, v.stackN);
  }

  method FlushStack(phead: Token, opstack: Token, ghost job: Job, ghost i: nat, ghost v: View) returns (ghost v': View)
    requires job.Valid() && i <= |job.input| && Holds(job, i, v) && phead == job.phead && opstack == job.opstack
    modifies phead`nexttoken, opstack`nexttoken, job.input[..i]`nexttoken
    ensures Holds(job, i, v') && v'.st == v.st.(out := v.st.out + v.st.stack, stack := [])
  {
    v' := View(v.st.(out := v.st.out + v.st.stack, stack := []), v.outN + v.stackN, []);
    job.AllInside(i, v.st, v.outN, v.stackN);
    FlushLists(phead, opstack, v.outN, v.stackN);
    job.MappedConcat(i, v.st.out, v.outN, v.st.stack, v.stackN);
  }

  method FlushBracket(phead: Token, opstack: Token, ghost job: Job, ghost i: nat, ghost v: View)
    returns (found: bool, ghost v': View)
    requires job.Valid() && job.Says() && i <= |job.input| && Holds(job, i, v)
    requires phead == job.phead && opstack == job.opstack
    modifies phead`nexttoken, opstack`nexttoken, job.input[..i]`nexttoken
    ensures found == (OpenAt(v.st.stack) < |v.st.stack|)
    ensures Holds(job, i, v') && v'.st == PopToOpen(v.st)
  {
    job.AllInside(i, v.st, v.outN, v.stackN);
    ghost var b;
    found, b := FlushListsToOpen(phead, opstack, v.outN, v.stackN);
    job.SameOpen(i, v.st.stack, v.stackN, b);
    job.MappedPop(i, v.st, v.outN, v.stackN);
    v' := View(PopToOpen(v.st), v.outN + v.stackN[..b], AfterOpen(v.stackN, b));
  }

  // An operator on top of the stack gives way: it is emitted, or dropped if it
  // is an open bracket.
  ghost function Yielded(st: St): St
    requires st.stack != []
  {
    var st1 := st.(stack := st.stack[1..]);
    if IsOpen(st.stack[0]) then st1 else Emit(st1, st.stack[0])
  }

  // An operator taken off the stack goes to the output.
  method EmitTaken(op: Token, phead: Token, ghost opstack: Token, ghost job: Job, ghost i: nat, ghost v: View)
    requires job.Valid() && v.st.stack != [] && v.stackN != [] && op == v.stackN[0]
    requires job.Mapped(i, v.st.out, v.outN) && job.Mapped(i, [v.st.stack[0]], [op])
    requires Lists(phead, v.outN, opstack, v.stackN[1..]) && Loose(op, opstack, v.stackN[1..], phead, v.outN)
    modifies phead`nexttoken, v.outN`nexttoken, op`nexttoken
    ensures Lists(phead, v.outN + [op], opstack, v.stackN[1..])
    ensures job.Mapped(i, v.st.out + [v.st.stack[0]], v.outN + [op])
  {
    InsertOut(phead, opstack, op, v.outN, v.stackN[1..]);
    job.MappedConcat(i, v.st.out, v.outN, [v.st.stack[0]], [op]);
  }

  method YieldTop(phead: Token, opstack: Token, ghost job: Job, ghost i: nat, ghost v: View) returns (ghost v': View)
    requires job.Valid() && job.Says() && i <= |job.input| && Holds(job, i, v)
    requires phead == job.phead && opstack == job.opstack && v.st.stack != []
    modifies phead`nexttoken, opstack`nexttoken, job.input[..i]`nexttoken
    ensures Holds(job, i, v') && v'.st == Yielded(v.st)
  {
    job.AllInside(i, v.st, v.outN, v.stackN);
    var op := TakeTop(phead, opstack, v.outN, v.stackN);
    job.MappedTop(i, v.st.stack, v.stackN);
    if Isop(First(op.str)) != 6 {
      EmitTaken(op, phead, opstack, job, i, v);
      v' := View(Yielded(v.st), v.outN + [op], v.stackN[1..]);
      assert Holds(job, i, v');
    } else {
      v' := View(Yielded(v.st), v.outN, v.stackN[1..]);
      assert Holds(job, i, v');
    }
  }

  ghost predicate YieldsTop(st: St, t: Tok) { st.stack != [] && Yields(st.stack[0], t) }

  method YieldAndPush(tmp: Token, phead: Token, opstack: Token, ghost job: Job, ghost i: nat, ghost v: View)
    returns (ghost v': View)
    requires job.Valid() && job.Says() && i < |job.input| && Holds(job, i, v)
    requires phead == job.phead && opstack == job.opstack && tmp == job.input[i] && v.st.stack != []
    modifies phead`nexttoken, opstack`nexttoken, job.input[..i + 1]`nexttoken
    ensures Holds(job, i + 1, v') && v'.st == Push(Yielded(v.st), job.vals[i])
  {
    v' := YieldTop(phead, opstack, job, i, v);
    v' := PushOperator(tmp, opstack, job, i, v');
  }

  method PlaceOperator(tmp: Token, phead: Token, opstack: Token, ghost job: Job, ghost i: nat, ghost v: View)
    returns (ghost v': View)
    requires job.Valid() && job.Says() && i < |job.input| && Holds(job, i, v)
    requires phead == job.phead && opstack == job.opstack && tmp == job.input[i]
    modifies phead`nexttoken, opstack`nexttoken, job.input[..i + 1]`nexttoken
    modifies job.input[..i + 1]`ch, job.input[..i + 1]`isch
    ensures Holds(job, i + 1, v')
    ensures v'.st == StepOperator(v.st, job.vals[i], YieldsTop(v.st, job.vals[i]))
  {
    assert opstack.nexttoken == null <==> v.st.stack == [];
    if opstack.nexttoken == null {
      v' := PushOperator(tmp, opstack, job, i, v);
    } else {
      job.TopIsInput(i, v.st, v.outN, v.stackN);
      assert job.input[..i + 1][i] == tmp;
      var mine := PriorityOf(tmp);
      var top := PriorityOf(opstack.nexttoken);
      if mine >= top {
        v' := YieldAndPush(tmp, phead, opstack, job, i, v);
      } else {
        v' := PushOperator(tmp, opstack, job, i, v);
      }
    }
  }

  // A token that goes to neither list is simply passed.
  lemma {:induction false} NextInput(job: Job, i: nat, v: View)
    requires job.Valid() && i < |job.input| && Holds(job, i, v)
    ensures Holds(job, i + 1, v)
  {
    job.MappedOn(i, v.st.out, v.outN);
    job.MappedOn(i, v.st.stack, v.stackN);
  }

  // An open bracket after cnt open ones.
  method PlaceOpen(tmp: Token, phead: Token, opstack: Token, cnt: int, ghost job: Job, ghost i: nat, ghost v: View)
    returns (ghost v': View)
    requires job.Valid() && job.Says() && i < |job.input| && Holds(job, i, v)
    requires phead == job.phead && opstack == job.opstack && tmp == job.input[i]
    modifies phead`nexttoken, opstack`nexttoken, job.input[..i + 1]`nexttoken
    ensures Holds(job, i + 1, v')
    ensures v'.st == var st1 := v.st.(cnt := cnt); if tmp.operands != POST_OP then Push(st1, job.vals[i]) else Emit(st1, job.vals[i])
  {
    v' := v.(st := v.st.(cnt := cnt));
    if tmp.operands != POST_OP {
      v' := PushOperator(tmp, opstack, job, i, v');
    } else {
      v' := EmitToken(tmp, phead, job, i, v');
    }
  }

  // A close bracket inside brackets, with cnt still open behind it.
  method PlaceCloseNested(phead: Token, opstack: Token, cnt: int, ghost job: Job, ghost i: nat, ghost v: View)
    returns (ghost v': View)
    requires job.Valid() && job.Says() && i < |job.input| && Holds(job, i, v)
    requires phead == job.phead && opstack == job.opstack
    modifies phead`nexttoken, opstack`nexttoken, job.input[..i + 1]`nexttoken
    ensures Holds(job, i + 1, v') && v'.st == PopToOpen(v.st.(cnt := cnt)) && v'.st.cnt == cnt
  {
    assert forall j :: 0 <= j < i ==> job.input[..i][j] == job.input[..i + 1][j];
    var _, popped := FlushBracket(phead, opstack, job, i, v.(st := v.st.(cnt := cnt)));
    v' := popped;
    NextInput(job, i, v');
  }

  method PlaceBracketNested(tmp: Token, phead: Token, opstack: Token, cnt: int, ghost job: Job, ghost i: nat, ghost v: View)
    returns (cnt': int, ghost v': View)
    requires job.Valid() && job.Says() && i < |job.input| && Holds(job, i, v) && cnt == v.st.cnt
    requires phead == job.phead && opstack == job.opstack && tmp == job.input[i] && IsBracket(job.vals[i])
    modifies phead`nexttoken, opstack`nexttoken, job.input[..i + 1]`nexttoken
    ensures Holds(job, i + 1, v')
    ensures v'.st == StepNested(v.st, job.vals[i]) && cnt' == v'.st.cnt
  {
    assert job.vals[i].str == tmp.str && job.vals[i].operands == tmp.operands;
    if Isop(First(tmp.str)) == 6 {
      cnt' := cnt + 1;
      v' := PlaceOpen(tmp, phead, opstack, cnt', job, i, v);
      assert v'.st == StepNested(v.st, job.vals[i]);
    } else {
      cnt' := cnt - 1;
      v' := PlaceCloseNested(phead, opstack, cnt', job, i, v);
      assert v'.st == StepNested(v.st, job.vals[i]);
    }
  }

  method PlaceNested(tmp: Token, phead: Token, opstack: Token, cnt: int, ghost job: Job, ghost i: nat, ghost v: View)
    returns (cnt': int, ghost v': View)
    requires job.Valid() && job.Says() && i < |job.input| && Holds(job, i, v) && cnt == v.st.cnt
    requires phead == job.phead && opstack == job.opstack && tmp == job.input[i]
    modifies phead`nexttoken, opstack`nexttoken, job.input[..i + 1]`nexttoken
    ensures Holds(job, i + 1, v')
    ensures v'.st == StepNested(v.st, job.vals[i]) && cnt' == v'.st.cnt
  {
    assert job.vals[i].str == tmp.str && job.vals[i].operands == tmp.operands;
    cnt' := cnt;
    if Isop(First(tmp.str)) <= 0 {
      v' := EmitToken(tmp, phead, job, i, v);
      assert v'.st == StepNested(v.st, job.vals[i]);
    } else if Isop(First(tmp.str)) == 6 || Isop(First(tmp.str)) == 7 {
      cnt', v' := PlaceBracketNested(tmp, phead, opstack, cnt, job, i, v);
    } else {
      v' := PushOperator(tmp, opstack, job, i, v);
      assert v'.st == StepNested(v.st, job.vals[i]);
    }
  }

  method PlaceCloseTop(tmp: Token, phead: Token, opstack: Token, cnt: int, ghost job: Job, ghost i: nat, ghost v: View)
    returns (cnt': int, ghost v': View)
    requires job.Valid() && job.Says() && i < |job.input| && Holds(job, i, v) && cnt == v.st.cnt
    requires phead == job.phead && opstack == job.opstack && tmp == job.input[i]
    modifies phead`nexttoken, opstack`nexttoken, job.input[..i + 1]`nexttoken
    ensures Holds(job, i + 1, v')
    ensures v'.st == CloseTop(v.st, job.vals[i]) && cnt' == v'.st.cnt
  {
    var found, popped := FlushBracket(phead, opstack, job, i, v);
    cnt' := if found then cnt - 1 else cnt;
    v' := popped.(st := popped.st.(cnt := cnt'));
    CloseTopIs(v.st, job.vals[i], found, cnt');
    if tmp.operands == 1 {
      v' := EmitToken(tmp, phead, job, i, v');
    } else {
      NextInput(job, i, v');
    }
  }

  method PlaceTop(tmp: Token, phead: Token, opstack: Token, cnt: int, ghost job: Job, ghost i: nat, ghost v: View)
    returns (cnt': int, ghost v': View)
    requires job.Valid() && job.Says() && i < |job.input| && Holds(job, i, v) && cnt == v.st.cnt
    requires phead == job.phead && opstack == job.opstack && tmp == job.input[i]
    modifies phead`nexttoken, opstack`nexttoken, job.input[..i + 1]`nexttoken
    modifies job.input[..i + 1]`ch, job.input[..i + 1]`isch
    ensures Holds(job, i + 1, v')
    ensures v'.st == StepTop(v.st, job.vals[i], YieldsTop(v.st, job.vals[i])) && cnt' == v'.st.cnt
  {
    assert job.vals[i].str == tmp.str && job.vals[i].operands == tmp.operands;
    cnt' := cnt;
    if Isop(First(tmp.str)) <= 0 {
      v' := EmitToken(tmp, phead, job, i, v);
      assert v'.st == StepTop(v.st, job.vals[i], YieldsTop(v.st, job.vals[i]));
    } else if Isop(First(tmp.str)) == 6 {
      if tmp.operands != POST_OP {
        cnt' := cnt' + 1;
      }
      v' := PlaceOpen(tmp, phead, opstack, cnt', job, i, v);
      assert v'.st == StepTop(v.st, job.vals[i], YieldsTop(v.st, job.vals[i]));
    } else if Isop(First(tmp.str)) == 7 {
      cnt', v' := PlaceCloseTop(tmp, phead, opstack, cnt, job, i, v);
      assert v'.st == StepTop(v.st, job.vals[i], YieldsTop(v.st, job.vals[i]));
    } else {
      v' := PlaceOperator(tmp, phead, opstack, job, i, v);
      assert v'.st == StepTop(v.st, job.vals[i], YieldsTop(v.st, job.vals[i]));
    }
  }

  // A colon flushes the stack and goes out behind it.
  method PlaceColon(tmp: Token, phead: Token, opstack: Token, ghost job: Job, ghost i: nat, ghost v: View)
    returns (ghost v': View)
    requires job.Valid() && job.Says() && i < |job.input| && Holds(job, i, v)
    requires phead == job.phead && opstack == job.opstack && tmp == job.input[i]
    modifies phead`nexttoken, opstack`nexttoken, job.input[..i + 1]`nexttoken
    ensures Holds(job, i + 1, v')
    ensures v'.st == Emit(v.st.(out := v.st.out + v.st.stack, stack := []), job.vals[i])
  {
    v' := v;
    if opstack.nexttoken != null {
      v' := FlushStack(phead, opstack, job, i, v);
    } else {
      assert v.st.stack == [] && v.st.out + v.st.stack == v.st.out;
    }
    v' := EmitToken(tmp, phead, job, i, v');
  }

  // One pass of the loop of makepostfix, for the token just popped.
  method PlaceToken(tmp: Token, phead: Token, opstack: Token, cnt: int, ghost job: Job, ghost i: nat, ghost v: View)
    returns (cnt': int, ghost v': View)
    requires job.Valid() && job.Says() && i < |job.input| && Holds(job, i, v) && cnt == v.st.cnt
    requires phead == job.phead && opstack == job.opstack && tmp == job.input[i]
    modifies phead`nexttoken, opstack`nexttoken, job.input[..i + 1]`nexttoken
    modifies job.input[..i + 1]`ch, job.input[..i + 1]`isch
    ensures Holds(job, i + 1, v')
    ensures v'.st == Step(v.st, job.vals[i]) && cnt' == v'.st.cnt
  {
    assert job.vals[i].str == tmp.str;
    assert job.input[..i + 1][i] == tmp;
    var _ := PriorityOf(tmp);
    cnt' := cnt;
    if tmp.str == ":" {
      v' := PlaceColon(tmp, phead, opstack, job, i, v);
      assert v'.st == Step(v.st, job.vals[i]);
    } else if cnt != 0 {
      cnt', v' := PlaceNested(tmp, phead, opstack, cnt, job, i, v);
      assert v'.st == Step(v.st, job.vals[i]);
    } else {
      cnt', v' := PlaceTop(tmp, phead, opstack, cnt, job, i, v);
      assert v'.st == Step(v.st, job.vals[i]);
    }
  }

  // The input still to come is apart from the headers and from what was taken.
  lemma {:induction false} Ahead(job: Job, i: nat)
    requires job.Valid() && i <= |job.input|
    ensures job.phead !in job.input[i..] && job.opstack !in job.input[i..]
    ensures forall j :: 0 <= j < |job.input[i..]| ==> job.input[i..][j] !in job.input[..i]
  {
    DistinctPairs(job.input);
  }

  // The loop at its head: i tokens placed, the next one in hand, the rest
  // still on the input list.
  ghost predicate Looping(head: Token, job: Job, i: nat, v: View, tmp: Token?)
    requires |job.vals| == |job.input|
    reads head`nexttoken, job.input`nexttoken
    reads job.phead`nexttoken, job.opstack`nexttoken, v.outN`nexttoken, v.stackN`nexttoken
  {
    && i <= |job.input| && Holds(job, i, v)
    && tmp == (if i < |job.input| then job.input[i] else null)
    && IsList(head, Rest(job.input[i..]))
  }

  // Taking the next input token does not touch what is linked already.
  method PopInput(head: Token, ghost job: Job, ghost i: nat, ghost v: View) returns (tmp: Token?)
    requires job.Valid() && i <= |job.input| && Holds(job, i, v) && IsList(head, job.input[i..])
    requires head != job.phead && head != job.opstack && head !in job.input
    modifies head`nexttoken, job.input[i..]`nexttoken
    ensures Holds(job, i, v) && IsList(head, Rest(job.input[i..]))
    ensures tmp == if i < |job.input| then job.input[i] else null
  {
    Ahead(job, i);
    job.AllInside(i, v.st, v.outN, v.stackN);
    tmp := PopToken(head, job.input[i..]);
  }

  method NextToken(head: Token, ghost job: Job, ghost i: nat, ghost v: View) returns (tmp: Token?)
    requires job.Valid() && i <= |job.input| && Holds(job, i, v) && IsList(head, job.input[i..])
    requires head != job.phead && head != job.opstack && head !in job.input
    modifies head`nexttoken, job.input`nexttoken
    ensures Looping(head, job, i, v, tmp)
  {
    tmp := PopInput(head, job, i, v);
  }

  // Placing a token does not touch the input still to come.
  method PlaceApart(tmp: Token, ghost head: Token, phead: Token, opstack: Token, cnt: int,
                    ghost job: Job, ghost i: nat, ghost v: View)
    returns (cnt': int, ghost v': View)
    requires job.Valid() && job.Says() && i < |job.input| && Holds(job, i, v) && cnt == v.st.cnt
    requires phead == job.phead && opstack == job.opstack && tmp == job.input[i]
    requires head != phead && head != opstack && head !in job.input && IsList(head, job.input[i + 1..])
    modifies phead`nexttoken, opstack`nexttoken, job.input`nexttoken, job.input`ch, job.input`isch
    ensures Holds(job, i + 1, v') && v'.st == Step(v.st, job.vals[i]) && cnt' == v'.st.cnt
    ensures IsList(head, job.input[i + 1..])
  {
    Ahead(job, i + 1);
    assert head !in job.input[..i + 1];
    cnt', v' := PlaceToken(tmp, phead, opstack, cnt, job, i, v);
  }

  method Turn(tmp: Token, head: Token, phead: Token, opstack: Token, cnt: int, ghost job: Job, ghost i: nat, ghost v: View)
    returns (tmp': Token?, cnt': int, ghost v': View)
    requires job.Valid() && job.Says() && Looping(head, job, i, v, tmp) && cnt == v.st.cnt
    requires phead == job.phead && opstack == job.opstack
    requires head != phead && head != opstack && head !in job.input
    modifies head`nexttoken, phead`nexttoken, opstack`nexttoken
    modifies job.input`nexttoken, job.input`ch, job.input`isch
    ensures i < |job.input| && Looping(head, job, i + 1, v', tmp')
    ensures v'.st == Step(v.st, job.vals[i]) && cnt' == v'.st.cnt
  {
    assert Rest(job.input[i..]) == job.input[i + 1..];
    cnt', v' := PlaceApart(tmp, head, phead, opstack, cnt, job, i, v);
    tmp' := NextToken(head, job, i + 1, v');
  }

  method Begin(head: Token, ghost job: Job) returns (tmp: Token?, ghost v: View)
    requires job.Valid() && IsList(head, job.input) && IsList(job.phead, []) && IsList(job.opstack, [])
    requires head != job.phead && head != job.opstack && job.phead != job.opstack
    modifies head`nexttoken, job.input`nexttoken
    ensures Looping(head, job, 0, v, tmp) && v.st == START
  {
    v := View(START, [], []);
    assert job.input[0..] == job.input;
    tmp := NextToken(head, job, 0, v);
  }

  // The flush behind the loop.
  method FlushRest(phead: Token, opstack: Token, ghost job: Job, ghost v: View) returns (ghost v': View)
    requires job.Valid() && Holds(job, |job.input|, v) && phead == job.phead && opstack == job.opstack
    modifies phead`nexttoken, opstack`nexttoken, job.input`nexttoken
    ensures Holds(job, |job.input|, v') && v'.st.out == v.st.out + v.st.stack && opstack.nexttoken == null
  {
    v' := v;
    if opstack.nexttoken != null {
      assert job.input[..|job.input|] == job.input;
      v' := FlushStack(phead, opstack, job, |job.input|, v);
    } else {
      assert v.st.stack == [] && v.st.out + v.st.stack == v.st.out;
    }
  }

  // The loop of makepostfix.
  method PlaceAll(head: Token, phead: Token, opstack: Token, ghost job: Job) returns (ghost v: View)
    requires job.Valid() && job.Says() && phead == job.phead && opstack == job.opstack
    requires IsList(head, job.input) && IsList(phead, []) && IsList(opstack, [])
    requires head !in job.input && head != phead && head != opstack && phead != opstack
    modifies head`nexttoken, phead`nexttoken, opstack`nexttoken
    modifies job.input`nexttoken, job.input`ch, job.input`isch
    ensures Looping(head, job, |job.input|, v, null) && v.st == Run(START, job.vals)
  {
    ghost var i := 0;
    var cnt := 0;
    var tmp: Token?;
    tmp, v := Begin(head, job);
    assert job.vals[0..] == job.vals;
    while tmp != null
      invariant Looping(head, job, i, v, tmp) && cnt == v.st.cnt
      invariant Run(START, job.vals) == Run(v.st, job.vals[i..])
      decreases |job.input| - i
    {
      RunStep(v.st, job.vals, i);
      tmp, cnt, v := Turn(tmp, head, phead, opstack, cnt, job, i, v);
      i := i + 1;
    }
  }

  // The loop and the last flush.
  method Rearrange(head: Token, phead: Token, opstack: Token, ghost job: Job) returns (ghost v: View)
    requires job.Valid() && job.Says() && phead == job.phead && opstack == job.opstack
    requires IsList(head, job.input) && IsList(phead, []) && IsList(opstack, [])
    requires head != phead && head != opstack && phead != opstack
    modifies head`nexttoken, phead`nexttoken, opstack`nexttoken
    modifies job.input`nexttoken, job.input`ch, job.input`isch
    ensures head.nexttoken == null && opstack.nexttoken == null
    ensures Holds(job, |job.input|, v) && v.st.out == ToPostfix(job.vals)
  {
    v := PlaceAll(head, phead, opstack, job);
    v := FlushRest(phead, opstack, job, v);
  }

  // The token nodes behind a sequence of token values.
  ghost function Nodes(input: seq<Token>, ts: seq<Tok>): (ns: seq<Token>)
    requires Within(ts, 0, |input|)
    ensures |ns| == |ts|
    ensures forall j :: 0 <= j < |ts| ==> ns[j] == input[ts[j].pos]
  {
    seq(|ts|, j requires 0 <= j < |ts| => input[ts[j].pos])
  }

  // makepostfix: the same token nodes, in the order the machine says.
  method MakePostfix(head: Token, phead: Token, opstack: Token, ghost input: seq<Token>, ghost vals: seq<Tok>)
    requires IsList(head, input) && IsList(phead, []) && IsList(opstack, [])
    requires head != phead && head != opstack && phead != opstack && phead !in input && opstack !in input
    requires |vals| == |input|
    requires forall i :: 0 <= i < |input| ==> vals[i] == Tok(i, input[i].str, input[i].operands)
    modifies head`nexttoken, phead`nexttoken, opstack`nexttoken, input`nexttoken, input`ch, input`isch
    ensures head.nexttoken == null && opstack.nexttoken == null
    ensures Within(ToPostfix(vals), 0, |input|)
    ensures IsList(phead, Nodes(input, ToPostfix(vals)))
  {
    ghost var job := Job(input, vals, phead, opstack);
    DistinctPairs(input);
    ghost var v := Rearrange(head, phead, opstack, job);
    job.MappedEach(|input|, v.st.out, v.outN);
    assert v.outN == Nodes(input, ToPostfix(vals));
  }
}
