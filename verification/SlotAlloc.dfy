// Project4/alloc/test_alloc.c: a first-fit allocator over 512 slots of 8 bytes.
module SlotAlloc {
  const SLOTS := 512

  // section: which allocation holds the slot, 0 for none; status: 1 in use.
  datatype Cell = Cell(section: int, status: int)

  datatype Mem = Mem(cells: seq<Cell>, num: int)

  const FREE := Cell(0, 0)

  // An address is the number of its slot; None is the null pointer.
  datatype Pointer = Null | At(slot: nat)

  predicate FreeRun(s: seq<Cell>, start: nat, n: nat) {
    start + n <= |s| && forall k :: start <= k < start + n ==> s[k].status == 0
  }

  // The leftmost run of n free slots at or after i.
  function FirstFit(s: seq<Cell>, n: nat, i: nat): (p: Pointer)
    ensures p.At? ==> i <= p.slot && FreeRun(s, p.slot, n)
    ensures forall q :: i <= q && (p.At? ==> q < p.slot) ==> !FreeRun(s, q, n)
    decreases |s| - i
  {
    if i + n > |s| then Null
    else if FreeRun(s, i, n) then At(i)
    else if i == |s| then Null
    else FirstFit(s, n, i + 1)
  }

  function Fill(s: seq<Cell>, start: nat, n: nat, c: Cell): (r: seq<Cell>)
    requires start + n <= |s|
    ensures |r| == |s|
  {
    seq(|s|, k requires 0 <= k < |s| => if start <= k < start + n then c else s[k])
  }

  predicate Sensible(a: int) { a > 0 && a % 8 == 0 }

  function Target(m: Mem, a: int): Pointer {
    if Sensible(a) then FirstFit(m.cells, a / 8, 0) else Null
  }

  // alloc: the number of the request goes up in any case.
  function Alloc(m: Mem, a: int): Mem {
    var p := Target(m, a);
    Mem(if p.At? then Fill(m.cells, p.slot, a / 8, Cell(m.num + 1, 1)) else m.cells, m.num + 1)
  }

  function Cleared(s: seq<Cell>, section: int): (r: seq<Cell>)
    ensures |r| == |s|
  {
    seq(|s|, k requires 0 <= k < |s| => if s[k].section == section then FREE else s[k])
  }

  // dealloc: every slot of the section found at the address becomes free.
  function Dealloc(m: Mem, slot: nat): Mem
    requires slot < |m.cells|
  {
    Mem(Cleared(m.cells, m.cells[slot].section), m.num)
  }

  // dealloc of an address that is no slot's: the section to free was never set,
  // and is whatever was in that variable.
  function StrayDealloc(m: Mem, junk: int): Mem { Mem(Cleared(m.cells, junk), m.num) }

  function Init(): Mem { Mem(seq(SLOTS, _ => FREE), 0) }

  // --------------------------------------------------------------- live blocks

  // Which slots each live allocation holds: its first slot and its length.
  datatype Block = Block(start: nat, n: nat)

  predicate Holds(b: Block, k: int) { b.start <= k < b.start + b.n }

  // The cells show exactly the live blocks, each contiguous, under its own
  // number, and so no two of them share a slot.
  ghost predicate Shows(m: Mem, live: map<int, Block>) {
    && m.num >= 0
    && (forall s :: s in live ==> 0 < s <= m.num && live[s].n > 0 && live[s].start + live[s].n <= |m.cells|)
    && (forall k :: 0 <= k < |m.cells| ==>
          m.cells[k] == FREE || (m.cells[k].status == 1 && m.cells[k].section in live && Holds(live[m.cells[k].section], k)))
    && (forall s, k :: s in live && Holds(live[s], k) ==> m.cells[k].section == s)
  }

  lemma {:induction false} InitShowsNothing()
    ensures Shows(Init(), map[])
  {
  }

  ghost function LiveAfterAlloc(m: Mem, a: int, live: map<int, Block>): map<int, Block> {
    var p := Target(m, a);
    if p.At? then live[m.num + 1 := Block(p.slot, a / 8)] else live
  }

  lemma {:induction false} AllocShows(m: Mem, a: int, live: map<int, Block>)
    requires Shows(m, live)
    ensures Shows(Alloc(m, a), LiveAfterAlloc(m, a, live))
  {
    var m', l' := Alloc(m, a), LiveAfterAlloc(m, a, live);
    var p := Target(m, a);
    if p.At? {
      assert m.num + 1 !in live;
      forall s, k | s in l' && Holds(l'[s], k)
        ensures m'.cells[k].section == s
      {
        if s != m.num + 1 {
          assert m.cells[k].section == s && m.cells[k].status == 1;
        }
      }
    }
  }

  // Such a call does no harm exactly when no live block has that number.
  lemma {:induction false} StrayDeallocIsHarmlessExactlyWhen(m: Mem, live: map<int, Block>, junk: int)
    requires Shows(m, live)
    ensures StrayDealloc(m, junk) == m <==> junk !in live
  {
    if junk in live {
      var k := live[junk].start;
      assert Holds(live[junk], k);
      assert m.cells[k].section == junk && StrayDealloc(m, junk).cells[k] == FREE;
    } else {
      forall k | 0 <= k < |m.cells|
        ensures StrayDealloc(m, junk).cells[k] == m.cells[k]
      {
      }
    }
  }

  // dealloc of any address at all.
  function DeallocAny(m: Mem, str: int, junk: int): (m': Mem)
    ensures |m'.cells| == |m.cells|
  {
    if 0 <= str < |m.cells| then Dealloc(m, str) else StrayDealloc(m, junk)
  }

  // It takes out the block that holds the slot, or else the one whose number is
  // in the variable never set, or none.
  ghost function LiveAfterDealloc(live: map<int, Block>, slots: nat, str: int, junk: int): map<int, Block> {
    if 0 <= str < slots then map s | s in live && !Holds(live[s], str) :: live[s] else live - {junk}
  }

  lemma {:induction false} ClearedShows(m: Mem, section: int, live: map<int, Block>)
    requires Shows(m, live)
    ensures Shows(Mem(Cleared(m.cells, section), m.num), live - {section})
  {
    var m', l' := Mem(Cleared(m.cells, section), m.num), live - {section};
    forall s, k | s in l' && Holds(l'[s], k)
      ensures m'.cells[k].section == s
    {
      assert s in live && Holds(live[s], k) && s != section;
    }
  }

  lemma {:induction false} HolderIsSection(m: Mem, slot: nat, live: map<int, Block>)
    requires Shows(m, live) && slot < |m.cells|
    ensures live - {m.cells[slot].section} == map s | s in live && !Holds(live[s], slot) :: live[s]
  {
    var c := m.cells[slot].section;
    assert m.cells[slot] == FREE ==> c == 0 && c !in live;
    forall s | s in live
      ensures s == c <==> Holds(live[s], slot)
    {
    }
  }

  lemma {:induction false} DeallocShows(m: Mem, str: int, junk: int, live: map<int, Block>)
    requires Shows(m, live)
    ensures Shows(DeallocAny(m, str, junk), LiveAfterDealloc(live, |m.cells|, str, junk))
  {
    if 0 <= str < |m.cells| {
      HolderIsSection(m, str, live);
      ClearedShows(m, m.cells[str].section, live);
    } else {
      ClearedShows(m, junk, live);
    }
  }

  // No two live blocks share a slot.
  lemma {:induction false} LiveBlocksAreDisjoint(m: Mem, live: map<int, Block>, s: int, t: int, k: int)
    requires Shows(m, live) && s in live && t in live && s != t
    ensures Holds(live[s], k) ==> !Holds(live[t], k)
  {
    if Holds(live[s], k) {
      assert m.cells[k].section == s;
    }
  }

  // ------------------------------------------------------------------------ runs

  // A return of any address, a slot's or not; junk is what the variable never set
  // then holds.
  datatype Op = DoAlloc(a: int) | DoDealloc(str: int, junk: int)

  function Apply(m: Mem, op: Op): (m': Mem)
    requires |m.cells| == SLOTS
    ensures |m'.cells| == SLOTS
  {
    match op
    case DoAlloc(a) => Alloc(m, a)
    case DoDealloc(str, junk) => DeallocAny(m, str, junk)
  }

  ghost predicate IsRun(ms: seq<Mem>, ops: seq<Op>) {
    && |ms| == |ops| + 1 && ms[0] == Init()
    && (forall i :: 0 <= i < |ms| ==> |ms[i].cells| == SLOTS)
    && (forall i :: 0 <= i < |ops| ==> ms[i + 1] == Apply(ms[i], ops[i]))
  }

  // The blocks a history should leave: each request that found room added one,
  // each return took out the one at its address, or what a stray one hits.
  ghost function LiveAfter(ms: seq<Mem>, ops: seq<Op>): map<int, Block>
    requires IsRun(ms, ops)
    decreases |ops|
  {
    if ops == [] then map[]
    else
      var n := |ops| - 1;
      var before := LiveAfter(ms[..n + 1], ops[..n]);
      match ops[n]
      case DoAlloc(a) => LiveAfterAlloc(ms[n], a, before)
      case DoDealloc(str, junk) => LiveAfterDealloc(before, SLOTS, str, junk)
  }

  // In every run the slots show exactly the blocks of its history.
  lemma {:induction false} ShowsAlongRun(ms: seq<Mem>, ops: seq<Op>)
    requires IsRun(ms, ops)
    ensures Shows(ms[|ops|], LiveAfter(ms, ops))
    decreases |ops|
  {
    if ops == [] {
      InitShowsNothing();
    } else {
      var n := |ops| - 1;
      var before := LiveAfter(ms[..n + 1], ops[..n]);
      ShowsAlongRun(ms[..n + 1], ops[..n]);
      match ops[n]
      case DoAlloc(a) => AllocShows(ms[n], a, before);
      case DoDealloc(str, junk) => DeallocShows(ms[n], str, junk, before);
    }
  }

  // ----------------------------------------------------------------- first fit

  // A request succeeds exactly when it is a positive multiple of 8 and there
  // is room in one piece; it gets the leftmost such place.
  lemma {:induction false} AllocSucceedsExactlyWhen(m: Mem, a: int)
    ensures Target(m, a).At? <==> a > 0 && a % 8 == 0 && exists q: nat :: FreeRun(m.cells, q, a / 8)
    ensures Target(m, a).At? ==> forall q: nat :: FreeRun(m.cells, q, a / 8) ==> Target(m, a).slot <= q
  {
  }

  ghost predicate InTheWay(s: seq<Cell>, p: nat, n: nat) {
    exists k :: p <= k < p + n && k < |s| && s[k].status != 0
  }

  // The leftmost place with a / 8 slots of status 0 in a row gets the number of
  // the request and status 1; all other slots stay as they are.
  lemma {:induction false} AllocMarksTheLeftmostRoom(m: Mem, a: int, q: nat)
    requires a > 0 && a % 8 == 0 && q + a / 8 <= |m.cells|
    requires forall k :: q <= k < q + a / 8 ==> m.cells[k].status == 0
    requires forall p: nat :: p < q ==> InTheWay(m.cells, p, a / 8)
    ensures Target(m, a) == At(q) && Alloc(m, a).num == m.num + 1 && |Alloc(m, a).cells| == |m.cells|
    ensures forall k :: 0 <= k < |m.cells| ==>
      Alloc(m, a).cells[k] == if q <= k < q + a / 8 then Cell(m.num + 1, 1) else m.cells[k]
  {
    assert FreeRun(m.cells, q, a / 8);
    forall p: nat | p < q
      ensures !FreeRun(m.cells, p, a / 8)
    {
      assert InTheWay(m.cells, p, a / 8);
    }
    var p := FirstFit(m.cells, a / 8, 0);
  }

  // It gets free slots only, and all others keep what they hold.
  lemma {:induction false} AllocTakesFreeSlots(m: Mem, a: int, k: nat)
    requires k < |m.cells|
    ensures Alloc(m, a).cells[k] != m.cells[k] && m.num >= 0 ==>
      Target(m, a).At? && Holds(Block(Target(m, a).slot, a / 8), k) && m.cells[k].status == 0
  {
  }

  // Giving back what was just allocated, by any address inside it, restores
  // every slot.
  lemma {:induction false} DeallocUndoesAlloc(m: Mem, a: int, live: map<int, Block>, k: nat)
    requires Shows(m, live) && Target(m, a).At? && Holds(Block(Target(m, a).slot, a / 8), k)
    ensures Dealloc(Alloc(m, a), k).cells == m.cells
  {
    var m' := Alloc(m, a);
    forall j | 0 <= j < |m.cells|
      ensures Dealloc(m', k).cells[j] == m.cells[j]
    {
    }
  }

  // Free neighbours merge: after two adjacent blocks are given back, in either
  // order, a request as long as both together finds room at or before them.
  lemma {:induction false} NeighboursMerge(m: Mem, live: map<int, Block>, s: int, t: int)
    requires Shows(m, live) && s in live && t in live && s != t && live[s].start + live[s].n == live[t].start
    ensures live[t].start < |m.cells| && live[s].start < |m.cells|
    ensures var m' := Dealloc(Dealloc(m, live[s].start), live[t].start);
      && m' == Dealloc(Dealloc(m, live[t].start), live[s].start)
      && Target(m', 8 * (live[s].n + live[t].n)).At?
      && Target(m', 8 * (live[s].n + live[t].n)).slot <= live[s].start
  {
    var i, j := live[s].start, live[t].start;
    assert m.cells[i].section == s && m.cells[j].section == t;
    var m' := Dealloc(Dealloc(m, i), j);
    var n := live[s].n + live[t].n;
    assert FreeRun(m'.cells, i, n) by {
      forall k | i <= k < i + n
        ensures m'.cells[k].status == 0
      {
        assert m.cells[k].section == if k < j then s else t;
      }
    }
    assert m'.cells == Dealloc(Dealloc(m, j), i).cells;
    assert 8 * n / 8 == n && Sensible(8 * n);
    AllocSucceedsExactlyWhen(m', 8 * n);
  }

  // ------------------------------------------------------------------ the program

  ghost predicate NoneBefore(s: seq<Cell>, n: nat, i: nat) {
    forall q: nat :: q + n <= i ==> !FreeRun(s, q, n)
  }

  // One more slot looked at, with the free run still too short.
  lemma {:induction false} NoneYet(s: seq<Cell>, n: nat, i: nat, start: nat)
    requires NoneBefore(s, n, i) && i < |s| && n > 0
    requires s[i].status != 0 || (start <= i && i + 1 - start < n && (start > 0 ==> s[start - 1].status != 0))
    ensures NoneBefore(s, n, i + 1)
  {
    forall q: nat | q + n <= i + 1
      ensures !FreeRun(s, q, n)
    {
      if q + n == i + 1 {
        var k := if s[i].status != 0 then i else start - 1;
        assert q <= k < q + n && s[k].status != 0;
      }
    }
  }

  // The scan has found the leftmost fit.
  lemma {:induction false} FoundFirst(s: seq<Cell>, n: nat, i: nat, start: nat)
    requires NoneBefore(s, n, i) && n > 0 && start + n == i + 1 && FreeRun(s, start, n)
    ensures FirstFit(s, n, 0) == At(start)
  {
    forall q: nat | q < start
      ensures !FreeRun(s, q, n)
    {
      assert q + n <= i;
    }
    var p := FirstFit(s, n, 0);
  }

  lemma {:induction false} FoundNone(s: seq<Cell>, n: nat)
    requires NoneBefore(s, n, |s|)
    ensures FirstFit(s, n, 0) == Null
  {
    var p := FirstFit(s, n, 0);
  }

  ghost predicate Binary(s: seq<Cell>) {
    forall k :: 0 <= k < |s| ==> s[k].status == 0 || s[k].status == 1
  }

  class Allocator {
    const mmr: array<Cell>
    var num: int

    ghost function View(): Mem
      reads this, mmr
    {
      Mem(mmr[..], num)
    }

    constructor ()
      ensures fresh(mmr) && mmr.Length == SLOTS && View() == Init()
    {
      mmr := new Cell[SLOTS];
      num := 0;
      new;
      var i := 0;
      while i < SLOTS
        invariant num == 0 && 0 <= i <= SLOTS && forall k :: 0 <= k < i ==> mmr[k] == FREE
      {
        mmr[i] := Cell(0, 0);
        i := i + 1;
      }
      assert mmr[..] == Init().cells;
    }

    method AllocBytes(a: int) returns (ans: Pointer)
      requires Binary(mmr[..])
      modifies this, mmr
      ensures ans == Target(old(View()), a)
      ensures View() == Alloc(old(View()), a)
    {
      ghost var s := mmr[..];
      var search := 0;
      var size := 0;
      var start := 0;
      num := num + 1;
      var i := 0;
      while i < mmr.Length
        invariant 0 <= start <= i <= mmr.Length && mmr[..] == s && num == old(num) + 1
        invariant search == 0 || search == 1
        invariant search == 1 ==> start < i && size == 8 * (i - start) && FreeRun(s, start, i - start)
        invariant search == 1 && start > 0 ==> s[start - 1].status != 0
        invariant search == 0 && i > 0 ==> s[i - 1].status != 0
        invariant search == 1 && Sensible(a) ==> i - start < a / 8
        invariant Sensible(a) ==> NoneBefore(s, a / 8, i)
      {
        if mmr[i].status == 1 {
          if Sensible(a) { NoneYet(s, a / 8, i, 0); }
          search := 0;
        } else {
          if search == 1 && mmr[i].status == 0 {
            size := size + 8;
          }
          if mmr[i].status == 0 && search == 0 {
            size, start, search := 8, i, 1;
          }
          if size == a {
            FoundFirst(s, a / 8, i, start);
            MarkUsed(start, i, Cell(num, 1));
            return At(start);
          }
          if Sensible(a) { NoneYet(s, a / 8, i, start); }
        }
        i := i + 1;
      }
      if Sensible(a) { FoundNone(s, a / 8); }
      ans := Null;
    }

    // The inner loop: the slots from start to i go to one section.
    method MarkUsed(start: nat, i: nat, c: Cell)
      requires start <= i < mmr.Length
      modifies mmr
      ensures mmr[..] == Fill(old(mmr[..]), start, i + 1 - start, c)
    {
      var j := start;
      while j <= i
        invariant start <= j <= i + 1
        invariant forall k :: 0 <= k < mmr.Length ==> mmr[k] == if start <= k < j then c else old(mmr[k])
      {
        mmr[j] := c;
        j := j + 1;
      }
    }

    // An address is the number of its slot if it is one's at all; junk is what
    // sol holds before it is set.
    method DeallocAt(str: int, junk: int)
      modifies mmr
      ensures View() == DeallocAny(old(View()), str, junk)
    {
      var sol := junk;
      var i := 0;
      while i < mmr.Length
        invariant 0 <= i <= mmr.Length
        invariant sol == if 0 <= str < i then mmr[str].section else junk
      {
        if i == str {
          sol := mmr[i].section;
        }
        i := i + 1;
      }
      ClearSection(sol);
    }

    // The second loop.
    method ClearSection(sol: int)
      modifies mmr
      ensures mmr[..] == Cleared(old(mmr[..]), sol)
    {
      var i := 0;
      while i < mmr.Length
        invariant 0 <= i <= mmr.Length
        invariant forall k :: 0 <= k < mmr.Length ==>
          mmr[k] == if k < i && old(mmr[k]).section == sol then FREE else old(mmr[k])
      {
        if mmr[i].section == sol {
          mmr[i] := FREE;
        }
        i := i + 1;
      }
    }
  }
}
