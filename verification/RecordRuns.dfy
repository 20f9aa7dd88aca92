// What every run of the record program over one file promises, and three runs
// that do not go as one would think.
module RecordRuns {
  import opened Common
  import opened CStrings
  import opened Pack
  import opened RecordSlots
  import opened RecordFile

  datatype Op = DoInsert(p: Person) | DoDelete(sn: string)

  ghost predicate Next(f: File, op: Op, f': File) {
    && Whole(f)
    && match op
       case DoInsert(p) => Ready(f) && Storable(f, p) && f' == Insert(f, p)
       case DoDelete(sn) => f' == Delete(f, sn)
  }

  ghost predicate Follows(fs: seq<File>, ops: seq<Op>, i: nat)
    requires i < |ops| < |fs|
  {
    Next(fs[i], ops[i], fs[i + 1])
  }

  // A run of the program over one file: fs[i] is the file before ops[i].
  ghost predicate IsRun(size: nat, fs: seq<File>, ops: seq<Op>) {
    && HEAD <= size && |fs| == |ops| + 1 && fs[0] == NewFile(size)
    && forall i :: 0 <= i < |ops| ==> Follows(fs, ops, i)
  }

  // ------------------------------------------------------------ the file's law

  // The operation is a delete that strikes a deleted slot once more.
  ghost predicate StruckAgain(f: File, op: Op) { op.DoDelete? && StrikesAgain(f, op.sn) }

  // None of the first i operations is.
  ghost predicate NoneStruckAgain(fs: seq<File>, ops: seq<Op>, i: nat)
    requires i <= |ops| < |fs|
  {
    forall j {:trigger StruckAgain(fs[j], ops[j])} :: 0 <= j < i ==> !StruckAgain(fs[j], ops[j])
  }

  function ListStep(f: File, op: Op, c: seq<nat>): seq<nat> {
    if op.DoInsert? then Rest(c) else ListAfter(f, op.sn, c)
  }

  lemma {:induction false} StepKeepsInv(f: File, op: Op, f': File, c: seq<nat>)
    requires Inv(f, c) && Next(f, op, f') && !StruckAgain(f, op)
    ensures Inv(f', ListStep(f, op, c)) && f'.size == f.size
  {
    match op
    case DoInsert(p) => InsertKeepsInv(f, c, p);
    case DoDelete(sn) => DeleteKeepsInv(f, c, sn);
  }

  lemma {:induction false} StepOfRun(size: nat, fs: seq<File>, ops: seq<Op>, i: nat)
    requires IsRun(size, fs, ops) && i < |ops| && NoneStruckAgain(fs, ops, i + 1)
    ensures Next(fs[i], ops[i], fs[i + 1]) && !StruckAgain(fs[i], ops[i])
  {
    assert Follows(fs, ops, i);
  }

  lemma {:induction false} StepInRun(size: nat, fs: seq<File>, ops: seq<Op>, i: nat, c: seq<nat>)
    requires IsRun(size, fs, ops) && i < |ops| && NoneStruckAgain(fs, ops, i + 1) && Inv(fs[i], c)
    ensures Inv(fs[i + 1], ListStep(fs[i], ops[i], c)) && fs[i + 1].size == fs[i].size
  {
    StepOfRun(size, fs, ops, i);
    StepKeepsInv(fs[i], ops[i], fs[i + 1], c);
  }

  lemma {:induction false} FewerStruckAgain(fs: seq<File>, ops: seq<Op>, i: nat, j: nat)
    requires j <= i <= |ops| < |fs| && NoneStruckAgain(fs, ops, i)
    ensures NoneStruckAgain(fs, ops, j)
  {
  }

  lemma {:induction false} InvAlongRun(size: nat, fs: seq<File>, ops: seq<Op>, i: nat) returns (c: seq<nat>)
    requires IsRun(size, fs, ops) && i <= |ops| && NoneStruckAgain(fs, ops, i)
    ensures Inv(fs[i], c) && fs[i].size == size
  {
    if i == 0 {
      c := [];
      NewFileInv(size);
    } else {
      FewerStruckAgain(fs, ops, i, i - 1);
      var c0 := InvAlongRun(size, fs, ops, i - 1);
      StepInRun(size, fs, ops, i - 1, c0);
      c := ListStep(fs[i - 1], ops[i - 1], c0);
    }
  }

  lemma {:induction false} LawfulStep(f: File, op: Op, f': File)
    requires Lawful(f) && Next(f, op, f') && Lawful(f')
    ensures !StruckAgain(f, op)
  {
    if op.DoDelete? {
      var c :| Inv(f, c);
      DeleteKeepsLawExactlyWhen(f, c, op.sn);
    }
  }

  // The law of the file holds throughout a run exactly when no delete in it
  // finds the number it seeks in a deleted slot before any record.
  lemma {:induction false} LawfulRunExactlyWhen(size: nat, fs: seq<File>, ops: seq<Op>)
    requires IsRun(size, fs, ops)
    ensures (forall i :: 0 <= i <= |ops| ==> Lawful(fs[i])) <==> NoneStruckAgain(fs, ops, |ops|)
  {
    if NoneStruckAgain(fs, ops, |ops|) {
      forall i | 0 <= i <= |ops|
        ensures Lawful(fs[i])
      {
        var c := InvAlongRun(size, fs, ops, i);
      }
    }
    if forall i :: 0 <= i <= |ops| ==> Lawful(fs[i]) {
      forall i | 0 <= i < |ops|
        ensures !StruckAgain(fs[i], ops[i])
      {
        assert Follows(fs, ops, i);
        LawfulStep(fs[i], ops[i], fs[i + 1]);
      }
    }
  }

  lemma {:induction false} UnmarkedStep(f: File, op: Op, c: seq<nat>)
    requires Inv(f, c) && (op.DoDelete? ==> !Marked(op.sn))
    ensures !StruckAgain(f, op)
  {
    if op.DoDelete? {
      DeleteKeepsLawExactlyWhen(f, c, op.sn);
    }
  }

  lemma {:induction false} UnmarkedInRun(size: nat, fs: seq<File>, ops: seq<Op>, i: nat)
    requires IsRun(size, fs, ops) && i < |ops| && NoneStruckAgain(fs, ops, i)
    requires ops[i].DoDelete? ==> !Marked(ops[i].sn)
    ensures NoneStruckAgain(fs, ops, i + 1)
  {
    var c := InvAlongRun(size, fs, ops, i);
    UnmarkedStep(fs[i], ops[i], c);
  }

  // So it does if no number sought starts like the oldest deleted slot.
  lemma {:induction false} UnmarkedRunIsLawful(size: nat, fs: seq<File>, ops: seq<Op>, i: nat)
    requires IsRun(size, fs, ops) && i <= |ops|
    requires forall j :: 0 <= j < i && ops[j].DoDelete? ==> !Marked(ops[j].sn)
    ensures NoneStruckAgain(fs, ops, i)
  {
    if i > 0 {
      UnmarkedRunIsLawful(size, fs, ops, i - 1);
      UnmarkedInRun(size, fs, ops, i - 1);
    }
  }

  // In every such run, a delete comes to its end exactly when it meets no slot
  // on its way that cannot be read, and then finds the first that bears the
  // number.
  lemma {:induction false} DeleteInRunCompletesExactlyWhen(size: nat, fs: seq<File>, ops: seq<Op>, i: nat, sn: string)
    requires IsRun(size, fs, ops) && i <= |ops| && NoneStruckAgain(fs, ops, i)
    ensures var k, o := FirstBearing(fs[i], sn), Scanned(fs[i], sn);
      && (!o.Stops? <==> ClearThrough(fs[i], k))
      && (!o.Stops? ==> o == if k < |fs[i].slots| then Hit(k) else NoMatch)
  {
    var c := InvAlongRun(size, fs, ops, i);
    DeleteCompletesExactlyWhen(fs[i], c, sn);
  }

  // ------------------------------------------------------------------- the bag

  // What an operation should do to the bag of records: a delete takes out the
  // record in the first slot that bears its number, if it gets there.
  ghost function BagAfter(f: File, op: Op, b: multiset<Person>): multiset<Person> {
    match op
    case DoInsert(p) => b + multiset{p}
    case DoDelete(sn) =>
      if Finds(f, sn) && !StrikesAgain(f, sn) then b - Alone(f.slots[FirstBearing(f, sn)]) else b
  }

  // The bags that a run should go through, one beside every file.
  ghost predicate BagFollows(fs: seq<File>, ops: seq<Op>, bs: seq<multiset<Person>>, i: nat)
    requires i < |ops| && |ops| < |fs| == |bs|
  {
    bs[i + 1] == BagAfter(fs[i], ops[i], bs[i])
  }

  ghost predicate IsBagRun(fs: seq<File>, ops: seq<Op>, bs: seq<multiset<Person>>) {
    && |ops| < |fs| == |bs| && bs[0] == multiset{}
    && forall i :: 0 <= i < |ops| ==> BagFollows(fs, ops, bs, i)
  }

  lemma {:induction false} TakenOut<T>(a: multiset<T>, x: T, b: multiset<T>)
    requires a + multiset{x} == b
    ensures a == b - multiset{x}
  {
  }

  lemma {:induction false} DeleteTakesOut(f: File, sn: string, c: seq<nat>)
    requires Inv(f, c) && Finds(f, sn) && !StrikesAgain(f, sn)
    ensures Persons(Delete(f, sn).slots) == Persons(f.slots) - Alone(f.slots[FirstBearing(f, sn)])
  {
    DeleteRemovesFirstMatch(f, c, sn);
    TakenOut(Persons(Delete(f, sn).slots), f.slots[FirstBearing(f, sn)].person, Persons(f.slots));
  }

  lemma {:induction false} DeleteRefinesBag(f: File, sn: string, c: seq<nat>)
    requires Inv(f, c) && !StrikesAgain(f, sn)
    ensures Persons(Delete(f, sn).slots) == BagAfter(f, DoDelete(sn), Persons(f.slots))
  {
    if Finds(f, sn) {
      DeleteTakesOut(f, sn, c);
    } else {
      OtherDeletesChangeNothing(f, c, sn);
    }
  }

  lemma {:induction false} StepRefinesBag(f: File, op: Op, f': File, c: seq<nat>)
    requires Inv(f, c) && Next(f, op, f') && !StruckAgain(f, op)
    ensures Persons(f'.slots) == BagAfter(f, op, Persons(f.slots))
  {
    match op
    case DoInsert(p) => InsertAddsOne(f, c, p);
    case DoDelete(sn) => DeleteRefinesBag(f, sn, c);
  }

  lemma {:induction false} BagInRun(size: nat, fs: seq<File>, ops: seq<Op>, i: nat)
    requires IsRun(size, fs, ops) && i < |ops| && NoneStruckAgain(fs, ops, i + 1)
    ensures Persons(fs[i + 1].slots) == BagAfter(fs[i], ops[i], Persons(fs[i].slots))
  {
    FewerStruckAgain(fs, ops, i + 1, i);
    var c := InvAlongRun(size, fs, ops, i);
    StepOfRun(size, fs, ops, i);
    StepRefinesBag(fs[i], ops[i], fs[i + 1], c);
  }

  lemma {:induction false} BagStays(size: nat, fs: seq<File>, ops: seq<Op>, bs: seq<multiset<Person>>, i: nat)
    requires IsRun(size, fs, ops) && i < |ops| && NoneStruckAgain(fs, ops, i + 1)
    requires IsBagRun(fs, ops, bs) && Persons(fs[i].slots) == bs[i]
    ensures Persons(fs[i + 1].slots) == bs[i + 1]
  {
    assert BagFollows(fs, ops, bs, i);
    BagInRun(size, fs, ops, i);
  }

  // The file holds that bag, in every run that keeps its law.
  lemma {:induction false} FileRefinesBag(size: nat, fs: seq<File>, ops: seq<Op>, bs: seq<multiset<Person>>, i: nat)
    requires IsRun(size, fs, ops) && IsBagRun(fs, ops, bs) && i <= |ops| && NoneStruckAgain(fs, ops, i)
    ensures Persons(fs[i].slots) == bs[i]
  {
    if i > 0 {
      FewerStruckAgain(fs, ops, i, i - 1);
      FileRefinesBag(size, fs, ops, bs, i - 1);
      BagStays(size, fs, ops, bs, i - 1);
    }
  }

  // ------------------------------------------------------------------ the length

  // How many records each file of a run holds.
  ghost function Counts(fs: seq<File>): (ns: seq<nat>)
    ensures |ns| == |fs| && forall i :: 0 <= i < |fs| ==> ns[i] == |Persons(fs[i].slots)|
  {
    seq(|fs|, i requires 0 <= i < |fs| => |Persons(fs[i].slots)|)
  }

  // The greatest of the first i + 1 numbers.
  function Peak(ns: seq<nat>, i: nat): nat
    requires i < |ns|
  {
    if i == 0 || ns[i] > Peak(ns, i - 1) then ns[i] else Peak(ns, i - 1)
  }

  lemma {:induction false} LengthStep(f: File, op: Op, f': File, c: seq<nat>)
    requires Inv(f, c) && Next(f, op, f') && !StruckAgain(f, op)
    ensures var n := |Persons(f'.slots)|; f'.recordnum == if n > f.recordnum then n else f.recordnum
  {
    StepKeepsInv(f, op, f', c);
    InvReady(f, c);
    if op.DoInsert? {
      InsertAddsOne(f, c, op.p);
    }
  }

  lemma {:induction false} LengthInRun(size: nat, fs: seq<File>, ops: seq<Op>, ns: seq<nat>, i: nat)
    requires IsRun(size, fs, ops) && i < |ops| && NoneStruckAgain(fs, ops, i + 1) && ns == Counts(fs)
    ensures fs[i + 1].recordnum == if ns[i + 1] > fs[i].recordnum then ns[i + 1] else fs[i].recordnum
  {
    FewerStruckAgain(fs, ops, i + 1, i);
    var c := InvAlongRun(size, fs, ops, i);
    StepOfRun(size, fs, ops, i);
    LengthStep(fs[i], ops[i], fs[i + 1], c);
  }

  lemma {:induction false} PagesInRun(size: nat, fs: seq<File>, ops: seq<Op>, i: nat)
    requires IsRun(size, fs, ops) && i <= |ops| && NoneStruckAgain(fs, ops, i)
    ensures fs[i].pagenum == 1 + (fs[i].recordnum + 1) / 2
  {
    var c := InvAlongRun(size, fs, ops, i);
  }

  ghost predicate Grows(fs: seq<File>, ns: seq<nat>, i: nat)
    requires i + 1 < |fs| == |ns|
  {
    fs[i + 1].recordnum == if ns[i + 1] > fs[i].recordnum then ns[i + 1] else fs[i].recordnum
  }

  lemma {:induction false} RecordsToPeak(fs: seq<File>, ns: seq<nat>, i: nat)
    requires i < |fs| == |ns| && fs[0].recordnum == ns[0]
    requires forall j :: 0 <= j < i ==> Grows(fs, ns, j)
    ensures fs[i].recordnum == Peak(ns, i)
  {
    if i > 0 {
      RecordsToPeak(fs, ns, i - 1);
      assert Grows(fs, ns, i - 1);
    }
  }

  lemma {:induction false} NewFileHasNone(size: nat)
    ensures |Persons(NewFile(size).slots)| == NewFile(size).recordnum
  {
  }

  // The file grows only when nothing is free: the number of slots in use is
  // the most records ever held, and the pages are just enough for those.
  lemma {:induction false} FileIsAsLongAsItsPeak(size: nat, fs: seq<File>, ops: seq<Op>, i: nat)
    requires IsRun(size, fs, ops) && i <= |ops| && NoneStruckAgain(fs, ops, i)
    ensures fs[i].recordnum == Peak(Counts(fs), i)
    ensures fs[i].pagenum == 1 + (Peak(Counts(fs), i) + 1) / 2
  {
    var ns := Counts(fs);
    NewFileHasNone(size);
    forall j | 0 <= j < i
      ensures Grows(fs, ns, j)
    {
      FewerStruckAgain(fs, ops, i, j + 1);
      LengthInRun(size, fs, ops, ns, j);
    }
    RecordsToPeak(fs, ns, i);
    PagesInRun(size, fs, ops, i);
  }

  // ------------------------------------------------------------ building a run

  lemma {:induction false} ButLast<T>(s: seq<T>, x: T)
    ensures (s + [x])[|s|] == x && forall j :: 0 <= j < |s| ==> (s + [x])[j] == s[j]
  {
  }

  lemma {:induction false} RunOn(size: nat, fs: seq<File>, ops: seq<Op>, op: Op, f: File)
    requires IsRun(size, fs, ops) && Next(fs[|ops|], op, f)
    ensures IsRun(size, fs + [f], ops + [op])
  {
    ButLast(fs, f);
    ButLast(ops, op);
    forall i | 0 <= i < |ops| + 1
      ensures Follows(fs + [f], ops + [op], i)
    {
      assert i < |ops| ==> Follows(fs, ops, i);
    }
  }

  lemma {:induction false} InsertStaysLawful(f: File, p: Person)
    requires Lawful(f) && Storable(f, p)
    ensures Whole(f) && Ready(f) && Lawful(Insert(f, p))
  {
    var c :| Inv(f, c);
    InsertKeepsInv(f, c, p);
  }

  lemma {:induction false} NewFileIsLawful(size: nat)
    requires HEAD <= size
    ensures Lawful(NewFile(size))
  {
    NewFileInv(size);
  }

  // The record goes into a new slot of an empty file.
  lemma {:induction false} FirstSlots(size: nat, p: Person, s: Slot)
    requires HEAD <= size && Storable(NewFile(size), p) && s == Live(p, Blank(size - |Packed(p)|))
    ensures var f := NewFile(size); Ready(f) && Whole(f)
    ensures var f' := Insert(NewFile(size), p);
      f'.slots == [s, Empty] && f'.recordnum == 1 && NoneDeleted(f') && f'.size == size
  {
    FreshSlot(p, size);
    UpdateOfTwo(Empty, Empty, s);
    assert [] + [Empty, Empty] == [Empty, Empty];
  }

  lemma {:induction false} InsertOne(size: nat, p: Person, s: Slot) returns (fs: seq<File>, f: File)
    requires HEAD <= size && Storable(NewFile(size), p) && s == Live(p, Blank(size - |Packed(p)|))
    ensures |fs| == 2 && fs[1] == f && IsRun(size, fs, [DoInsert(p)]) && Lawful(f)
    ensures f.slots == [s, Empty] && f.recordnum == 1 && NoneDeleted(f) && f.size == size
  {
    FirstSlots(size, p, s);
    NewFileIsLawful(size);
    InsertStaysLawful(NewFile(size), p);
    f := Insert(NewFile(size), p);
    RunOn(size, [NewFile(size)], [], DoInsert(p), f);
    fs := [NewFile(size)] + [f];
    assert [] + [DoInsert(p)] == [DoInsert(p)];
  }

  // The next goes into the other slot of its page.
  lemma {:induction false} SecondSlots(f: File, s: Slot, q: Person, t: Slot)
    requires Ready(f) && Whole(f) && Storable(f, q) && NoneDeleted(f) && f.recordnum == 1 && f.slots == [s, Empty]
    requires t == Live(q, Blank(f.size - |Packed(q)|))
    ensures var f' := Insert(f, q); f'.slots == [s, t] && f'.recordnum == 2 && NoneDeleted(f') && f'.size == f.size
  {
    FreshSlot(q, f.size);
    UpdateOfTwo(s, Empty, t);
  }

  lemma {:induction false} InsertTwo(size: nat, p: Person, q: Person, s: Slot, t: Slot) returns (fs: seq<File>, f: File)
    requires HEAD <= size && Storable(NewFile(size), p) && Storable(NewFile(size), q)
    requires s == Live(p, Blank(size - |Packed(p)|)) && t == Live(q, Blank(size - |Packed(q)|))
    ensures |fs| == 3 && fs[2] == f && IsRun(size, fs, [DoInsert(p)] + [DoInsert(q)]) && Lawful(f)
    ensures f.slots == [s, t] && f.recordnum == 2 && NoneDeleted(f) && f.size == size
  {
    var f1;
    fs, f1 := InsertOne(size, p, s);
    InsertStaysLawful(f1, q);
    SecondSlots(f1, s, q, t);
    f := Insert(f1, q);
    RunOn(size, fs, [DoInsert(p)], DoInsert(q), f);
    fs := fs + [f];
  }

  // ------------------------------------------------- a record with too few fields

  // Two records, the first with an empty field or two, so that with what is
  // behind it in a new slot it has less than six: no delete gets past it.
  lemma {:induction false} ShortRecordStops(size: nat, p: Person, q: Person) returns (fs: seq<File>, ops: seq<Op>)
    requires HEAD <= size && Storable(NewFile(size), p) && Storable(NewFile(size), q) && HashFree(p)
    requires NonEmpty([p.sn] + Others(p)) + (if |Packed(p)| < size then 1 else 0) < 6
    ensures ops == [DoInsert(p)] + [DoInsert(q)] + [DoDelete(q.sn)] && IsRun(size, fs, ops)
    ensures Scanned(fs[2], q.sn) == Stops(0) && |fs[2].slots| == 2
    ensures fs[2].slots[0].Live? && fs[2].slots[1].Live? && fs[2].slots[1].person == q && fs[3] == fs[2]
  {
    var f;
    var s, t := Live(p, Blank(size - |Packed(p)|)), Live(q, Blank(size - |Packed(q)|));
    fs, f := InsertTwo(size, p, q, s, t);
    FreshFields(p, size - |Packed(p)|);
    assert f.slots[0] == s && Fields(s, size) < 6;
    StopsAtFirst(f, q.sn);
    RunOn(size, fs, [DoInsert(p)] + [DoInsert(q)], DoDelete(q.sn), f);
    fs, ops := fs + [f], [DoInsert(p)] + [DoInsert(q)] + [DoDelete(q.sn)];
  }

  lemma {:induction false} StopsAtFirst(f: File, sn: string)
    requires Lawful(f) && f.slots != [] && Unreadable(f, 0)
    ensures Scanned(f, sn) == Stops(0) && Whole(f) && Delete(f, sn) == f
  {
    var c :| Inv(f, c);
    LookAtSlot(f, c, sn, 0);
  }

  // ------------------------------------------------------------- a slot struck twice

  // A record whose number takes a whole mark, and is still a number then.
  ghost predicate LongNumber(p: Person) {
    NulFreePerson(p) && Packable(p) && |p.sn| >= HEAD && Without(p.sn[HEAD..], '#')
  }

  lemma {:induction false} StruckSlotBears(p: Person, tail: string, size: nat)
    requires LongNumber(p)
    ensures HEAD <= |Packed(p) + tail|
    ensures Bears(Deleted(-1, -1, (Packed(p) + tail)[HEAD..]), size, MarkedOver(p).sn)
    ensures SixLeft((Packed(p) + tail)[HEAD..])
  {
    MarkedOverBytes(p, tail);
    MarkedOverIsPackable(p);
    PackedStartsWithNumber(MarkedOver(p), tail);
    LongNumberLeavesSix(p, tail);
  }

  lemma {:induction false} FirstIsFound(f: File, c: seq<nat>, sn: string)
    requires Inv(f, c) && f.slots != [] && !Unreadable(f, 0) && Bears(f.slots[0], f.size, sn)
    ensures Finds(f, sn) && FirstBearing(f, sn) == 0 && Delete(f, sn) == Freed(f, 0)
  {
    OpenIsClear(f, sn, 0);
    FindsIsHit(f, c, sn);
  }

  // A record that unpack gives back is readable and bears its number.
  lemma {:induction false} PackableIsFound(f: File, c: seq<nat>, k: nat, sn: string)
    requires Inv(f, c) && k < |f.slots| && f.slots[k].Live? && Packable(f.slots[k].person)
    ensures !Unreadable(f, k) && (Bears(f.slots[k], f.size, sn) <==> sn == f.slots[k].person.sn)
  {
    assert Fits(f.slots[k], f.size);
    SlotReads(f, c, k);
    BearsItsNumberExactlyWhenPlain(f.slots[k].person, f.slots[k].tail, f.size, sn);
  }

  lemma {:induction false} StrikeTwice(size: nat, p: Person, f: File)
    requires LongNumber(p) && |Packed(p)| <= size && Lawful(f) && f.size == size && NoneDeleted(f)
    requires |f.slots| == 2 && f.slots[0] == Live(p, Blank(size - |Packed(p)|))
    ensures Whole(f) && Delete(f, p.sn) == Freed(f, 0)
    ensures Whole(Freed(f, 0)) && Delete(Freed(f, 0), MarkedOver(p).sn) == Freed(Freed(f, 0), 0)
    ensures !Lawful(Freed(Freed(f, 0), 0))
  {
    var c :| Inv(f, c);
    PackableIsFound(f, c, 0, p.sn);
    FirstIsFound(f, c, p.sn);
    FreedLaw(f, c, 0);
    var g, sn := Freed(f, 0), MarkedOver(p).sn;
    StruckSlotBears(p, Blank(size - |Packed(p)|), size);
    FirstIsFound(g, [0] + c, sn);
    DeleteKeepsLawExactlyWhen(g, [0] + c, sn);
  }

  // Insert a record, delete it, and delete the number that its slot now starts
  // with: the slot points to itself.
  lemma {:induction false} StruckTwice(size: nat, p: Person) returns (fs: seq<File>, ops: seq<Op>)
    requires HEAD <= size && Storable(NewFile(size), p) && LongNumber(p)
    ensures ops == [DoInsert(p)] + [DoDelete(p.sn)] + [DoDelete(EndMark() + p.sn[HEAD..])] && IsRun(size, fs, ops)
    ensures |fs[3].slots| == 2 && PointsTo(fs[3].slots[0], fs[3].depage, fs[3].derecord) && !NoneDeleted(fs[3])
    ensures !Lawful(fs[3])
  {
    var f;
    fs, f := InsertOne(size, p, Live(p, Blank(size - |Packed(p)|)));
    StrikeTwice(size, p, f);
    var g, sn := Freed(f, 0), MarkedOver(p).sn;
    RunOn(size, fs, [DoInsert(p)], DoDelete(p.sn), g);
    RunOn(size, fs + [g], [DoInsert(p)] + [DoDelete(p.sn)], DoDelete(sn), Freed(g, 0));
    fs, ops := fs + [g] + [Freed(g, 0)], [DoInsert(p)] + [DoDelete(p.sn)] + [DoDelete(sn)];
  }

  // ------------------------------------------------------ deleting in order

  // Three records, deleted in the order they came in.
  ghost predicate Three(size: nat, p: Person, q: Person, r: Person) {
    && HEAD <= size && Storable(NewFile(size), p) && Storable(NewFile(size), q) && Storable(NewFile(size), r)
    && LongNumber(p) && Packable(q) && Packable(r) && !Marked(q.sn) && !Marked(r.sn)
    && p.sn != q.sn && p.sn != r.sn && q.sn != r.sn
  }

  ghost predicate Holds(f: File, size: nat, p: Person, q: Person, r: Person) {
    && f.size == size && |f.slots| == 4 && NoneDeleted(f) && f.slots[3].Empty?
    && f.slots[0].Live? && f.slots[0].person == p && f.slots[1].Live? && f.slots[1].person == q
    && f.slots[2].Live? && f.slots[2].person == r
  }

  lemma {:induction false} InsertThree(size: nat, p: Person, q: Person, r: Person) returns (fs: seq<File>, f: File)
    requires Three(size, p, q, r)
    ensures |fs| == 4 && fs[3] == f && IsRun(size, fs, [DoInsert(p)] + [DoInsert(q)] + [DoInsert(r)])
    ensures Holds(f, size, p, q, r) && Lawful(f)
  {
    var f2;
    fs, f2 := InsertTwo(size, p, q, Live(p, Blank(size - |Packed(p)|)), Live(q, Blank(size - |Packed(q)|)));
    InsertStaysLawful(f2, r);
    f := Insert(f2, r);
    RunOn(size, fs, [DoInsert(p)] + [DoInsert(q)], DoInsert(r), f);
    fs := fs + [f];
  }

  lemma {:induction false} SecondDelete(size: nat, p: Person, q: Person, r: Person, f: File, c: seq<nat>)
    requires Three(size, p, q, r) && Holds(f, size, p, q, r) && Inv(f, c) && Inv(Freed(f, 0), [0] + c)
    ensures Delete(Freed(f, 0), q.sn) == Freed(Freed(f, 0), 1)
  {
    var g := Freed(f, 0);
    assert Fits(f.slots[0], size);
    LongNumberLeavesSix(p, f.slots[0].tail);
    assert !Unreadable(g, 0);
    DeletedBearsMarked(g, [0] + c, 0, q.sn);
    PackableIsFound(g, [0] + c, 1, q.sn);
    OpenIsFound(g, [0] + c, q.sn, 1);
  }

  lemma {:induction false} ThirdDelete(f: File, c: seq<nat>, sn: string)
    requires Inv(f, c) && |f.slots| == 4 && !Marked(sn)
    requires f.slots[0].Deleted? && f.slots[1].Deleted? && f.slots[1].page != -1
    ensures Scanned(f, sn).Stops? && Delete(f, sn) == f
  {
    assert Unreadable(f, 1);
    var k := FirstBearing(f, sn);
    FirstBearingIs(f, sn, k);
    if k == 0 && !Unreadable(f, 0) {
      DeletedBearsMarked(f, c, 0, sn);
    }
    assert !ClearThrough(f, k);
    DeleteCompletesExactlyWhen(f, c, sn);
  }

  lemma {:induction false} TwoDeletes(size: nat, p: Person, q: Person, r: Person, f: File, c: seq<nat>)
    requires Three(size, p, q, r) && Holds(f, size, p, q, r) && Inv(f, c)
    ensures Whole(Freed(f, 0)) && Inv(Freed(Freed(f, 0), 1), [1] + ([0] + c))
    ensures Delete(f, p.sn) == Freed(f, 0) && Delete(Freed(f, 0), q.sn) == Freed(Freed(f, 0), 1)
  {
    PackableIsFound(f, c, 0, p.sn);
    FirstIsFound(f, c, p.sn);
    FreedLaw(f, c, 0);
    SecondDelete(size, p, q, r, f, c);
    FreedLaw(Freed(f, 0), [0] + c, 1);
  }

  lemma {:induction false} ThreeDeletes(size: nat, p: Person, q: Person, r: Person, f: File)
    requires Three(size, p, q, r) && Holds(f, size, p, q, r) && Lawful(f)
    ensures Whole(f) && Whole(Freed(f, 0)) && Whole(Freed(Freed(f, 0), 1))
    ensures Delete(f, p.sn) == Freed(f, 0) && Delete(Freed(f, 0), q.sn) == Freed(Freed(f, 0), 1)
    ensures var h := Freed(Freed(f, 0), 1); Scanned(h, r.sn).Stops? && Delete(h, r.sn) == h
  {
    var c :| Inv(f, c);
    TwoDeletes(size, p, q, r, f, c);
    ThirdDelete(Freed(Freed(f, 0), 1), [1] + ([0] + c), r.sn);
  }

  // Insert three records, the number of the first at least as long as a mark,
  // and delete them in the same order: the third delete stops at the slot of
  // the second, and the third record stays in the file.
  lemma {:induction false} ThirdDeleteStops(size: nat, p: Person, q: Person, r: Person)
    returns (fs: seq<File>, ops: seq<Op>)
    requires Three(size, p, q, r)
    ensures ops == [DoInsert(p)] + [DoInsert(q)] + [DoInsert(r)] + [DoDelete(p.sn)] + [DoDelete(q.sn)] + [DoDelete(r.sn)]
    ensures IsRun(size, fs, ops) && Scanned(fs[5], r.sn).Stops?
    ensures |fs[6].slots| == 4 && fs[6].slots[2].Live? && fs[6].slots[2].person == r
  {
    var f;
    fs, f := InsertThree(size, p, q, r);
    ops := [DoInsert(p)] + [DoInsert(q)] + [DoInsert(r)];
    ThreeDeletes(size, p, q, r, f);
    var g := Freed(f, 0);
    var h := Freed(g, 1);
    RunOn(size, fs, ops, DoDelete(p.sn), g);
    fs, ops := fs + [g], ops + [DoDelete(p.sn)];
    RunOn(size, fs, ops, DoDelete(q.sn), h);
    fs, ops := fs + [h], ops + [DoDelete(q.sn)];
    RunOn(size, fs, ops, DoDelete(r.sn), h);
    fs, ops := fs + [h], ops + [DoDelete(r.sn)];
  }
}
