// Project11/person.c: a file of fixed-size records, two to a page, whose
// deleted slots form a linked list inside the file itself.
module RecordFile {
  import opened Common
  import opened Pack
  import opened RecordSlots

  // The record size, the header of page 0, and the slots of pages 1 and up in
  // file order.
  datatype File = File(size: nat, pagenum: int, recordnum: int, depage: int, derecord: int, slots: seq<Slot>)

  function NewFile(size: nat): File { File(size, 1, 0, -1, -1, []) }

  function PageOf(k: int): int { 1 + k / 2 }
  function RecOf(k: int): int { k % 2 }
  function SlotAt(page: int, rec: int): int { 2 * (page - 1) + rec }

  // ------------------------------------------------------------ the file's law

  // The page and record number of the i-th slot of a list, or the end mark.
  function LinkPage(c: seq<nat>, i: nat): int { if i < |c| then PageOf(c[i]) else -1 }
  function LinkRec(c: seq<nat>, i: nat): int { if i < |c| then RecOf(c[i]) else -1 }

  predicate PointsTo(s: Slot, page: int, rec: int) { s.Deleted? && s.page == page && s.rec == rec }

  // Each slot of the list points to the next, the last to nothing.
  ghost predicate Listed(s: seq<Slot>, c: seq<nat>) {
    forall i :: 0 <= i < |c| ==> c[i] < |s| && PointsTo(s[c[i]], LinkPage(c, i + 1), LinkRec(c, i + 1))
  }

  ghost predicate Distinct(c: seq<nat>) { forall i, j :: 0 <= i < j < |c| ==> c[i] != c[j] }

  // The header and the links spell out the list c, from the last deleted slot.
  ghost predicate Linked(f: File, c: seq<nat>) {
    f.depage == LinkPage(c, 0) && f.derecord == LinkRec(c, 0) && Listed(f.slots, c) && Distinct(c)
  }

  // The first recordnum slots are in use: live, or on the list, never both.
  ghost predicate Used(f: File, c: seq<nat>) {
    && 0 <= f.recordnum <= |f.slots|
    && (forall k :: 0 <= k < f.recordnum ==> f.slots[k].Live? || k in c)
    && (forall k :: f.recordnum <= k < |f.slots| ==> f.slots[k].Empty?)
  }

  predicate Sized(f: File) {
    f.pagenum == 1 + (f.recordnum + 1) / 2 && |f.slots| == 2 * (f.pagenum - 1)
  }

  // Every slot is a whole record's bytes, and a record has room for a mark.
  ghost predicate Whole(f: File) {
    HEAD <= f.size && forall k :: 0 <= k < |f.slots| ==> Fits(f.slots[k], f.size)
  }

  // The records of the file, as a bag.
  ghost function Persons(s: seq<Slot>): multiset<Person> {
    if s == [] then multiset{} else Persons(s[..|s| - 1]) + Alone(s[|s| - 1])
  }

  ghost function Alone(s: Slot): multiset<Person> {
    if s.Live? then multiset{s.person} else multiset{}
  }

  ghost predicate Law(f: File, c: seq<nat>) {
    Sized(f) && Used(f, c) && Linked(f, c) && |Persons(f.slots)| + |c| == f.recordnum
  }

  ghost predicate Inv(f: File, c: seq<nat>) { Law(f, c) && Whole(f) }

  // There is such a list.
  ghost predicate Lawful(f: File) { exists c :: Inv(f, c) }

  lemma {:induction false} NewFileInv(size: nat)
    requires HEAD <= size
    ensures Inv(NewFile(size), [])
  {
  }

  // ------------------------------------------------------------------- inserts

  predicate NoneDeleted(f: File) { f.depage == -1 && f.derecord == -1 }

  // The pages are there, and the header points to a deleted slot if to any.
  predicate Ready(f: File) {
    && Sized(f) && 0 <= f.recordnum
    && (!NoneDeleted(f) ==>
          && f.depage >= 1 && 0 <= f.derecord < 2 && SlotAt(f.depage, f.derecord) < |f.slots|
          && f.slots[SlotAt(f.depage, f.derecord)].Deleted?)
  }

  // Where insert puts a record.
  function Target(f: File): (k: int)
    requires Ready(f)
    ensures 0 <= k <= |f.slots|
  {
    if !NoneDeleted(f) then SlotAt(f.depage, f.derecord)
    else if f.recordnum % 2 == 0 then SlotAt(f.pagenum, 0)
    else SlotAt(f.pagenum - 1, 1)
  }

  // A record that has its fields from C strings and goes into a slot.
  predicate Storable(f: File, p: Person) { NulFreePerson(p) && |Packed(p)| <= f.size }

  ghost function Insert(f: File, p: Person): File
    requires Ready(f) && Whole(f) && Storable(f, p)
  {
    var k := Target(f);
    if !NoneDeleted(f) then
      f.(depage := f.slots[k].page, derecord := f.slots[k].rec,
         slots := f.slots[k := Overwritten(f.slots[k], p, f.size)])
    else if f.recordnum % 2 == 0 then
      f.(pagenum := f.pagenum + 1, recordnum := f.recordnum + 1,
         slots := (f.slots + [Empty, Empty])[k := Overwritten(Empty, p, f.size)])
    else
      f.(recordnum := f.recordnum + 1, slots := f.slots[k := Overwritten(f.slots[k], p, f.size)])
  }

  lemma {:induction false} InvReady(f: File, c: seq<nat>)
    requires Law(f, c)
    ensures Ready(f) && (NoneDeleted(f) <==> c == [])
    ensures c != [] ==> Target(f) == c[0]
    ensures c == [] ==> Target(f) == f.recordnum
  {
    if c != [] {
      assert PointsTo(f.slots[c[0]], LinkPage(c, 1), LinkRec(c, 1));
      assert SlotAt(PageOf(c[0]), RecOf(c[0])) == c[0];
    }
  }

  lemma {:induction false} AddBoth<T>(a: multiset<T>, x: multiset<T>, b: multiset<T>, y: multiset<T>, z: multiset<T>)
    requires a + x == b + y
    ensures a + z + x == b + z + y
  {
    assert a + z + x == a + x + z;
  }

  lemma {:induction false} PersonsSnoc(s: seq<Slot>, v: Slot)
    ensures Persons(s + [v]) == Persons(s) + Alone(v)
  {
    assert (s + [v])[..|s|] == s;
  }

  lemma {:induction false} PersonsUpdate(s: seq<Slot>, k: nat, v: Slot)
    requires k < |s|
    ensures Persons(s[k := v]) + Alone(s[k]) == Persons(s) + Alone(v)
  {
    var n := |s| - 1;
    var t := s[k := v];
    assert s == s[..n] + [s[n]];
    if k == n {
      assert t == s[..n] + [v];
      PersonsSnoc(s[..n], v);
    } else {
      assert t == s[..n][k := v] + [s[n]];
      PersonsUpdate(s[..n], k, v);
      PersonsSnoc(s[..n][k := v], s[n]);
      AddBoth(Persons(s[..n][k := v]), Alone(s[k]), Persons(s[..n]), Alone(v), Alone(s[n]));
    }
  }

  // What an insert does to the slots: one is now live, all others are kept.
  lemma {:induction false} InsertedAt(f: File, p: Person)
    requires Ready(f) && Whole(f) && Storable(f, p)
    ensures var f' := Insert(f, p);
      && Target(f) < |f'.slots| && f'.slots[Target(f)].Live? && f'.slots[Target(f)].person == p
      && |f.slots| <= |f'.slots| && (forall k :: 0 <= k < |f.slots| && k != Target(f) ==> f'.slots[k] == f.slots[k])
      && (forall k :: |f.slots| <= k < |f'.slots| && k != Target(f) ==> f'.slots[k] == Empty)
  {
  }

  lemma {:induction false} OverwrittenFits(s: Slot, p: Person, size: nat)
    requires |Bytes(s, size)| == size && NulFreePerson(p) && |Packed(p)| <= size
    ensures Fits(Overwritten(s, p, size), size)
  {
  }

  lemma {:induction false} InsertWhole(f: File, p: Person)
    requires Ready(f) && Whole(f) && Storable(f, p)
    ensures Whole(Insert(f, p))
  {
    var f' := Insert(f, p);
    InsertedAt(f, p);
    OverwrittenFits(if Target(f) < |f.slots| then f.slots[Target(f)] else Empty, p, f.size);
    forall k | 0 <= k < |f'.slots|
      ensures Fits(f'.slots[k], f.size)
    {
    }
  }

  lemma {:induction false} ListedRest(s: seq<Slot>, s': seq<Slot>, c: seq<nat>)
    requires Listed(s, c) && Distinct(c) && |s| <= |s'|
    requires forall k :: 0 <= k < |s| && (c != [] ==> k != c[0]) && k in c ==> s'[k] == s[k]
    ensures Listed(s', Rest(c)) && Distinct(Rest(c))
  {
    forall i | 0 <= i < |Rest(c)|
      ensures Rest(c)[i] < |s'| && PointsTo(s'[Rest(c)[i]], LinkPage(Rest(c), i + 1), LinkRec(Rest(c), i + 1))
    {
      assert Rest(c)[i] == c[i + 1] && c[i + 1] != c[0];
    }
  }

  lemma {:induction false} InsertLinks(f: File, c: seq<nat>, p: Person)
    requires Inv(f, c) && Ready(f) && Storable(f, p)
    ensures Linked(Insert(f, p), Rest(c))
  {
    InvReady(f, c);
    InsertedAt(f, p);
    ListedRest(f.slots, Insert(f, p).slots, c);
    if c != [] {
      assert PointsTo(f.slots[c[0]], LinkPage(c, 1), LinkRec(c, 1));
    }
  }

  lemma {:induction false} InsertUses(f: File, c: seq<nat>, p: Person)
    requires Inv(f, c) && Ready(f) && Storable(f, p)
    ensures Used(Insert(f, p), Rest(c)) && Sized(Insert(f, p))
  {
    var f' := Insert(f, p);
    InvReady(f, c);
    InsertedAt(f, p);
    forall k | 0 <= k < f'.recordnum
      ensures f'.slots[k].Live? || k in Rest(c)
    {
      if k != Target(f) && k in c {
        assert c[0] == Target(f);
      }
    }
  }

  lemma {:induction false} AppendAddsOne(s: seq<Slot>, v: Slot)
    ensures Persons((s + [Empty, Empty])[|s| := v]) == Persons(s) + Alone(v)
  {
    var t := s + [v];
    assert Persons(t) == Persons(s) + Alone(v) by { PersonsSnoc(s, v); }
    assert Persons(t + [Empty]) == Persons(t) by { PersonsSnoc(t, Empty); }
    assert (s + [Empty, Empty])[|s| := v] == t + [Empty];
  }

  // One insert adds exactly one record.
  lemma {:induction false} InsertAddsOne(f: File, c: seq<nat>, p: Person)
    requires Inv(f, c) && Ready(f) && Storable(f, p)
    ensures Persons(Insert(f, p).slots) == Persons(f.slots) + multiset{p}
  {
    InvReady(f, c);
    var k := Target(f);
    if k == |f.slots| {
      AppendAddsOne(f.slots, Overwritten(Empty, p, f.size));
    } else {
      PersonsUpdate(f.slots, k, Overwritten(f.slots[k], p, f.size));
    }
  }

  lemma {:induction false} InsertKeepsInv(f: File, c: seq<nat>, p: Person)
    requires Inv(f, c) && Storable(f, p)
    ensures Ready(f) && Inv(Insert(f, p), Rest(c))
  {
    InvReady(f, c);
    InsertLinks(f, c, p);
    InsertUses(f, c, p);
    InsertAddsOne(f, c, p);
    InsertWhole(f, p);
  }

  // ------------------------------------------------------------------- deletes

  // How the scan ends: at a slot whose number is the one sought, at the end of
  // the file, or at a slot that unpack does not survive.
  datatype Outcome = Hit(at: nat) | NoMatch | Stops(at: nat)

  // The number that the scan gets from a slot, if unpack gets through.
  function NumberOf(s: Slot, size: nat): Option<string> {
    var r := Read(s, size);
    if r.None? then None else Some(r.value.sn)
  }

  function Numbers(s: seq<Slot>, size: nat): (ns: seq<Option<string>>)
    ensures |ns| == |s|
    decreases |s|
  {
    if s == [] then [] else Numbers(s[..|s| - 1], size) + [NumberOf(s[|s| - 1], size)]
  }

  lemma {:induction false} NumbersAt(s: seq<Slot>, size: nat, k: nat)
    requires k < |s|
    ensures Numbers(s, size)[k] == NumberOf(s[k], size)
    decreases |s|
  {
    if k < |s| - 1 {
      NumbersAt(s[..|s| - 1], size, k);
    }
  }

  // One slot of the scan.
  function Look(n: Option<string>, sn: string, at: nat): Outcome {
    if n.None? then Stops(at) else if n.value == sn then Hit(at) else NoMatch
  }

  function Scan(ns: seq<Option<string>>, sn: string, i: nat): (o: Outcome)
    requires i <= |ns|
    ensures !o.NoMatch? ==> i <= o.at < |ns| && Look(ns[o.at], sn, o.at) == o
    decreases |ns| - i
  {
    if i == |ns| then NoMatch
    else
      var o := Look(ns[i], sn, i);
      if o.NoMatch? then Scan(ns, sn, i + 1) else o
  }

  function Scanned(f: File, sn: string): (o: Outcome)
    ensures !o.NoMatch? ==> o.at < |f.slots|
  {
    Scan(Numbers(f.slots, f.size), sn, 0)
  }

  // The scan has gone on past the first k slots.
  ghost predicate Passed(ns: seq<Option<string>>, sn: string, k: nat) {
    k <= |ns| && forall m :: 0 <= m < k ==> Look(ns[m], sn, m).NoMatch?
  }

  lemma {:induction false} PassesOn(ns: seq<Option<string>>, sn: string, k: nat)
    requires Passed(ns, sn, k) && k < |ns| && Look(ns[k], sn, k).NoMatch?
    ensures Passed(ns, sn, k + 1)
  {
  }

  lemma {:induction false} ScanGoesOn(ns: seq<Option<string>>, sn: string, k: nat, i: nat)
    requires i <= k && Passed(ns, sn, k)
    ensures Scan(ns, sn, i) == Scan(ns, sn, k)
    decreases k - i
  {
    if i < k {
      ScanGoesOn(ns, sn, k, i + 1);
    }
  }

  // So it ends where it does not go on.
  lemma {:induction false} ScanEnds(ns: seq<Option<string>>, sn: string, k: nat)
    requires Passed(ns, sn, k) && (k < |ns| ==> !Look(ns[k], sn, k).NoMatch?)
    ensures Scan(ns, sn, 0) == if k < |ns| then Look(ns[k], sn, k) else NoMatch
  {
    ScanGoesOn(ns, sn, k, 0);
  }

  ghost function Freed(f: File, k: nat): File
    requires k < |f.slots| && Whole(f)
  {
    f.(depage := PageOf(k), derecord := RecOf(k), slots := f.slots[k := Struck(f.slots[k], f.depage, f.derecord, f.size)])
  }

  // A delete that stops has written nothing.
  ghost function Delete(f: File, sn: string): File
    requires Whole(f)
  {
    var o := Scanned(f, sn);
    if o.Hit? then Freed(f, o.at) else f
  }

  // The list of deleted slots after a delete.
  function ListAfter(f: File, sn: string, c: seq<nat>): seq<nat> {
    var o := Scanned(f, sn);
    if o.Hit? then [o.at] + c else c
  }

  lemma {:induction false} StruckFits(s: Slot, page: int, rec: int, size: nat)
    requires HEAD <= size == |Bytes(s, size)|
    ensures Fits(Struck(s, page, rec, size), size)
  {
  }

  lemma {:induction false} FreedWhole(f: File, k: nat)
    requires k < |f.slots| && Whole(f)
    ensures Whole(Freed(f, k))
  {
    StruckFits(f.slots[k], f.depage, f.derecord, f.size);
  }

  lemma {:induction false} ListedCons(s: seq<Slot>, k: nat, v: Slot, c: seq<nat>)
    requires Listed(s, c) && Distinct(c) && k < |s| && k !in c && PointsTo(v, LinkPage(c, 0), LinkRec(c, 0))
    ensures Listed(s[k := v], [k] + c) && Distinct([k] + c)
  {
    var l := [k] + c;
    forall i | 0 <= i < |l|
      ensures l[i] < |s| && PointsTo(s[k := v][l[i]], LinkPage(l, i + 1), LinkRec(l, i + 1))
    {
      if i > 0 {
        assert l[i] == c[i - 1] && c[i - 1] != k;
      }
    }
  }

  lemma {:induction false} FreedLinks(f: File, c: seq<nat>, k: nat)
    requires Linked(f, c) && Whole(f) && k < |f.slots| && f.slots[k].Live?
    ensures Linked(Freed(f, k), [k] + c)
  {
    assert k !in c;
    ListedCons(f.slots, k, Struck(f.slots[k], f.depage, f.derecord, f.size), c);
  }

  lemma {:induction false} FreedUses(f: File, c: seq<nat>, k: nat)
    requires Used(f, c) && k < |f.slots| && f.slots[k].Live? && Whole(f)
    ensures Used(Freed(f, k), [k] + c)
  {
    var l := [k] + c;
    assert l[0] == k && forall i :: 0 <= i < |c| ==> l[i + 1] == c[i];
  }

  lemma {:induction false} FreedPersons(f: File, k: nat)
    requires k < |f.slots| && f.slots[k].Live? && Whole(f)
    ensures Persons(Freed(f, k).slots) + multiset{f.slots[k].person} == Persons(f.slots)
  {
    PersonsUpdate(f.slots, k, Struck(f.slots[k], f.depage, f.derecord, f.size));
  }

  lemma {:induction false} FreedLaw(f: File, c: seq<nat>, k: nat)
    requires Inv(f, c) && k < |f.slots| && f.slots[k].Live?
    ensures Inv(Freed(f, k), [k] + c)
  {
    FreedLinks(f, c, k);
    FreedUses(f, c, k);
    FreedPersons(f, k);
    FreedWhole(f, k);
  }

  // -------------------------------------------------- which slots can be read

  // A slot that the scan does not get past: one never written, a deleted one
  // other than the oldest, and one, deleted or not, with less than six fields.
  ghost predicate Unreadable(f: File, k: nat)
    requires k < |f.slots|
  {
    match f.slots[k]
    case Empty => true
    case Live(_, _) => Fields(f.slots[k], f.size) < 6
    case Deleted(page, _, tail) => page != -1 || !SixLeft(tail)
  }

  // The oldest deleted slot is the last of the list, and the only one to carry
  // the end mark.
  lemma {:induction false} OldestIsLast(f: File, c: seq<nat>, k: nat)
    requires Law(f, c) && k < |f.slots| && f.slots[k].Deleted?
    ensures c != [] && k in c
    ensures f.slots[k].page == -1 <==> k == c[|c| - 1]
    ensures f.slots[k].page == -1 ==> f.slots[k].rec == -1
    ensures f.slots[k].page != -1 ==> f.slots[k].rec == 0 || f.slots[k].rec == 1
  {
    assert k < f.recordnum;
    var i :| 0 <= i < |c| && c[i] == k;
  }

  // What the scan gets from each kind of slot.
  lemma {:induction false} SlotReads(f: File, c: seq<nat>, k: nat)
    requires Inv(f, c) && k < |f.slots|
    ensures Read(f.slots[k], f.size) == None <==> Unreadable(f, k)
    ensures f.slots[k].Live? && Packable(f.slots[k].person) ==> Read(f.slots[k], f.size) == Some(f.slots[k].person)
    ensures !f.slots[k].Live? && !Unreadable(f, k) ==> Marked(Read(f.slots[k], f.size).value.sn)
  {
    match f.slots[k]
    case Empty => EmptyStops(f.size);
    case Live(p, tail) =>
      assert Fits(f.slots[k], f.size);
      UnpackNeedsSixFields(Bytes(f.slots[k], f.size));
      if Packable(p) {
        LiveReads(p, tail, f.size);
      }
    case Deleted(page, rec, tail) =>
      OldestIsLast(f, c, k);
      if page != -1 {
        InnerStops(page, rec, tail, f.size);
      } else {
        LastReadsExactlyWhenSixLeft(tail, f.size);
        if SixLeft(tail) {
          LastReadsMarked(tail, f.size);
        }
      }
  }

  // ------------------------------------------------- when a delete completes

  function FirstTrue(bs: seq<bool>, i: nat): (k: nat)
    requires i <= |bs|
    ensures i <= k <= |bs| && (k < |bs| ==> bs[k]) && forall j :: i <= j < k ==> !bs[j]
    decreases |bs| - i
  {
    if i == |bs| || bs[i] then i else FirstTrue(bs, i + 1)
  }

  function WhichBear(s: seq<Slot>, size: nat, sn: string): (bs: seq<bool>)
    ensures |bs| == |s| && forall k :: 0 <= k < |s| ==> bs[k] == Bears(s[k], size, sn)
  {
    seq(|s|, k requires 0 <= k < |s| => Bears(s[k], size, sn))
  }

  // The first slot in page order that bears the number, or the end of the file.
  function FirstBearing(f: File, sn: string): (k: nat)
    ensures k <= |f.slots|
  {
    FirstTrue(WhichBear(f.slots, f.size, sn), 0)
  }

  lemma {:induction false} FirstBearingIs(f: File, sn: string, k: nat)
    requires k <= |f.slots|
    ensures FirstBearing(f, sn) == k
       <==> (k < |f.slots| ==> Bears(f.slots[k], f.size, sn)) && forall j :: 0 <= j < k ==> !Bears(f.slots[j], f.size, sn)
  {
  }

  // Every slot before k can be read, and slot k itself if there is one.
  ghost predicate ClearThrough(f: File, k: nat) {
    forall j :: 0 <= j <= k && j < |f.slots| ==> !Unreadable(f, j)
  }

  // What the scan should make of a slot.
  ghost function Expected(f: File, sn: string, i: nat): Outcome
    requires i < |f.slots|
  {
    if Unreadable(f, i) then Stops(i) else if Bears(f.slots[i], f.size, sn) then Hit(i) else NoMatch
  }

  lemma {:induction false} LookAtSlot(f: File, c: seq<nat>, sn: string, i: nat)
    requires Inv(f, c) && i < |f.slots|
    ensures Look(Numbers(f.slots, f.size)[i], sn, i) == Expected(f, sn, i)
  {
    SlotReads(f, c, i);
    NumbersAt(f.slots, f.size, i);
    if !Unreadable(f, i) {
      UnpackedNumber(Bytes(f.slots[i], f.size), sn);
    }
  }

  // A scan over slots of which bad stop it and bs bear the number.
  lemma {:induction false} ScanFrom(ns: seq<Option<string>>, sn: string, bad: seq<bool>, bs: seq<bool>, i: nat)
    requires i <= |ns| == |bad| == |bs|
    requires forall j :: 0 <= j < |ns| ==> Look(ns[j], sn, j) == if bad[j] then Stops(j) else if bs[j] then Hit(j) else NoMatch
    ensures var k, o := FirstTrue(bs, i), Scan(ns, sn, i);
      && (o.Stops? <==> exists j :: i <= j <= k && j < |bad| && bad[j])
      && (!o.Stops? ==> o == if k < |ns| then Hit(k) else NoMatch)
    decreases |ns| - i
  {
    if i < |ns| && !bs[i] && !bad[i] {
      ScanFrom(ns, sn, bad, bs, i + 1);
    }
  }

  ghost function WhichStop(f: File): (bad: seq<bool>)
    ensures |bad| == |f.slots| && forall k :: 0 <= k < |f.slots| ==> bad[k] == Unreadable(f, k)
  {
    seq(|f.slots|, k requires 0 <= k < |f.slots| => Unreadable(f, k))
  }

  // Whatever the number, a delete comes to its end exactly when every slot up to
  // the first that bears it, or to the end of the file, can be read. Then it
  // strikes that slot.
  lemma {:induction false} DeleteCompletesExactlyWhen(f: File, c: seq<nat>, sn: string)
    requires Inv(f, c)
    ensures var k, o := FirstBearing(f, sn), Scanned(f, sn);
      && (!o.Stops? <==> ClearThrough(f, k))
      && (!o.Stops? ==> o == if k < |f.slots| then Hit(k) else NoMatch)
  {
    var ns, bad, bs := Numbers(f.slots, f.size), WhichStop(f), WhichBear(f.slots, f.size, sn);
    forall i | 0 <= i < |ns|
      ensures Look(ns[i], sn, i) == if bad[i] then Stops(i) else if bs[i] then Hit(i) else NoMatch
    {
      LookAtSlot(f, c, sn, i);
    }
    ScanFrom(ns, sn, bad, bs, 0);
  }

  // A slot is struck: the number is found before a slot that cannot be read.
  ghost predicate Finds(f: File, sn: string) {
    FirstBearing(f, sn) < |f.slots| && ClearThrough(f, FirstBearing(f, sn))
  }

  // And it holds no record any more.
  ghost predicate StrikesAgain(f: File, sn: string) {
    Finds(f, sn) && f.slots[FirstBearing(f, sn)].Deleted?
  }

  lemma {:induction false} FindsIsHit(f: File, c: seq<nat>, sn: string)
    requires Inv(f, c)
    ensures Finds(f, sn) <==> Scanned(f, sn).Hit?
    ensures Finds(f, sn) ==> Scanned(f, sn) == Hit(FirstBearing(f, sn))
  {
    DeleteCompletesExactlyWhen(f, c, sn);
  }

  // A deleted slot bears no number but one that starts like it.
  lemma {:induction false} DeletedBearsMarked(f: File, c: seq<nat>, k: nat, sn: string)
    requires Inv(f, c) && k < |f.slots| && f.slots[k].Deleted? && !Unreadable(f, k)
    ensures Bears(f.slots[k], f.size, sn) ==> Marked(sn)
  {
    SlotReads(f, c, k);
    UnpackedNumber(Bytes(f.slots[k], f.size), sn);
  }

  // Only a record or the oldest deleted slot can be found, and the latter only
  // by a number that starts like it.
  lemma {:induction false} FindsRecordOrOldest(f: File, c: seq<nat>, sn: string)
    requires Inv(f, c) && Finds(f, sn)
    ensures var k := FirstBearing(f, sn);
      f.slots[k].Live? || (f.slots[k].Deleted? && f.slots[k].page == -1 && c != [] && k == c[|c| - 1] && Marked(sn))
  {
    var k := FirstBearing(f, sn);
    FirstBearingIs(f, sn, k);
    assert !Unreadable(f, k);
    if !f.slots[k].Live? {
      OldestIsLast(f, c, k);
      DeletedBearsMarked(f, c, k, sn);
    }
  }

  lemma {:induction false} DeleteKeepsInv(f: File, c: seq<nat>, sn: string)
    requires Inv(f, c) && !StrikesAgain(f, sn)
    ensures Inv(Delete(f, sn), ListAfter(f, sn, c))
  {
    FindsIsHit(f, c, sn);
    if Finds(f, sn) {
      FindsRecordOrOldest(f, c, sn);
      FreedLaw(f, c, FirstBearing(f, sn));
    }
  }

  // ------------------------------------------------- what a delete takes away

  // A delete that finds a record takes exactly that one, the first that bears
  // the number, and puts its slot at the head of the list.
  lemma {:induction false} DeleteRemovesFirstMatch(f: File, c: seq<nat>, sn: string)
    requires Inv(f, c) && Finds(f, sn) && !StrikesAgain(f, sn)
    ensures var k, f' := FirstBearing(f, sn), Delete(f, sn);
      && f.slots[k].Live?
      && Persons(f'.slots) + multiset{f.slots[k].person} == Persons(f.slots)
      && PointsTo(f'.slots[k], f.depage, f.derecord)
      && f'.depage == 1 + k / 2 && f'.derecord == k % 2
  {
    FindsIsHit(f, c, sn);
    FindsRecordOrOldest(f, c, sn);
    FreedPersons(f, FirstBearing(f, sn));
  }

  // A delete that finds none changes nothing: no slot bears the number, or the
  // program stops before it gets there.
  lemma {:induction false} OtherDeletesChangeNothing(f: File, c: seq<nat>, sn: string)
    requires Inv(f, c) && !Finds(f, sn)
    ensures Delete(f, sn) == f
  {
    FindsIsHit(f, c, sn);
  }

  // Neither operation moves or changes any other live record.
  lemma {:induction false} OthersStay(f: File, c: seq<nat>, p: Person, sn: string, k: nat)
    requires Inv(f, c) && Storable(f, p) && k < |f.slots| && f.slots[k].Live?
    ensures Ready(f) && k < |Insert(f, p).slots| && Insert(f, p).slots[k] == f.slots[k]
    ensures |Delete(f, sn).slots| == |f.slots|
    ensures Delete(f, sn).slots[k] == f.slots[k] || Scanned(f, sn) == Hit(k)
  {
    InvReady(f, c);
    InsertedAt(f, p);
  }

  // ----------------------------------------------------- a slot struck twice

  lemma {:induction false} LoopBack(c: seq<nat>, k: nat, c': seq<nat>, s: seq<Slot>, i: nat)
    requires c != [] && c[|c| - 1] == k && Listed(s, c') && i < |c|
    requires c' != [] && c'[0] == k && k < |s|
    requires PointsTo(s[k], LinkPage(c, 0), LinkRec(c, 0))
    requires forall j :: 0 <= j < |c| - 1 ==> c[j] != k && c[j] < |s| && PointsTo(s[c[j]], LinkPage(c, j + 1), LinkRec(c, j + 1))
    ensures i + 1 < |c'| && c'[i + 1] == c[i]
    decreases i
  {
    if i > 0 {
      LoopBack(c, k, c', s, i - 1);
      assert PointsTo(s[c[i - 1]], LinkPage(c, i), LinkRec(c, i));
    }
    assert PointsTo(s[c'[i]], LinkPage(c', i + 1), LinkRec(c', i + 1));
    assert SlotAt(LinkPage(c', i + 1), LinkRec(c', i + 1)) == SlotAt(LinkPage(c, i), LinkRec(c, i)) == c[i];
  }

  lemma {:induction false} OthersStillPoint(f: File, c: seq<nat>, j: nat)
    requires Inv(f, c) && j < |c| - 1
    ensures var k, s := c[|c| - 1], Freed(f, c[|c| - 1]).slots;
      c[j] != k && c[j] < |s| && PointsTo(s[c[j]], LinkPage(c, j + 1), LinkRec(c, j + 1))
  {
    assert PointsTo(f.slots[c[j]], LinkPage(c, j + 1), LinkRec(c, j + 1));
  }

  // Deleting the oldest deleted slot once more makes the list a ring.
  lemma {:induction false} FreedTwiceIsNoList(f: File, c: seq<nat>, c': seq<nat>)
    requires Inv(f, c) && c != []
    ensures !Linked(Freed(f, c[|c| - 1]), c')
  {
    var k := c[|c| - 1];
    var f' := Freed(f, k);
    if Linked(f', c') {
      forall j | 0 <= j < |c| - 1
        ensures c[j] != k && c[j] < |f'.slots| && PointsTo(f'.slots[c[j]], LinkPage(c, j + 1), LinkRec(c, j + 1))
      {
        OthersStillPoint(f, c, j);
      }
      assert SlotAt(f'.depage, f'.derecord) == k;
      LoopBack(c, k, c', f'.slots, |c| - 1);
      assert false;
    }
  }

  lemma {:induction false} DoubleDeleteBreaksLaw(f: File, c: seq<nat>, k: nat)
    requires Inv(f, c) && k < |f.slots| && f.slots[k].Deleted? && f.slots[k].page == -1
    ensures !Lawful(Freed(f, k))
  {
    OldestIsLast(f, c, k);
    forall c': seq<nat>
      ensures !Inv(Freed(f, k), c')
    {
      FreedTwiceIsNoList(f, c, c');
    }
  }

  lemma {:induction false} DeleteOfRecordKeepsLaw(f: File, c: seq<nat>, k: nat)
    requires Inv(f, c) && k < |f.slots| && f.slots[k].Live?
    ensures Lawful(Freed(f, k))
  {
    FreedLaw(f, c, k);
  }

  // A delete keeps the file's law exactly when the first slot that bears the
  // number is not the oldest deleted one, found again. It can only be that for
  // a number that starts like it.
  lemma {:induction false} DeleteKeepsLawExactlyWhen(f: File, c: seq<nat>, sn: string)
    requires Inv(f, c)
    ensures Lawful(Delete(f, sn)) <==> !StrikesAgain(f, sn)
    ensures StrikesAgain(f, sn) ==> c != [] && FirstBearing(f, sn) == c[|c| - 1] && Marked(sn)
  {
    FindsIsHit(f, c, sn);
    if Finds(f, sn) {
      var k := FirstBearing(f, sn);
      FindsRecordOrOldest(f, c, sn);
      if f.slots[k].Live? {
        DeleteOfRecordKeepsLaw(f, c, k);
      } else {
        DoubleDeleteBreaksLaw(f, c, k);
      }
    }
  }

  // ------------------------------------------------------- inverse operations

  lemma {:induction false} FreedReady(f: File, k: nat)
    requires Sized(f) && 0 <= f.recordnum && k < |f.slots| && Whole(f)
    ensures Ready(Freed(f, k)) && !NoneDeleted(Freed(f, k)) && Target(Freed(f, k)) == k
  {
    var f1 := Freed(f, k);
    assert SlotAt(f1.depage, f1.derecord) == k && f1.depage >= 1;
  }

  // Nothing of the mark would stay behind the record in slot k.
  ghost predicate Restorable(f: File, k: nat)
    requires k < |f.slots| && f.slots[k].Live?
  {
    MarkLeavesNothing(f.slots[k].person, f.slots[k].tail, f.depage, f.derecord)
  }

  lemma {:induction false} LongIsRestorable(f: File, k: nat)
    requires k < |f.slots| && f.slots[k].Live? && |Packed(f.slots[k].person)| >= HEAD
    ensures Restorable(f, k)
  {
  }

  // The file a delete at k came from, but for the bytes behind the record.
  ghost predicate BackBut(f: File, g: File, k: nat) {
    && k < |f.slots| == |g.slots| && g == f.(slots := f.slots[k := g.slots[k]])
    && f.slots[k].Live? && g.slots[k].Live? && g.slots[k].person == f.slots[k].person
  }

  lemma {:induction false} BackInSlot(f: File, k: nat)
    requires Sized(f) && 0 <= f.recordnum && k < |f.slots| && Whole(f) && f.slots[k].Live?
    ensures var f1, p := Freed(f, k), f.slots[k].person;
      && Ready(f1) && Whole(f1) && Storable(f1, p) && BackBut(f, Insert(f1, p), k)
      && (Insert(f1, p).slots[k] == f.slots[k] <==> Restorable(f, k))
  {
    var s := f.slots[k];
    FreedReady(f, k);
    FreedWhole(f, k);
    assert Fits(s, f.size);
    WrittenBackExactlyWhen(s.person, s.tail, f.depage, f.derecord, f.size);
    UpdateTwice(f.slots, k, Struck(s, f.depage, f.derecord, f.size), Insert(Freed(f, k), s.person).slots[k]);
  }

  // An insert of the record just deleted takes the freed slot and restores the
  // header and the links, and every byte exactly when the mark leaves nothing.
  lemma {:induction false} InsertUndoesDeleteExactlyWhen(f: File, k: nat)
    requires Sized(f) && 0 <= f.recordnum && k < |f.slots| && Whole(f) && f.slots[k].Live?
    ensures var f1, p := Freed(f, k), f.slots[k].person;
      && Ready(f1) && Whole(f1) && Storable(f1, p) && BackBut(f, Insert(f1, p), k)
      && (Insert(f1, p) == f <==> Restorable(f, k))
  {
    BackInSlot(f, k);
    UpdateSame(f.slots, k);
  }

  // The same file but for what is left behind the links of slot k.
  ghost predicate SameButLeft(f: File, g: File, k: nat) {
    && k < |f.slots| == |g.slots| && f.slots[k].Deleted? && g == f.(slots := f.slots[k := g.slots[k]])
    && PointsTo(g.slots[k], f.slots[k].page, f.slots[k].rec)
  }

  lemma {:induction false} FreedAfterReuse(f: File, p: Person)
    requires Ready(f) && Whole(f) && Storable(f, p) && !NoneDeleted(f)
    requires Whole(Insert(f, p))
    ensures SameButLeft(f, Freed(Insert(f, p), Target(f)), Target(f))
  {
    var k := Target(f);
    var v := Overwritten(f.slots[k], p, f.size);
    UpdateTwice(f.slots, k, v, Struck(v, f.slots[k].page, f.slots[k].rec, f.size));
    assert PageOf(k) == f.depage && RecOf(k) == f.derecord;
  }

  // The scan gets to slot k and does not find the number before it.
  ghost predicate OpenTo(f: File, sn: string, k: nat)
    requires k <= |f.slots|
  {
    forall j :: 0 <= j < k ==> !Unreadable(f, j) && !Bears(f.slots[j], f.size, sn)
  }

  lemma {:induction false} SameWayToTarget(f: File, p: Person, sn: string)
    requires Ready(f) && Whole(f) && Storable(f, p)
    ensures Target(f) < |Insert(f, p).slots|
    ensures OpenTo(Insert(f, p), sn, Target(f)) <==> OpenTo(f, sn, Target(f))
  {
    InsertedAt(f, p);
    var f' := Insert(f, p);
    forall j | 0 <= j < Target(f)
      ensures Unreadable(f', j) <==> Unreadable(f, j)
      ensures f'.slots[j] == f.slots[j]
    {
      assert f'.slots[j] == f.slots[j];
    }
  }

  lemma {:induction false} FoundIsOpen(f: File, c: seq<nat>, sn: string, k: nat)
    requires Inv(f, c) && k < |f.slots| && Scanned(f, sn) == Hit(k)
    ensures OpenTo(f, sn, k) && !Unreadable(f, k) && Bears(f.slots[k], f.size, sn)
  {
    DeleteCompletesExactlyWhen(f, c, sn);
    FirstBearingIs(f, sn, k);
  }

  lemma {:induction false} OpenIsClear(f: File, sn: string, k: nat)
    requires k < |f.slots|
    requires OpenTo(f, sn, k) && !Unreadable(f, k) && Bears(f.slots[k], f.size, sn)
    ensures ClearThrough(f, k) && FirstBearing(f, sn) == k
  {
    FirstBearingIs(f, sn, k);
  }

  lemma {:induction false} HitWhenClear(f: File, c: seq<nat>, sn: string, k: nat)
    requires Inv(f, c) && k < |f.slots| && ClearThrough(f, k) && FirstBearing(f, sn) == k
    ensures Scanned(f, sn) == Hit(k)
  {
    DeleteCompletesExactlyWhen(f, c, sn);
  }

  lemma {:induction false} OpenIsFound(f: File, c: seq<nat>, sn: string, k: nat)
    requires Inv(f, c) && k < |f.slots|
    requires OpenTo(f, sn, k) && !Unreadable(f, k) && Bears(f.slots[k], f.size, sn)
    ensures Scanned(f, sn) == Hit(k)
  {
    OpenIsClear(f, sn, k);
    HitWhenClear(f, c, sn, k);
  }

  // When a delete strikes slot k.
  lemma {:induction false} FoundExactlyWhen(f: File, c: seq<nat>, sn: string, k: nat)
    requires Inv(f, c) && k < |f.slots|
    ensures Scanned(f, sn) == Hit(k) <==> OpenTo(f, sn, k) && !Unreadable(f, k) && Bears(f.slots[k], f.size, sn)
  {
    if Scanned(f, sn) == Hit(k) {
      FoundIsOpen(f, c, sn, k);
    } else if OpenTo(f, sn, k) && !Unreadable(f, k) && Bears(f.slots[k], f.size, sn) {
      OpenIsFound(f, c, sn, k);
    }
  }

  lemma {:induction false} GrownIsNotSame(f: File, sn: string)
    requires Whole(f)
    ensures Delete(f, sn).recordnum == f.recordnum && |Delete(f, sn).slots| == |f.slots|
  {
  }

  lemma {:induction false} OtherHitIsNotSame(f: File, p: Person, sn: string)
    requires Ready(f) && Whole(f) && Storable(f, p) && !NoneDeleted(f) && Whole(Insert(f, p))
    requires Scanned(Insert(f, p), sn) != Hit(Target(f))
    ensures !SameButLeft(f, Delete(Insert(f, p), sn), Target(f))
  {
    InsertedAt(f, p);
    assert Delete(Insert(f, p), sn).slots[Target(f)].Live?;
  }

  lemma {:induction false} SameExactlyWhenFound(f: File, p: Person, sn: string)
    requires Ready(f) && Whole(f) && Storable(f, p) && Whole(Insert(f, p))
    ensures SameButLeft(f, Delete(Insert(f, p), sn), Target(f))
       <==> !NoneDeleted(f) && Scanned(Insert(f, p), sn) == Hit(Target(f))
  {
    if NoneDeleted(f) {
      GrownIsNotSame(Insert(f, p), sn);
    } else if Scanned(Insert(f, p), sn) == Hit(Target(f)) {
      FreedAfterReuse(f, p);
    } else {
      OtherHitIsNotSame(f, p, sn);
    }
  }

  lemma {:induction false} NewSlotBears(f: File, p: Person, sn: string)
    requires Ready(f) && Whole(f) && Storable(f, p)
    ensures Target(f) < |Insert(f, p).slots|
    ensures Bears(Insert(f, p).slots[Target(f)], f.size, p.sn) <==> PlainNumber(p.sn)
  {
    InsertedAt(f, p);
    BearsItsNumberExactlyWhenPlain(p, Insert(f, p).slots[Target(f)].tail, f.size, sn);
  }

  // A delete of the number just inserted gives the file back, all but the bytes
  // left of old records, exactly when the insert reused a slot, the scan gets
  // to it without finding the number before, and finds it there: the file never
  // shrinks.
  lemma {:induction false} DeleteUndoesInsertExactlyWhen(f: File, c: seq<nat>, p: Person)
    requires Inv(f, c) && Ready(f) && Storable(f, p)
    ensures Whole(Insert(f, p)) && Target(f) < |Insert(f, p).slots|
    ensures SameButLeft(f, Delete(Insert(f, p), p.sn), Target(f))
       <==> !NoneDeleted(f) && OpenTo(f, p.sn, Target(f)) && PlainNumber(p.sn) && !Unreadable(Insert(f, p), Target(f))
  {
    InsertKeepsInv(f, c, p);
    NewSlotBears(f, p, p.sn);
    SameWayToTarget(f, p, p.sn);
    FoundExactlyWhen(Insert(f, p), Rest(c), p.sn, Target(f));
    SameExactlyWhenFound(f, p, p.sn);
  }

  // Deletes with the numbers sns, each of which finds a record, lead from f to
  // g, and ps are the records they find.
  ghost predicate DeletesTo(f: File, sns: seq<string>, ps: seq<Person>, g: File)
    requires Whole(f)
    decreases |sns|
  {
    && |ps| == |sns|
    && if sns == [] then f == g
       else
         var o := Scanned(f, sns[0]);
         && o.Hit? && f.slots[o.at].Live? && f.slots[o.at].person == ps[0]
         && Whole(Freed(f, o.at)) && DeletesTo(Freed(f, o.at), sns[1..], ps[1..], g)
  }

  // Of none of these records will a mark leave anything behind it.
  ghost predicate AllRestorable(f: File, sns: seq<string>, ps: seq<Person>, g: File)
    requires Whole(f) && DeletesTo(f, sns, ps, g)
    decreases |sns|
  {
    sns != [] ==>
      var k := Scanned(f, sns[0]).at;
      Restorable(f, k) && AllRestorable(Freed(f, k), sns[1..], ps[1..], g)
  }

  lemma {:induction false} LongAreRestorable(f: File, sns: seq<string>, ps: seq<Person>, g: File)
    requires Whole(f) && DeletesTo(f, sns, ps, g) && forall i :: 0 <= i < |ps| ==> |Packed(ps[i])| >= HEAD
    ensures AllRestorable(f, sns, ps, g)
    decreases |sns|
  {
    if sns != [] {
      LongIsRestorable(f, Scanned(f, sns[0]).at);
      LongAreRestorable(Freed(f, Scanned(f, sns[0]).at), sns[1..], ps[1..], g);
    }
  }

  // Inserting ps from the last to the first, starting in f, ends in g.
  ghost predicate InsertsBack(f: File, ps: seq<Person>, g: File)
    decreases |ps|
  {
    if ps == [] then f == g
    else
      && Ready(f) && Whole(f) && Storable(f, ps[|ps| - 1])
      && InsertsBack(Insert(f, ps[|ps| - 1]), ps[..|ps| - 1], g)
  }

  lemma {:induction false} InsertsBackIsOne(f: File, ps: seq<Person>, g: File, h: File)
    requires InsertsBack(f, ps, g) && InsertsBack(f, ps, h)
    ensures g == h
    decreases |ps|
  {
    if ps != [] {
      InsertsBackIsOne(Insert(f, ps[|ps| - 1]), ps[..|ps| - 1], g, h);
    }
  }

  lemma {:induction false} ConsButLast<T>(x: T, s: seq<T>)
    ensures ([x] + s)[|s|] == if s == [] then x else s[|s| - 1]
    ensures ([x] + s)[..|s|] == if s == [] then [] else [x] + s[..|s| - 1]
  {
  }

  lemma {:induction false} InsertsBackThen(f: File, p: Person, ps: seq<Person>, mid: File)
    requires InsertsBack(f, ps, mid) && Ready(mid) && Whole(mid) && Storable(mid, p)
    ensures InsertsBack(f, [p] + ps, Insert(mid, p))
    decreases |ps|
  {
    ConsButLast(p, ps);
    if ps != [] {
      var n := |ps| - 1;
      InsertsBackThen(Insert(f, ps[n]), p, ps[..n], mid);
    }
  }

  predicate SameRecord(s: Slot, t: Slot) { s == t || (s.Live? && t.Live? && s.person == t.person) }

  // The same but for bytes behind live records.
  ghost predicate Alike(f: File, g: File) {
    && g == f.(slots := g.slots) && |g.slots| == |f.slots|
    && forall k :: 0 <= k < |f.slots| ==> SameRecord(f.slots[k], g.slots[k])
  }

  // The same insert into files that are alike, at the slot k just freed in one.
  lemma {:induction false} AlikeStep(f: File, k: nat, h: File)
    requires Sized(f) && 0 <= f.recordnum && k < |f.slots| && Whole(f) && f.slots[k].Live?
    requires Alike(Freed(f, k), h) && Whole(h)
    ensures var p := f.slots[k].person;
      && Ready(h) && Storable(h, p) && Alike(f, Insert(h, p))
      && (Insert(h, p) == f <==> h == Freed(f, k) && Restorable(f, k))
  {
    var f1, p := Freed(f, k), f.slots[k].person;
    BackInSlot(f, k);
    AlikeInsert(f1, h, p, k);
    var a, b := Insert(f1, p), Insert(h, p);
    assert forall j :: 0 <= j < |f.slots| && j != k ==> f1.slots[j] == f.slots[j] && b.slots[j] == h.slots[j];
    if b == f {
      assert h.slots[k] == f1.slots[k];
      assert h.slots == f1.slots;
    }
  }

  lemma {:induction false} AlikeInsert(f: File, h: File, p: Person, k: nat)
    requires Ready(f) && Whole(f) && Storable(f, p) && !NoneDeleted(f) && Target(f) == k && Alike(f, h) && Whole(h)
    ensures Ready(h) && Storable(h, p) && h.slots[k] == f.slots[k]
    ensures Insert(h, p).slots == h.slots[k := Insert(f, p).slots[k]]
    ensures Insert(h, p) == Insert(f, p).(slots := Insert(h, p).slots)
  {
    assert f.slots[k].Deleted?;
  }

  lemma {:induction false} PutBack(f: File, c: seq<nat>, sns: seq<string>, ps: seq<Person>, g: File) returns (h: File)
    requires Inv(f, c) && DeletesTo(f, sns, ps, g)
    ensures InsertsBack(g, ps, h) && Alike(f, h) && Whole(h)
    ensures h == f <==> AllRestorable(f, sns, ps, g)
    decreases |sns|
  {
    if sns == [] {
      h := f;
    } else {
      var k := Scanned(f, sns[0]).at;
      FreedLaw(f, c, k);
      var h1 := PutBack(Freed(f, k), [k] + c, sns[1..], ps[1..], g);
      AlikeStep(f, k, h1);
      h := Insert(h1, ps[0]);
      InsertWhole(h1, ps[0]);
      InsertsBackThen(g, ps[0], ps[1..], h1);
      HeadAndTail(ps);
    }
  }

  // Freed slots are reused last in, first out: put the deleted records back in
  // reverse order and the file is as it was, down to the last byte exactly when
  // no mark leaves anything behind a record.
  lemma {:induction false} LastFreedIsFirstReused(f: File, c: seq<nat>, sns: seq<string>, ps: seq<Person>, g: File)
    requires Inv(f, c) && DeletesTo(f, sns, ps, g)
    ensures exists h :: InsertsBack(g, ps, h) && Alike(f, h)
    ensures InsertsBack(g, ps, f) <==> AllRestorable(f, sns, ps, g)
  {
    var h := PutBack(f, c, sns, ps, g);
    if InsertsBack(g, ps, f) {
      InsertsBackIsOne(g, ps, f, h);
    }
  }
}
