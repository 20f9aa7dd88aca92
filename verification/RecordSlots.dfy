// Project11/person.c: the bytes of one slot of the record file, and what
// unpack makes of them when delete scans the file.
module RecordSlots {
  import opened Common
  import opened CStrings
  import opened Pack

  // A slot never written; one holding a record, with whatever bytes were behind
  // it; or one on the list of deleted slots, pointing to the next by page and
  // record number, (-1, -1) at the end, with what is left of its last record.
  datatype Slot = Empty | Live(person: Person, tail: string) | Deleted(page: int, rec: int, tail: string)

  const FF := 255 as char

  // The four bytes of an int, lowest first.
  function IntBytes(n: int): (b: string)
    ensures |b| == 4
  {
    [(n % 256) as char, (n / 256 % 256) as char, (n / 65536 % 256) as char, (n / 16777216 % 256) as char]
  }

  // And the int in four bytes.
  function IntOf(b: string): int
    requires |b| == 4
  {
    var n := b[0] as int + 256 * b[1] as int + 65536 * b[2] as int + 16777216 * b[3] as int;
    if n < 0x8000_0000 then n else n - 0x1_0000_0000
  }

  lemma {:induction false} IntReadsBack(n: int)
    requires -0x8000_0000 <= n < 0x8000_0000
    ensures IntOf(IntBytes(n)) == n
  {
    var a, b, c := n / 256, n / 65536, n / 16777216;
    assert a / 256 == b && b / 256 == c;
    assert n == n % 256 + 256 * (a % 256) + 65536 * (b % 256) + 16777216 * c;
    assert -128 <= c < 128;
  }

  // What delete writes over the start of a record: a star and two ints.
  const HEAD := 9

  function Head(page: int, rec: int): (b: string)
    ensures |b| == HEAD
  {
    "*" + IntBytes(page) + IntBytes(rec)
  }

  function Blank(n: nat): (b: string)
    ensures |b| == n
  {
    seq(n, _ => FF)
  }

  function Bytes(s: Slot, size: nat): string {
    match s
    case Empty => Blank(size)
    case Live(p, tail) => Packed(p) + tail
    case Deleted(page, rec, tail) => Head(page, rec) + tail
  }

  // The slot takes up a record's room, and a record's fields come from C strings.
  predicate Fits(s: Slot, size: nat) {
    && |Bytes(s, size)| == size
    && (s.Live? ==> NulFreePerson(s.person))
  }

  // strncpy of a packed record over the start of a slot.
  function Overwritten(s: Slot, p: Person, size: nat): Slot
    requires |Packed(p)| <= |Bytes(s, size)|
  {
    Live(p, Bytes(s, size)[|Packed(p)|..])
  }

  // memcpy of the star and the two ints over the start of a slot.
  function Struck(s: Slot, page: int, rec: int, size: nat): Slot
    requires HEAD <= |Bytes(s, size)|
  {
    Deleted(page, rec, Bytes(s, size)[HEAD..])
  }

  // What the scan of delete gets from a slot; None when unpack stops on a null
  // pointer.
  function Read(s: Slot, size: nat): Option<Person> { Unpack(Bytes(s, size)) }

  // The links that insert reads out of a deleted slot are those delete wrote.
  lemma {:induction false} LinksReadBack(page: int, rec: int, tail: string, size: nat)
    requires -1 <= page < 0x8000_0000 && -1 <= rec < 0x8000_0000
    ensures var b := Bytes(Deleted(page, rec, tail), size);
      |b| >= HEAD && IntOf(b[1..5]) == page && IntOf(b[5..HEAD]) == rec
  {
    var b := Bytes(Deleted(page, rec, tail), size);
    assert b[1..5] == IntBytes(page) && b[5..HEAD] == IntBytes(rec);
    IntReadsBack(page);
    IntReadsBack(rec);
  }

  // The bytes of a deleted slot: a star, then page and record number, lowest
  // byte first, or eight 0xFF bytes where no other slot follows.
  lemma {:induction false} MarkBytes(page: int, rec: int, tail: string, size: nat)
    requires 0 <= page < 0x8000_0000 && 0 <= rec < 256
    ensures Bytes(Deleted(page, rec, tail), size) ==
      ['*', (page % 256) as char, (page / 256 % 256) as char, (page / 65536 % 256) as char, (page / 16777216) as char,
       rec as char, '\0', '\0', '\0'] + tail
    ensures Bytes(Deleted(-1, -1, tail), size) == "*" + seq(8, _ => 255 as char) + tail
  {
  }

  // The first field of the slot is sn.
  predicate Bears(s: Slot, size: nat, sn: string) { StartsWithNumber(CText(Bytes(s, size)), sn) }

  // How many fields the slot has.
  function Fields(s: Slot, size: nat): nat { FieldsFrom(CText(Bytes(s, size)), 0) }

  // A record's slot bears its number and no other, exactly if the number is
  // plain; otherwise it is never found by its number.
  lemma {:induction false} BearsItsNumberExactlyWhenPlain(p: Person, tail: string, size: nat, sn: string)
    requires NulFreePerson(p)
    ensures Bears(Live(p, tail), size, p.sn) <==> PlainNumber(p.sn)
    ensures PlainNumber(p.sn) ==> (Bears(Live(p, tail), size, sn) <==> sn == p.sn)
  {
    PackedStartsWithNumber(p, tail);
    if PlainNumber(p.sn) && Bears(Live(p, tail), size, sn) {
      OneNumber(CText(Packed(p) + tail), p.sn, sn);
    }
  }

  predicate HashFree(p: Person) {
    Without(p.sn, '#') && forall k :: 0 <= k < OTHER_FIELDS ==> Without(Others(p)[k], '#')
  }

  lemma {:induction false} JoinWithNumber(p: Person)
    ensures Join([p.sn] + Others(p)) == Packed(p)
  {
    JoinHead([p.sn] + Others(p));
  }

  lemma {:induction false} FreshText(p: Person, m: nat)
    requires NulFreePerson(p)
    ensures CText(Packed(p) + Blank(m)) == Packed(p) + Blank(m)
  {
    JoinNulFree(Others(p));
    var b := Packed(p) + Blank(m);
    FindNone(b, '\0', 0);
  }

  // A record without '#' signs that went into a slot never used before is as
  // many fields as are not empty, and one for the bytes behind it.
  lemma {:induction false} FreshFields(p: Person, m: nat)
    requires NulFreePerson(p) && HashFree(p)
    ensures Fields(Live(p, Blank(m)), |Packed(p)| + m) == NonEmpty([p.sn] + Others(p)) + (if m > 0 then 1 else 0)
  {
    var s, n := Packed(p) + Blank(m), |Packed(p)|;
    FreshText(p, m);
    JoinWithNumber(p);
    assert s[0..n] == Packed(p) && s[n - 1] == '#' by {
      JoinFive(p);
    }
    JoinedFields(s, 0, [p.sn] + Others(p));
    if m > 0 {
      NoFieldBetween(s, n + 1, |s|);
    }
  }

  // A record written into a slot never used before.
  lemma {:induction false} FreshSlot(p: Person, size: nat)
    requires |Packed(p)| <= size
    ensures Overwritten(Empty, p, size) == Live(p, Blank(size - |Packed(p)|))
  {
    assert Blank(size)[|Packed(p)|..] == Blank(size - |Packed(p)|);
  }

  lemma {:induction false} LiveReads(p: Person, tail: string, size: nat)
    requires NulFreePerson(p) && Packable(p)
    ensures Read(Live(p, tail), size) == Some(p)
  {
    PackedReadsBack(p, tail);
  }

  lemma {:induction false} FewFields(buf: string)
    requires Without(CText(buf), '#') || |CText(buf)| <= 10
    ensures Unpack(buf) == None
  {
    var s := CText(buf);
    UnpackNeedsSixFields(buf);
    if |s| <= 10 {
      FieldsTakeRoom(s, 0);
    } else {
      NoFieldBetween(s, 1, |s|);
    }
  }

  // A slot never written holds one field at most.
  lemma {:induction false} EmptyStops(size: nat)
    ensures Read(Empty, size) == None
  {
    FewFields(Blank(size));
  }

  // A deleted slot that points to another has a NUL in its record number.
  lemma {:induction false} InnerStops(page: int, rec: int, tail: string, size: nat)
    requires rec == 0 || rec == 1
    ensures Read(Deleted(page, rec, tail), size) == None
  {
    var buf := Head(page, rec) + tail;
    assert buf[6] == IntBytes(rec)[1] == '\0';
    FewFields(buf);
  }

  // The bytes of the last slot of the list before what is left of its record.
  function EndMark(): string { Head(-1, -1) }

  lemma {:induction false} EndMarkChars()
    ensures |EndMark()| == HEAD && EndMark()[0] == '*' && forall j :: 1 <= j < HEAD ==> EndMark()[j] == FF
    ensures NulFree(EndMark()) && Without(EndMark(), '#')
  {
  }

  // No number a user types in.
  predicate Marked(sn: string) { EndMark() <= sn }

  // The last slot of the list may be readable, but not as a number of a person.
  lemma {:induction false} LastReadsMarked(tail: string, size: nat)
    requires Read(Deleted(-1, -1, tail), size).Some?
    ensures Marked(Read(Deleted(-1, -1, tail), size).value.sn)
  {
    var buf := EndMark() + tail;
    var s := CText(buf);
    EndMarkChars();
    TextStartsWith(EndMark(), tail);
    assert forall j :: 0 <= j < HEAD ==> s[j] == EndMark()[j];
    SkipTo(s, '#', 0, 0);
    var t := StrTok(s, '#', 0);
    assert t.end >= HEAD;
    assert s[..t.end][..HEAD] == EndMark();
  }

  // Whether six fields are left behind the mark.
  predicate SixLeft(tail: string) { FieldsFrom(CText(EndMark() + tail), 0) >= 6 }

  lemma {:induction false} LastReadsExactlyWhenSixLeft(tail: string, size: nat)
    ensures Read(Deleted(-1, -1, tail), size).Some? <==> SixLeft(tail)
  {
    UnpackNeedsSixFields(EndMark() + tail);
  }

  // The record as it reads with the mark over the start of its number.
  function MarkedOver(p: Person): Person
    requires |p.sn| >= HEAD
  {
    p.(sn := EndMark() + p.sn[HEAD..])
  }

  lemma {:induction false} MarkedOverIsPackable(p: Person)
    requires NulFreePerson(p) && Packable(p) && |p.sn| >= HEAD && Without(p.sn[HEAD..], '#')
    ensures NulFreePerson(MarkedOver(p)) && Packable(MarkedOver(p))
  {
    var sn := MarkedOver(p).sn;
    EndMarkChars();
    assert forall j :: 0 <= j < |sn| ==> sn[j] == if j < HEAD then EndMark()[j] else p.sn[HEAD..][j - HEAD];
    SkipTo(sn, '#', 0, 0);
  }

  lemma {:induction false} DropWithin<T>(a: seq<T>, b: seq<T>, c: seq<T>, d: seq<T>, n: nat)
    requires n <= |a|
    ensures (a + b + c + d)[n..] == a[n..] + b + c + d
  {
  }

  lemma {:induction false} MarkedOverBytes(p: Person, tail: string)
    requires |p.sn| >= HEAD
    ensures |Packed(p) + tail| >= HEAD
    ensures EndMark() + (Packed(p) + tail)[HEAD..] == Packed(MarkedOver(p)) + tail
  {
    var rest := Join(Others(p));
    assert Packed(p) + tail == p.sn + "#" + rest + tail;
    DropWithin(p.sn, "#", rest, tail, HEAD);
    var cut := p.sn[HEAD..];
    assert EndMark() + (cut + "#" + rest + tail) == EndMark() + cut + "#" + rest + tail;
    assert Others(MarkedOver(p)) == Others(p);
    Regroup(EndMark() + cut, "#", rest);
  }

  // They are, if the record's number was long enough to take the mark.
  lemma {:induction false} LongNumberLeavesSix(p: Person, tail: string)
    requires NulFreePerson(p) && Packable(p) && |p.sn| >= HEAD && Without(p.sn[HEAD..], '#')
    ensures |Packed(p) + tail| >= HEAD && SixLeft((Packed(p) + tail)[HEAD..])
  {
    MarkedOverBytes(p, tail);
    MarkedOverIsPackable(p);
    PackedReadsBack(MarkedOver(p), tail);
    UnpackNeedsSixFields(Packed(MarkedOver(p)) + tail);
  }

  // What a mark leaves of itself behind a record written over it is what was
  // there before the mark.
  predicate MarkLeavesNothing(p: Person, tail: string, page: int, rec: int) {
    var n := |Packed(p)|;
    n >= HEAD || (HEAD - n <= |tail| && Head(page, rec)[n..] == tail[..HEAD - n])
  }

  // Writing the same record back over a struck slot restores every byte exactly
  // then, as it does for any record as long as a mark.
  lemma {:induction false} WrittenBackExactlyWhen(p: Person, tail: string, page: int, rec: int, size: nat)
    requires |Packed(p) + tail| == size && HEAD <= size
    ensures |Packed(p)| <= |Bytes(Struck(Live(p, tail), page, rec, size), size)|
    ensures Overwritten(Struck(Live(p, tail), page, rec, size), p, size) == Live(p, tail)
       <==> MarkLeavesNothing(p, tail, page, rec)
  {
    var b, n := Packed(p) + tail, |Packed(p)|;
    var b' := Head(page, rec) + b[HEAD..];
    if n >= HEAD {
      assert b'[n..] == b[n..] == tail;
    } else {
      var k := HEAD - n;
      assert b'[n..] == Head(page, rec)[n..] + tail[k..];
      assert tail == tail[..k] + tail[k..];
      if b'[n..] == tail {
        assert b'[n..][..k] == Head(page, rec)[n..] && tail[..k] == Head(page, rec)[n..];
      }
    }
  }
}
