// Project11/person.c: insert and delete as they read and write pages.
module RecordStore {
  import opened Common
  import opened Pack
  import opened RecordSlots
  import opened RecordFile

  // The header fields, and the slots of pages 1 and up.
  class Store {
    const size: nat
    var pagenum: int
    var recordnum: int
    var depage: int
    var derecord: int
    var slots: seq<Slot>

    ghost function View(): File
      reads this
    {
      File(size, pagenum, recordnum, depage, derecord, slots)
    }

    // The header written for a file that is empty so far.
    constructor (size: nat)
      ensures View() == NewFile(size)
    {
      this.size := size;
      pagenum, recordnum, depage, derecord, slots := 1, 0, -1, -1, [];
    }

    method WritePage(pagebuf: seq<Slot>, n: int)
      requires 1 <= n && 2 * n <= |slots| && |pagebuf| == 2
      modifies `slots
      ensures slots == old(slots)[SlotAt(n, 0) := pagebuf[0]][SlotAt(n, 1) := pagebuf[1]]
    {
      slots := slots[..2 * (n - 1)] + pagebuf + slots[2 * n..];
    }

    // One slot of one page, through the page buffer.
    method WriteSlot(n: int, rec: int, v: Slot)
      requires 1 <= n && 2 * n <= |slots| && 0 <= rec < 2
      modifies `slots
      ensures slots == old(slots)[SlotAt(n, rec) := v]
    {
      var pagebuf := slots[2 * (n - 1)..2 * n];
      pagebuf := pagebuf[rec := v];
      WritePage(pagebuf, n);
    }

    method InsertRecord(p: Person)
      requires Ready(View()) && Whole(View()) && Storable(View(), p)
      modifies this
      ensures View() == Insert(old(View()), p)
    {
      if depage == -1 && derecord == -1 {
        if recordnum % 2 == 0 {
          slots := slots + [Empty, Empty];
          WriteSlot(pagenum, 0, Overwritten(Empty, p, size));
          pagenum := pagenum + 1;
          recordnum := recordnum + 1;
        } else {
          var k := 2 * (pagenum - 2) + 1;
          assert Fits(slots[k], size);
          WriteSlot(pagenum - 1, 1, Overwritten(slots[k], p, size));
          recordnum := recordnum + 1;
        }
      } else {
        var was := slots[2 * (depage - 1) + derecord];
        assert Fits(was, size);
        WriteSlot(depage, derecord, Overwritten(was, p, size));
        depage, derecord := was.page, was.rec;
      }
    }

    // unpack of a slot's bytes, copied into a record buffer.
    method ReadRecord(s: Slot) returns (r: Option<Person>)
      ensures r == Read(s, size)
    {
      var b := Bytes(s, size);
      var recordbuf := new char[|b|](i requires 0 <= i < |b| => b[i]);
      assert recordbuf[..] == b;
      r := UnpackRecord(recordbuf);
    }

    method LookSlot(s: Slot, sn: string, k: nat) returns (o: Outcome)
      ensures o == Look(NumberOf(s, size), sn, k)
    {
      var r := ReadRecord(s);
      o := if r.None? then Stops(k) else if r.value.sn == sn then Hit(k) else NoMatch;
    }

    // The star and the links over the record, and the header.
    method StrikeSlot(i: int, j: int, ghost at: nat)
      requires Sized(View()) && 0 <= recordnum && Whole(View()) && 1 <= i < pagenum && 0 <= j < 2
      requires at == SlotAt(i, j) < |slots|
      modifies this
      ensures View() == Freed(old(View()), at)
    {
      var was := slots[2 * (i - 1) + j];
      assert Fits(was, size);
      WriteSlot(i, j, Struck(was, depage, derecord, size));
      depage, derecord := i, j;
      assert i == PageOf(at) && j == RecOf(at);
    }

    // One slot of the scan of f, where it finds the numbers ns: it ends here or
    // goes on behind it.
    method DeleteSlot(i: int, j: int, sn: string, ghost f: File, ghost ns: seq<Option<string>>)
      returns (o: Outcome)
      requires View() == f && Sized(f) && 0 <= recordnum && Whole(f) && ns == Numbers(f.slots, f.size)
      requires 1 <= i < pagenum && 0 <= j < 2
      modifies this
      ensures o == Look(ns[SlotAt(i, j)], sn, SlotAt(i, j))
      ensures View() == if o.Hit? then Freed(f, SlotAt(i, j)) else f
    {
      var k := 2 * (i - 1) + j;
      o := LookSlot(slots[k], sn, k);
      NumbersAt(slots, size, k);
      if o.Hit? {
        StrikeSlot(i, j, k);
      }
    }

    // The scan of one page, after a scan of all the pages before it.
    method DeleteFromPage(i: int, sn: string, ghost f: File, ghost ns: seq<Option<string>>)
      returns (o: Outcome)
      requires View() == f && Sized(f) && 0 <= recordnum && Whole(f) && ns == Numbers(f.slots, f.size)
      requires 1 <= i < pagenum && Passed(ns, sn, SlotAt(i, 0))
      modifies this
      ensures o.NoMatch? ==> Passed(ns, sn, SlotAt(i + 1, 0))
      ensures !o.NoMatch? ==> o == Scan(ns, sn, 0)
      ensures View() == if o.Hit? then Freed(f, o.at) else f
    {
      var j := 0;
      while j < 2
        invariant 0 <= j <= 2 && View() == f && Passed(ns, sn, SlotAt(i, j))
      {
        o := DeleteSlot(i, j, sn, f, ns);
        if !o.NoMatch? {
          ScanEnds(ns, sn, SlotAt(i, j));
          return o;
        }
        PassesOn(ns, sn, SlotAt(i, j));
        j := j + 1;
      }
      o := NoMatch;
    }

    // The two loops over pages and records. The outcome tells whether the
    // program came to the end of them.
    method DeleteRecord(sn: string) returns (o: Outcome)
      requires Sized(View()) && 0 <= recordnum && Whole(View())
      modifies this
      ensures o == Scanned(old(View()), sn)
      ensures View() == Delete(old(View()), sn)
    {
      ghost var f, ns := View(), Numbers(slots, size);
      var i := 1;
      while i < pagenum
        invariant 1 <= i <= pagenum && View() == f && Passed(ns, sn, SlotAt(i, 0))
      {
        o := DeleteFromPage(i, sn, f, ns);
        if !o.NoMatch? {
          return o;
        }
        i := i + 1;
      }
      o := NoMatch;
      ScanEnds(ns, sn, SlotAt(i, 0));
    }
  }
}
