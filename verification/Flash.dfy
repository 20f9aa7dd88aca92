// Project10/ftlmgr.c: pages of a flash device, four to a block, of which only
// whole blocks can be erased. Overwriting a page moves its block to an erased
// one and back.
module Flash {
  import opened Common

  type Byte = b: int | 0 <= b < 256
  type Page = seq<Byte>

  const FF: Byte := 255
  const PAGE_NUM := 4

  predicate Erased(p: Page) { forall i :: 0 <= i < |p| ==> p[i] == FF }

  function Blank(size: nat): (p: Page)
    ensures |p| == size && Erased(p)
  {
    seq(size, _ => FF)
  }

  // A device: whole blocks of pages of one size.
  ghost predicate Device(d: seq<Page>, size: nat) {
    |d| % PAGE_NUM == 0 && forall k :: 0 <= k < |d| ==> |d[k]| == size
  }

  predicate InBlock(k: int, b: int) { PAGE_NUM * b <= k < PAGE_NUM * b + PAGE_NUM }

  predicate ErasedBlock(d: seq<Page>, b: nat)
    requires PAGE_NUM * b + PAGE_NUM <= |d|
  {
    forall k :: PAGE_NUM * b <= k < PAGE_NUM * b + PAGE_NUM ==> Erased(d[k])
  }

  lemma {:induction false} ErasedIsBlank(p: Page)
    ensures Erased(p) <==> p == Blank(|p|)
  {
  }

  // ------------------------------------------------------------ single writes

  // What reaches the device: a page copied, a page programmed, a block erased.
  datatype Write = Copy(src: int, dst: int) | Program(ppn: int, data: Page) | Erase(block: int)

  predicate Fits(d: seq<Page>, w: Write) {
    match w
    case Copy(src, dst) => 0 <= src < |d| && 0 <= dst < |d|
    case Program(ppn, _) => 0 <= ppn < |d|
    case Erase(b) => 0 <= PAGE_NUM * b && PAGE_NUM * b + PAGE_NUM <= |d|
  }

  function Apply(d: seq<Page>, w: Write, size: nat): (d': seq<Page>)
    requires Fits(d, w)
    ensures |d'| == |d|
  {
    match w
    case Copy(src, dst) => d[dst := d[src]]
    case Program(ppn, data) => d[ppn := data]
    case Erase(b) =>
      d[PAGE_NUM * b := Blank(size)][PAGE_NUM * b + 1 := Blank(size)][PAGE_NUM * b + 2 := Blank(size)][PAGE_NUM * b + 3 := Blank(size)]
  }

  predicate AllFit(d: seq<Page>, ws: seq<Write>) { forall i :: 0 <= i < |ws| ==> Fits(d, ws[i]) }

  function Run(d: seq<Page>, ws: seq<Write>, size: nat): (d': seq<Page>)
    requires AllFit(d, ws)
    ensures |d'| == |d|
    decreases |ws|
  {
    if ws == [] then d else Run(Apply(d, ws[0], size), ws[1..], size)
  }

  lemma {:induction false} RunConcat(d: seq<Page>, a: seq<Write>, b: seq<Write>, size: nat)
    requires AllFit(d, a) && AllFit(d, b)
    ensures AllFit(d, a + b) && Run(d, a + b, size) == Run(Run(d, a, size), b, size)
    decreases |a|
  {
    if a == [] {
      assert a + b == b;
    } else {
      assert (a + b)[1..] == a[1..] + b;
      RunConcat(Apply(d, a[0], size), a[1..], b, size);
    }
  }

  // Pages are programmed whole.
  predicate WholePages(ws: seq<Write>, size: nat) {
    forall i :: 0 <= i < |ws| && ws[i].Program? ==> |ws[i].data| == size
  }

  lemma {:induction false} RunKeepsDevice(d: seq<Page>, ws: seq<Write>, size: nat)
    requires Device(d, size) && AllFit(d, ws) && WholePages(ws, size)
    ensures Device(Run(d, ws, size), size)
    decreases |ws|
  {
    if ws != [] {
      RunKeepsDevice(Apply(d, ws[0], size), ws[1..], size);
    }
  }

  // ------------------------------------------------------- the overwrite of a page

  // The pages of one block from i on, except one, copied into another block.
  function Moves(src: nat, dst: nat, skip: nat, i: nat): seq<Write>
    decreases PAGE_NUM - i, src
  {
    if i >= PAGE_NUM then []
    else if i == skip then Moves(src, dst, skip, i + 1)
    else [Copy(PAGE_NUM * src + i, PAGE_NUM * dst + i)] + Moves(src, dst, skip, i + 1)
  }

  // The first erased block from b on, or 0.
  function FindErased(d: seq<Page>, b: nat): (c: nat)
    requires |d| % PAGE_NUM == 0
    decreases |d| - PAGE_NUM * b
  {
    if PAGE_NUM * b + PAGE_NUM > |d| then 0
    else if ErasedBlock(d, b) then b
    else FindErased(d, b + 1)
  }

  // Copy the block to c, erase it, program the new page, copy the others back,
  // erase c.
  function Rewrite(block: nat, skip: nat, c: nat, data: Page): seq<Write> {
    Moves(block, c, skip, 0) + [Erase(block), Program(PAGE_NUM * block + skip, data)] + Moves(c, block, skip, 0) + [Erase(c)]
  }

  function Overwrite(d: seq<Page>, ppn: nat, data: Page): seq<Write>
    requires |d| % PAGE_NUM == 0 && ppn < |d|
  {
    if Erased(d[ppn]) then [Program(ppn, data)]
    else
      Rewrite(ppn / PAGE_NUM, ppn % PAGE_NUM, FindErased(d, 0), data)
  }

  // The result of copying one block's pages, from the i-th on, into another.
  function Moved<T>(d: seq<T>, src: nat, dst: nat, skip: nat, i: nat): (d': seq<T>)
    requires PAGE_NUM * src + PAGE_NUM <= |d| && PAGE_NUM * dst + PAGE_NUM <= |d|
    ensures |d'| == |d|
  {
    seq(|d|, k requires 0 <= k < |d| =>
      if PAGE_NUM * dst + i <= k < PAGE_NUM * dst + PAGE_NUM && k != PAGE_NUM * dst + skip
      then d[k - PAGE_NUM * dst + PAGE_NUM * src] else d[k])
  }

  lemma {:induction false} MovesFit(d: seq<Page>, src: nat, dst: nat, skip: nat, i: nat)
    requires PAGE_NUM * src + PAGE_NUM <= |d| && PAGE_NUM * dst + PAGE_NUM <= |d|
    ensures AllFit(d, Moves(src, dst, skip, i))
    decreases PAGE_NUM - i
  {
    if i < PAGE_NUM {
      MovesFit(d, src, dst, skip, i + 1);
    }
  }

  lemma {:induction false} MovedStep<T>(d: seq<T>, src: nat, dst: nat, skip: nat, i: nat)
    requires PAGE_NUM * src + PAGE_NUM <= |d| && PAGE_NUM * dst + PAGE_NUM <= |d| && i < PAGE_NUM
    ensures i == skip ==> Moved(d, src, dst, skip, i) == Moved(d, src, dst, skip, i + 1)
    ensures i != skip ==>
      Moved(d, src, dst, skip, i) == Moved(d[PAGE_NUM * dst + i := d[PAGE_NUM * src + i]], src, dst, skip, i + 1)
  {
  }

  lemma {:induction false} MovesMove(d: seq<Page>, src: nat, dst: nat, skip: nat, i: nat, size: nat)
    requires PAGE_NUM * src + PAGE_NUM <= |d| && PAGE_NUM * dst + PAGE_NUM <= |d| && i <= PAGE_NUM
    ensures AllFit(d, Moves(src, dst, skip, i))
    ensures Run(d, Moves(src, dst, skip, i), size) == Moved(d, src, dst, skip, i)
    decreases PAGE_NUM - i
  {
    MovesFit(d, src, dst, skip, i);
    if i == PAGE_NUM {
      assert Moved(d, src, dst, skip, i) == d;
    } else {
      MovedStep(d, src, dst, skip, i);
      if i == skip {
        MovesMove(d, src, dst, skip, i + 1, size);
      } else {
        assert Moves(src, dst, skip, i)[1..] == Moves(src, dst, skip, i + 1);
        MovesMove(d[PAGE_NUM * dst + i := d[PAGE_NUM * src + i]], src, dst, skip, i + 1, size);
      }
    }
  }

  // ------------------------------------------------------------ what it comes to

  // The pages after an overwrite that copies by way of block c.
  function Final(d: seq<Page>, ppn: nat, data: Page, c: nat, size: nat): (d': seq<Page>)
    requires |d| % PAGE_NUM == 0 && ppn < |d| && PAGE_NUM * c + PAGE_NUM <= |d|
  {
    var block, skip := ppn / PAGE_NUM, ppn % PAGE_NUM;
    var d3 := Apply(Moved(d, block, c, skip, 0), Erase(block), size)[ppn := data];
    Apply(Moved(d3, c, block, skip, 0), Erase(c), size)
  }

  lemma {:induction false} FindErasedFinds(d: seq<Page>, b: nat)
    requires |d| % PAGE_NUM == 0
    ensures PAGE_NUM * FindErased(d, b) + PAGE_NUM <= |d| || (|d| == 0 && FindErased(d, b) == 0)
    decreases |d| - PAGE_NUM * b
  {
    if PAGE_NUM * b + PAGE_NUM <= |d| && !ErasedBlock(d, b) {
      FindErasedFinds(d, b + 1);
    }
  }

  lemma {:induction false} FindErasedIsErased(d: seq<Page>, b: nat, w: nat)
    requires |d| % PAGE_NUM == 0 && b <= w && PAGE_NUM * w + PAGE_NUM <= |d| && ErasedBlock(d, w)
    ensures b <= FindErased(d, b) <= w && ErasedBlock(d, FindErased(d, b))
    decreases |d| - PAGE_NUM * b
  {
    if !ErasedBlock(d, b) {
      FindErasedIsErased(d, b + 1, w);
    }
  }

  lemma {:induction false} BlockFits(n: nat, ppn: nat)
    requires n % PAGE_NUM == 0 && ppn < n
    ensures PAGE_NUM * (ppn / PAGE_NUM) + PAGE_NUM <= n
    ensures ppn == PAGE_NUM * (ppn / PAGE_NUM) + ppn % PAGE_NUM
  {
  }

  lemma {:induction false} RunFour(d: seq<Page>, a: seq<Write>, m: seq<Write>, b: seq<Write>, z: seq<Write>, size: nat)
    requires AllFit(d, a) && AllFit(d, m) && AllFit(d, b) && AllFit(d, z)
    ensures AllFit(d, a + m + b + z)
    ensures Run(d, a + m + b + z, size) == Run(Run(Run(Run(d, a, size), m, size), b, size), z, size)
  {
    RunConcat(d, a, m, size);
    RunConcat(d, a + m, b, size);
    RunConcat(d, a + m + b, z, size);
  }

  lemma {:induction false} MiddleRuns(d: seq<Page>, block: nat, ppn: nat, data: Page, size: nat)
    requires ppn < |d| && PAGE_NUM * block + PAGE_NUM <= |d|
    ensures AllFit(d, [Erase(block), Program(ppn, data)])
    ensures Run(d, [Erase(block), Program(ppn, data)], size) == Apply(d, Erase(block), size)[ppn := data]
  {
    var ws := [Erase(block), Program(ppn, data)];
    var d1 := Apply(d, Erase(block), size);
    assert Run(d, ws, size) == Run(d1, [Program(ppn, data)], size) by {
      assert ws[1..] == [Program(ppn, data)];
    }
    assert Run(d1, [Program(ppn, data)], size) == d1[ppn := data];
  }

  lemma {:induction false} RewriteRuns(d: seq<Page>, block: nat, skip: nat, c: nat, data: Page, size: nat)
    requires PAGE_NUM * block + PAGE_NUM <= |d| && PAGE_NUM * c + PAGE_NUM <= |d| && skip < PAGE_NUM
    ensures AllFit(d, Rewrite(block, skip, c, data))
    ensures var d3 := Apply(Moved(d, block, c, skip, 0), Erase(block), size)[PAGE_NUM * block + skip := data];
      Run(d, Rewrite(block, skip, c, data), size) == Apply(Moved(d3, c, block, skip, 0), Erase(c), size)
  {
    var ppn := PAGE_NUM * block + skip;
    var a, m, b, z := Moves(block, c, skip, 0), [Erase(block), Program(ppn, data)], Moves(c, block, skip, 0), [Erase(c)];
    assert Rewrite(block, skip, c, data) == a + m + b + z;
    MovesMove(d, block, c, skip, 0, size);
    MiddleRuns(Run(d, a, size), block, ppn, data, size);
    MovesMove(Run(Run(d, a, size), m, size), c, block, skip, 0, size);
    MovesFit(d, c, block, skip, 0);
    RunFour(d, a, m, b, z, size);
  }

  lemma {:induction false} OverwriteRuns(d: seq<Page>, ppn: nat, data: Page, size: nat)
    requires |d| % PAGE_NUM == 0 && ppn < |d| && !Erased(d[ppn])
    ensures PAGE_NUM * FindErased(d, 0) + PAGE_NUM <= |d| && AllFit(d, Overwrite(d, ppn, data))
    ensures Run(d, Overwrite(d, ppn, data), size) == Final(d, ppn, data, FindErased(d, 0), size)
  {
    BlockFits(|d|, ppn);
    FindErasedFinds(d, 0);
    var block, skip := ppn / PAGE_NUM, ppn % PAGE_NUM;
    assert PAGE_NUM * block + skip == ppn;
    RewriteRuns(d, block, skip, FindErased(d, 0), data, size);
  }

  // By way of another block: the page is written, that block ends erased, and
  // nothing else changes.
  lemma {:induction false} FinalByOther(d: seq<Page>, ppn: nat, data: Page, c: nat, size: nat, k: nat)
    requires |d| % PAGE_NUM == 0 && ppn < |d| && PAGE_NUM * c + PAGE_NUM <= |d| && c != ppn / PAGE_NUM && k < |d|
    ensures Final(d, ppn, data, c, size)[k]
         == if InBlock(k, c) then Blank(size) else if k == ppn then data else d[k]
  {
    BlockFits(|d|, ppn);
  }

  // A block copied to itself is lost altogether, the new page included.
  lemma {:induction false} FinalBySelf(d: seq<Page>, ppn: nat, data: Page, c: nat, size: nat, k: nat)
    requires |d| % PAGE_NUM == 0 && ppn < |d| && PAGE_NUM * c + PAGE_NUM <= |d| && c == ppn / PAGE_NUM && k < |d|
    ensures Final(d, ppn, data, c, size)[k] == if InBlock(k, c) then Blank(size) else d[k]
  {
    BlockFits(|d|, ppn);
  }

  ghost predicate HasErasedBlock(d: seq<Page>) {
    exists b: nat :: PAGE_NUM * b + PAGE_NUM <= |d| && ErasedBlock(d, b)
  }

  lemma {:induction false} FindErasedNone(d: seq<Page>, b: nat)
    requires |d| % PAGE_NUM == 0 && !HasErasedBlock(d)
    ensures FindErased(d, b) == 0
    decreases |d| - PAGE_NUM * b
  {
    if PAGE_NUM * b + PAGE_NUM <= |d| {
      FindErasedNone(d, b + 1);
    }
  }

  // The block used for copying is another one, and erased, if any block is.
  lemma {:induction false} CopyBlockIsErased(d: seq<Page>, ppn: nat)
    requires |d| % PAGE_NUM == 0 && ppn < |d| && !Erased(d[ppn]) && HasErasedBlock(d)
    ensures var c := FindErased(d, 0);
      && PAGE_NUM * c + PAGE_NUM <= |d| && ErasedBlock(d, c) && c != ppn / PAGE_NUM
      && forall w: nat :: w < c ==> !ErasedBlock(d, w)
  {
    var w: nat :| PAGE_NUM * w + PAGE_NUM <= |d| && ErasedBlock(d, w);
    FindErasedFinds(d, 0);
    FindErasedIsErased(d, 0, w);
    BlockFits(|d|, ppn);
    forall v: nat | v < FindErased(d, 0)
      ensures !ErasedBlock(d, v)
    {
      if ErasedBlock(d, v) {
        FindErasedIsErased(d, 0, v);
      }
    }
  }

  lemma {:induction false} UpdateWithErased(d: seq<Page>, ppn: nat, data: Page, size: nat)
    requires Device(d, size) && ppn < |d| && !Erased(d[ppn]) && HasErasedBlock(d)
    ensures AllFit(d, Overwrite(d, ppn, data)) && Run(d, Overwrite(d, ppn, data), size) == d[ppn := data]
  {
    OverwriteRuns(d, ppn, data, size);
    CopyBlockIsErased(d, ppn);
    var c := FindErased(d, 0);
    forall k | 0 <= k < |d|
      ensures Final(d, ppn, data, c, size)[k] == d[ppn := data][k]
    {
      FinalByOther(d, ppn, data, c, size, k);
      ErasedIsBlank(d[k]);
    }
  }

  // Nothing is lost only because there was nothing to lose.
  predicate NothingToLose(d: seq<Page>, ppn: nat, data: Page)
    requires PAGE_NUM <= |d|
  {
    ppn < PAGE_NUM && Erased(data) && forall k :: 0 <= k < PAGE_NUM && k != ppn ==> Erased(d[k])
  }

  lemma {:induction false} UpdateWithoutErased(d: seq<Page>, ppn: nat, data: Page, size: nat)
    requires Device(d, size) && |data| == size && ppn < |d| && !Erased(d[ppn]) && !HasErasedBlock(d)
    ensures AllFit(d, Overwrite(d, ppn, data)) && PAGE_NUM <= |d|
    ensures Run(d, Overwrite(d, ppn, data), size) == d[ppn := data] <==> NothingToLose(d, ppn, data)
  {
    OverwriteRuns(d, ppn, data, size);
    FindErasedNone(d, 0);
    var f := Final(d, ppn, data, 0, size);
    if ppn < PAGE_NUM {
      LostBlock(d, ppn, data, size);
    } else {
      assert !ErasedBlock(d, 0);
      var k :| 0 <= k < PAGE_NUM && !Erased(d[k]);
      FinalByOther(d, ppn, data, 0, size, k);
      assert f[k] != d[ppn := data][k];
    }
  }

  lemma {:induction false} LostBlock(d: seq<Page>, ppn: nat, data: Page, size: nat)
    requires Device(d, size) && |data| == size && ppn < PAGE_NUM <= |d|
    ensures Final(d, ppn, data, 0, size) == d[ppn := data] <==> NothingToLose(d, ppn, data)
  {
    var f, g := Final(d, ppn, data, 0, size), d[ppn := data];
    forall k | 0 <= k < |d|
      ensures f[k] == g[k] <==> (k < PAGE_NUM ==> Erased(g[k]))
    {
      FinalBySelf(d, ppn, data, 0, size, k);
      ErasedIsBlank(g[k]);
    }
    assert g[ppn] == data && forall k :: 0 <= k < PAGE_NUM && k != ppn ==> g[k] == d[k];
    if f == g {
      assert f[ppn] == g[ppn];
      assert forall k :: 0 <= k < PAGE_NUM ==> f[k] == g[k];
    } else {
      assert exists k :: 0 <= k < |d| && f[k] != g[k];
    }
  }

  // Writing a page changes that page and no other on the whole device exactly
  // when the page or some block is erased, or nothing was there to lose.
  lemma {:induction false} WriteIsOneUpdateExactlyWhen(d: seq<Page>, ppn: nat, data: Page, size: nat)
    requires Device(d, size) && |data| == size && ppn < |d|
    ensures AllFit(d, Overwrite(d, ppn, data)) && PAGE_NUM <= |d|
    ensures Run(d, Overwrite(d, ppn, data), size) == d[ppn := data]
       <==> Erased(d[ppn]) || HasErasedBlock(d) || NothingToLose(d, ppn, data)
  {
    BlockFits(|d|, ppn);
    if Erased(d[ppn]) {
    } else if HasErasedBlock(d) {
      UpdateWithErased(d, ppn, data, size);
    } else {
      UpdateWithoutErased(d, ppn, data, size);
    }
  }

  // It does happen, with one block only: the second write to a page loses it,
  // and whatever else the block holds.
  lemma {:induction false} SecondWriteLosesBlock(size: nat, data: Page, again: Page) returns (d: seq<Page>, d1: seq<Page>)
    requires size > 0 && |data| == |again| == size && !Erased(data) && !Erased(again)
    ensures d == seq(PAGE_NUM, _ => Blank(size)) && Device(d, size)
    ensures AllFit(d, Overwrite(d, 0, data)) && d1 == Run(d, Overwrite(d, 0, data), size) && d1 == d[0 := data]
    ensures AllFit(d1, Overwrite(d1, 0, again)) && Run(d1, Overwrite(d1, 0, again), size) == d
  {
    d := seq(PAGE_NUM, _ => Blank(size));
    WriteIsOneUpdateExactlyWhen(d, 0, data, size);
    d1 := d[0 := data];
    OnlyBlockIsInUse(d1);
    OverwriteRuns(d1, 0, again, size);
    FindErasedNone(d1, 0);
    forall k | 0 <= k < PAGE_NUM
      ensures Final(d1, 0, again, 0, size)[k] == d[k]
    {
      FinalBySelf(d1, 0, again, 0, size, k);
    }
  }

  lemma {:induction false} OnlyBlockIsInUse(d: seq<Page>)
    requires |d| == PAGE_NUM && !Erased(d[0])
    ensures !HasErasedBlock(d)
  {
    forall b: nat | PAGE_NUM * b + PAGE_NUM <= |d|
      ensures !ErasedBlock(d, b)
    {
      assert b == 0;
    }
  }

  // ------------------------------------------------------- one write after another

  lemma {:induction false} MovesAreWhole(src: nat, dst: nat, skip: nat, i: nat, size: nat)
    ensures WholePages(Moves(src, dst, skip, i), size)
    decreases PAGE_NUM - i
  {
    if i < PAGE_NUM {
      MovesAreWhole(src, dst, skip, i + 1, size);
    }
  }

  lemma {:induction false} WholeFour(a: seq<Write>, m: seq<Write>, b: seq<Write>, z: seq<Write>, size: nat)
    requires WholePages(a, size) && WholePages(m, size) && WholePages(b, size) && WholePages(z, size)
    ensures WholePages(a + m + b + z, size)
  {
    assert WholePages(a + m, size) && WholePages(a + m + b, size);
  }

  lemma {:induction false} RewriteIsWhole(block: nat, skip: nat, c: nat, data: Page, size: nat)
    requires |data| == size
    ensures WholePages(Rewrite(block, skip, c, data), size)
  {
    MovesAreWhole(block, c, skip, 0, size);
    MovesAreWhole(c, block, skip, 0, size);
    WholeFour(Moves(block, c, skip, 0), [Erase(block), Program(PAGE_NUM * block + skip, data)],
              Moves(c, block, skip, 0), [Erase(c)], size);
  }

  lemma {:induction false} OverwriteFits(d: seq<Page>, ppn: nat, data: Page, size: nat)
    requires Device(d, size) && |data| == size && ppn < |d|
    ensures AllFit(d, Overwrite(d, ppn, data)) && WholePages(Overwrite(d, ppn, data), size)
  {
    if !Erased(d[ppn]) {
      OverwriteRuns(d, ppn, data, size);
      RewriteIsWhole(ppn / PAGE_NUM, ppn % PAGE_NUM, FindErased(d, 0), data, size);
    }
  }

  lemma {:induction false} WriteKeepsDevice(d: seq<Page>, ppn: nat, data: Page, size: nat)
    requires Device(d, size) && |data| == size && ppn < |d|
    ensures AllFit(d, Overwrite(d, ppn, data)) && Device(Run(d, Overwrite(d, ppn, data), size), size)
  {
    OverwriteFits(d, ppn, data, size);
    RunKeepsDevice(d, Overwrite(d, ppn, data), size);
  }

  // A write command: the page and what goes into it.
  datatype Command = Command(ppn: nat, data: Page)

  ghost predicate Proper(d: seq<Page>, cs: seq<Command>, size: nat) {
    Device(d, size) && forall i :: 0 <= i < |cs| ==> cs[i].ppn < |d| && |cs[i].data| == size
  }

  // The device after the first i commands.
  ghost function After(d: seq<Page>, cs: seq<Command>, i: nat, size: nat): (d': seq<Page>)
    requires Proper(d, cs, size) && i <= |cs|
    ensures Device(d', size) && |d'| == |d|
  {
    if i == 0 then d
    else
      var d1, c := After(d, cs, i - 1, size), cs[i - 1];
      WriteKeepsDevice(d1, c.ppn, c.data, size);
      Run(d1, Overwrite(d1, c.ppn, c.data), size)
  }

  // What a map from pages to contents would hold then.
  function Latest(d: seq<Page>, cs: seq<Command>, i: nat): (d': seq<Page>)
    requires i <= |cs| && forall j :: 0 <= j < |cs| ==> cs[j].ppn < |d|
    ensures |d'| == |d|
  {
    if i == 0 then d else Latest(d, cs, i - 1)[cs[i - 1].ppn := cs[i - 1].data]
  }

  lemma {:induction false} LatestIsDevice(d: seq<Page>, cs: seq<Command>, i: nat, size: nat)
    requires Proper(d, cs, size) && i <= |cs|
    ensures Device(Latest(d, cs, i), size)
  {
    if i > 0 {
      LatestIsDevice(d, cs, i - 1, size);
    }
  }

  // The page is erased, or a block to copy by way of, or there is nothing to lose.
  ghost predicate HasRoom(d: seq<Page>, c: Command)
    requires PAGE_NUM <= |d| && c.ppn < |d|
  {
    Erased(d[c.ppn]) || HasErasedBlock(d) || NothingToLose(d, c.ppn, c.data)
  }

  lemma {:induction false} DeviceHasBlock(d: seq<Page>, cs: seq<Command>, size: nat)
    requires Proper(d, cs, size) && cs != []
    ensures PAGE_NUM <= |d|
  {
    BlockFits(|d|, cs[0].ppn);
  }

  ghost predicate IsLatest(d: seq<Page>, cs: seq<Command>, i: nat, size: nat)
    requires Proper(d, cs, size) && i <= |cs|
  {
    After(d, cs, i, size) == Latest(d, cs, i)
  }

  ghost predicate HasRoomAt(d: seq<Page>, cs: seq<Command>, i: nat, size: nat)
    requires Proper(d, cs, size) && i < |cs|
  {
    PAGE_NUM <= |d| && HasRoom(Latest(d, cs, i), cs[i])
  }

  lemma {:induction false} NextIsLatest(d: seq<Page>, cs: seq<Command>, i: nat, size: nat)
    requires Proper(d, cs, size) && i < |cs| && IsLatest(d, cs, i, size)
    ensures IsLatest(d, cs, i + 1, size) <==> HasRoomAt(d, cs, i, size)
  {
    DeviceHasBlock(d, cs, size);
    LatestIsDevice(d, cs, i, size);
    WriteIsOneUpdateExactlyWhen(Latest(d, cs, i), cs[i].ppn, cs[i].data, size);
  }

  // After each of the first i commands, every page holds what was last written
  // to it.
  ghost predicate AlwaysLatest(d: seq<Page>, cs: seq<Command>, i: nat, size: nat)
    requires Proper(d, cs, size) && i <= |cs|
  {
    i == 0 || (AlwaysLatest(d, cs, i - 1, size) && IsLatest(d, cs, i, size))
  }

  // Each of them comes when what was last written leaves room for it.
  ghost predicate AlwaysRoom(d: seq<Page>, cs: seq<Command>, i: nat, size: nat)
    requires Proper(d, cs, size) && i <= |cs|
  {
    i == 0 || (AlwaysRoom(d, cs, i - 1, size) && HasRoomAt(d, cs, i - 1, size))
  }

  lemma {:induction false} AlwaysLatestIsLatest(d: seq<Page>, cs: seq<Command>, i: nat, size: nat)
    requires Proper(d, cs, size) && i <= |cs| && AlwaysLatest(d, cs, i, size)
    ensures IsLatest(d, cs, i, size)
  {
    assert i == 0 ==> After(d, cs, i, size) == d == Latest(d, cs, i);
  }

  lemma {:induction false} AlwaysLatestNext(d: seq<Page>, cs: seq<Command>, i: nat, size: nat)
    requires Proper(d, cs, size) && i < |cs| && AlwaysLatest(d, cs, i, size)
    ensures AlwaysLatest(d, cs, i + 1, size) <==> HasRoomAt(d, cs, i, size)
  {
    AlwaysLatestIsLatest(d, cs, i, size);
    NextIsLatest(d, cs, i, size);
  }

  // Whatever commands come, the device is the map they write exactly when the
  // map itself has room for each.
  lemma {:induction false} DeviceIsMapExactlyWhen(d: seq<Page>, cs: seq<Command>, i: nat, size: nat)
    requires Proper(d, cs, size) && i <= |cs|
    ensures AlwaysLatest(d, cs, i, size) <==> AlwaysRoom(d, cs, i, size)
  {
    if i > 0 {
      DeviceIsMapExactlyWhen(d, cs, i - 1, size);
      if AlwaysLatest(d, cs, i - 1, size) {
        AlwaysLatestNext(d, cs, i - 1, size);
      }
    }
  }

  // --------------------------------------------------- every moment of a write

  // The rewriting of one block by way of another, page skip being the new one.
  datatype Job = Job(before: seq<Page>, block: nat, copy: nat, skip: nat, size: nat)
  {
    ghost predicate Valid() {
      && PAGE_NUM * block + PAGE_NUM <= |before| && PAGE_NUM * copy + PAGE_NUM <= |before|
      && block != copy && skip < PAGE_NUM
    }
  }

  // Each other page of the block is intact there or in the copy, and the rest
  // of the device is as it was.
  ghost predicate Safe(job: Job, d: seq<Page>)
    requires job.Valid()
  {
    && |d| == |job.before|
    && (forall k :: 0 <= k < |d| && !InBlock(k, job.block) && !InBlock(k, job.copy) ==> d[k] == job.before[k])
    && (forall k :: 0 <= k < |d| && InBlock(k, job.block) && k != PAGE_NUM * job.block + job.skip ==>
          d[k] == job.before[k] || d[k - PAGE_NUM * job.block + PAGE_NUM * job.copy] == job.before[k])
  }

  // The page about to be programmed, if any, is erased.
  predicate WritesErased(d: seq<Page>, w: Write)
    requires Fits(d, w)
  {
    match w
    case Copy(_, dst) => Erased(d[dst])
    case Program(ppn, _) => Erased(d[ppn])
    case Erase(_) => true
  }

  // Both of these, before and after every write of ws.
  ghost predicate AlwaysSafe(job: Job, d: seq<Page>, ws: seq<Write>)
    requires job.Valid() && AllFit(d, ws)
    decreases |ws|
  {
    && Safe(job, d)
    && (ws != [] ==> WritesErased(d, ws[0]) && AlwaysSafe(job, Apply(d, ws[0], job.size), ws[1..]))
  }

  lemma {:induction false} AlwaysSafeCons(job: Job, d: seq<Page>, w: Write, ws: seq<Write>, all: seq<Write>)
    requires job.Valid() && Fits(d, w) && AllFit(d, ws) && Safe(job, d) && WritesErased(d, w)
    requires AlwaysSafe(job, Apply(d, w, job.size), ws) && all == [w] + ws
    ensures AllFit(d, all) && AlwaysSafe(job, d, all)
  {
    assert all[1..] == ws;
  }

  lemma {:induction false} AlwaysSafeConcat(job: Job, d: seq<Page>, a: seq<Write>, b: seq<Write>)
    requires job.Valid() && AllFit(d, a) && AllFit(d, b)
    requires AlwaysSafe(job, d, a) && AlwaysSafe(job, Run(d, a, job.size), b)
    ensures AllFit(d, a + b) && AlwaysSafe(job, d, a + b)
    decreases |a|
  {
    if a == [] {
      assert a + b == b;
    } else {
      HeadAndTail(a);
      AlwaysSafeConcat(job, Apply(d, a[0], job.size), a[1..], b);
      Regroup([a[0]], a[1..], b);
      AlwaysSafeCons(job, d, a[0], a[1..] + b, a + b);
    }
  }

  lemma {:induction false} AlwaysSafeAt(job: Job, d: seq<Page>, ws: seq<Write>, n: nat)
    requires job.Valid() && AllFit(d, ws) && AlwaysSafe(job, d, ws) && n <= |ws|
    ensures Safe(job, Run(d, ws[..n], job.size))
    ensures n < |ws| ==> WritesErased(Run(d, ws[..n], job.size), ws[n])
    decreases n
  {
    if n > 0 {
      AlwaysSafeAt(job, Apply(d, ws[0], job.size), ws[1..], n - 1);
      assert ws[..n][1..] == ws[1..][..n - 1];
    }
  }

  ghost predicate AgreeOff(d: seq<Page>, q: seq<Page>, b: nat) {
    |q| == |d| && forall k :: 0 <= k < |d| && !InBlock(k, b) ==> q[k] == d[k]
  }

  // The device is safe whatever block b holds.
  ghost predicate SafeWhatever(job: Job, d: seq<Page>, b: nat)
    requires job.Valid()
  {
    forall q: seq<Page> :: AgreeOff(d, q, b) ==> Safe(job, q)
  }

  lemma {:induction false} StillWhatever(job: Job, d: seq<Page>, b: nat, k: nat, p: Page)
    requires job.Valid() && SafeWhatever(job, d, b) && InBlock(k, b) && k < |d|
    ensures SafeWhatever(job, d[k := p], b) && Safe(job, d)
  {
    assert AgreeOff(d, d, b);
    forall q: seq<Page> | AgreeOff(d[k := p], q, b)
      ensures Safe(job, q)
    {
      forall m | 0 <= m < |d| && !InBlock(m, b)
        ensures q[m] == d[m]
      {
        assert q[m] == d[k := p][m];
      }
      assert AgreeOff(d, q, b);
    }
  }

  // The pages still to be copied into block dst are erased.
  ghost predicate Clear(d: seq<Page>, dst: nat, skip: nat, i: nat) {
    forall k :: 0 <= k < |d| && PAGE_NUM * dst + i <= k < PAGE_NUM * dst + PAGE_NUM && k != PAGE_NUM * dst + skip ==> Erased(d[k])
  }

  lemma {:induction false} ClearNext(d: seq<Page>, dst: nat, skip: nat, i: nat, p: Page)
    requires Clear(d, dst, skip, i) && i < PAGE_NUM && PAGE_NUM * dst + i < |d|
    ensures Clear(d, dst, skip, i + 1) && Clear(d[PAGE_NUM * dst + i := p], dst, skip, i + 1)
    ensures i != skip ==> Erased(d[PAGE_NUM * dst + i])
  {
  }

  lemma {:induction false} NoMovesSafe(job: Job, d: seq<Page>, dst: nat)
    requires job.Valid() && SafeWhatever(job, d, dst)
    ensures AllFit(d, []) && AlwaysSafe(job, d, [])
  {
    assert AgreeOff(d, d, dst);
  }

  lemma {:induction false} MoveSafe(job: Job, d: seq<Page>, src: nat, dst: nat, i: nat)
    requires job.Valid() && PAGE_NUM * src + PAGE_NUM <= |d| && PAGE_NUM * dst + PAGE_NUM <= |d|
    requires i < PAGE_NUM && i != job.skip && SafeWhatever(job, d, dst) && Clear(d, dst, job.skip, i)
    ensures var w := Copy(PAGE_NUM * src + i, PAGE_NUM * dst + i);
      && Fits(d, w) && Safe(job, d) && WritesErased(d, w)
      && SafeWhatever(job, Apply(d, w, job.size), dst) && Clear(Apply(d, w, job.size), dst, job.skip, i + 1)
  {
    ClearNext(d, dst, job.skip, i, d[PAGE_NUM * src + i]);
    StillWhatever(job, d, dst, PAGE_NUM * dst + i, d[PAGE_NUM * src + i]);
  }

  // Copying a page keeps a device safe whatever the block copied into holds, and
  // leaves less of that block to be clear.
  lemma {:induction false} NextIsSafeToo(job: Job, d: seq<Page>, src: nat, dst: nat, i: nat) returns (d1: seq<Page>)
    requires job.Valid() && PAGE_NUM * src + PAGE_NUM <= |d| && PAGE_NUM * dst + PAGE_NUM <= |d|
    requires i < PAGE_NUM && SafeWhatever(job, d, dst) && Clear(d, dst, job.skip, i)
    ensures |d1| == |d| && SafeWhatever(job, d1, dst) && Clear(d1, dst, job.skip, i + 1)
    ensures d1 == if i == job.skip then d else Apply(d, Copy(PAGE_NUM * src + i, PAGE_NUM * dst + i), job.size)
  {
    if i == job.skip {
      ClearNext(d, dst, job.skip, i, d[PAGE_NUM * src + i]);
      d1 := d;
    } else {
      MoveSafe(job, d, src, dst, i);
      d1 := Apply(d, Copy(PAGE_NUM * src + i, PAGE_NUM * dst + i), job.size);
    }
  }

  // Moves from the i-th page on are safe if those from the next on are.
  lemma {:induction false} MoveThenSafe(job: Job, d: seq<Page>, src: nat, dst: nat, i: nat, d1: seq<Page>, rest: seq<Write>, ws: seq<Write>)
    requires job.Valid() && PAGE_NUM * src + PAGE_NUM <= |d| && PAGE_NUM * dst + PAGE_NUM <= |d|
    requires i < PAGE_NUM && SafeWhatever(job, d, dst) && Clear(d, dst, job.skip, i) && AllFit(d, ws)
    requires |d1| == |d| && AllFit(d1, rest) && AlwaysSafe(job, d1, rest)
    requires i == job.skip ==> d1 == d && ws == rest
    requires i != job.skip ==>
      var w := Copy(PAGE_NUM * src + i, PAGE_NUM * dst + i); d1 == Apply(d, w, job.size) && ws == [w] + rest
    ensures AlwaysSafe(job, d, ws)
  {
    if i != job.skip {
      MoveSafe(job, d, src, dst, i);
      AlwaysSafeCons(job, d, Copy(PAGE_NUM * src + i, PAGE_NUM * dst + i), rest, ws);
    }
  }

  // Copying is safe if the device is, whatever the block copied into holds.
  lemma {:induction false} MovesSafe(job: Job, d: seq<Page>, src: nat, dst: nat, i: nat, ws: seq<Write>)
    requires job.Valid() && PAGE_NUM * src + PAGE_NUM <= |d| && PAGE_NUM * dst + PAGE_NUM <= |d| && i <= PAGE_NUM
    requires SafeWhatever(job, d, dst) && Clear(d, dst, job.skip, i) && ws == Moves(src, dst, job.skip, i)
    ensures AllFit(d, ws) && AlwaysSafe(job, d, ws)
    decreases PAGE_NUM - i
  {
    MovesFit(d, src, dst, job.skip, i);
    if i == PAGE_NUM {
      NoMovesSafe(job, d, dst);
    } else {
      var rest := Moves(src, dst, job.skip, i + 1);
      var d1 := NextIsSafeToo(job, d, src, dst, i);
      MovesHead(src, dst, job.skip, i);
      MovesSafe(job, d1, src, dst, i + 1, rest);
      MoveThenSafe(job, d, src, dst, i, d1, rest, ws);
    }
  }

  // As long as the target block is intact, or the copy is complete.
  ghost predicate TargetIntact(job: Job, d: seq<Page>)
    requires job.Valid()
  {
    |d| == |job.before| && forall k :: 0 <= k < |d| && !InBlock(k, job.copy) ==> d[k] == job.before[k]
  }

  ghost predicate CopyComplete(job: Job, d: seq<Page>)
    requires job.Valid()
  {
    && |d| == |job.before|
    && (forall k :: 0 <= k < |d| && !InBlock(k, job.block) && !InBlock(k, job.copy) ==> d[k] == job.before[k])
    && (forall k :: 0 <= k < |d| && InBlock(k, job.block) && k != PAGE_NUM * job.block + job.skip ==>
          d[k - PAGE_NUM * job.block + PAGE_NUM * job.copy] == job.before[k])
  }

  lemma {:induction false} TargetIsEnough(job: Job, d: seq<Page>)
    requires job.Valid() && TargetIntact(job, d)
    ensures SafeWhatever(job, d, job.copy)
  {
    forall q: seq<Page> | AgreeOff(d, q, job.copy)
      ensures Safe(job, q)
    {
      assert forall k :: 0 <= k < |d| && !InBlock(k, job.copy) ==> q[k] == d[k] == job.before[k];
    }
  }

  lemma {:induction false} CopyIsEnough(job: Job, d: seq<Page>)
    requires job.Valid() && CopyComplete(job, d)
    ensures SafeWhatever(job, d, job.block)
  {
    forall q: seq<Page> | AgreeOff(d, q, job.block)
      ensures Safe(job, q)
    {
      assert forall k :: 0 <= k < |d| && !InBlock(k, job.block) ==> q[k] == d[k];
    }
  }

  lemma {:induction false} CopiedIsComplete(job: Job, d: seq<Page>)
    requires job.Valid() && d == job.before
    ensures CopyComplete(job, Moved(d, job.block, job.copy, job.skip, 0))
  {
  }

  // Once the copy is complete, the target block may hold anything.
  lemma {:induction false} CopyStaysComplete(job: Job, d: seq<Page>, d': seq<Page>)
    requires job.Valid() && CopyComplete(job, d) && AgreeOff(d, d', job.block)
    ensures CopyComplete(job, d') && Safe(job, d')
  {
    assert forall k :: 0 <= k < |d| && !InBlock(k, job.block) ==> d'[k] == d[k];
  }

  lemma {:induction false} MiddleSafe(job: Job, d: seq<Page>, data: Page)
    requires job.Valid() && CopyComplete(job, d)
    ensures var ws := [Erase(job.block), Program(PAGE_NUM * job.block + job.skip, data)];
      AllFit(d, ws) && AlwaysSafe(job, d, ws)
  {
    var ppn := PAGE_NUM * job.block + job.skip;
    var d2 := Apply(d, Erase(job.block), job.size);
    CopyStaysComplete(job, d, d);
    CopyStaysComplete(job, d, d2);
    CopyStaysComplete(job, d, d2[ppn := data]);
    AlwaysSafeCons(job, d2, Program(ppn, data), [], [Program(ppn, data)]);
    AlwaysSafeCons(job, d, Erase(job.block), [Program(ppn, data)], [Erase(job.block), Program(ppn, data)]);
    assert [Erase(job.block)] + [Program(ppn, data)] == [Erase(job.block), Program(ppn, data)];
    assert [Program(ppn, data)] + [] == [Program(ppn, data)];
  }

  lemma {:induction false} MiddleClears(job: Job, d: seq<Page>, data: Page)
    requires job.Valid() && CopyComplete(job, d)
    ensures var d' := Apply(d, Erase(job.block), job.size)[PAGE_NUM * job.block + job.skip := data];
      CopyComplete(job, d') && Clear(d', job.block, job.skip, 0)
  {
    CopyStaysComplete(job, d, Apply(d, Erase(job.block), job.size)[PAGE_NUM * job.block + job.skip := data]);
  }

  // Copied back, the target block is whole again, and the copy can go.
  lemma {:induction false} CopiedBackIsSafe(job: Job, d: seq<Page>, d': seq<Page>)
    requires job.Valid() && CopyComplete(job, d) && AgreeOff(Moved(d, job.copy, job.block, job.skip, 0), d', job.copy)
    ensures Safe(job, d')
  {
    var d4 := Moved(d, job.copy, job.block, job.skip, 0);
    assert forall k :: 0 <= k < |d| && !InBlock(k, job.copy) ==> d'[k] == d4[k];
  }

  lemma {:induction false} LastEraseSafe(job: Job, d: seq<Page>)
    requires job.Valid() && CopyComplete(job, d)
    ensures var d4 := Moved(d, job.copy, job.block, job.skip, 0);
      AllFit(d4, [Erase(job.copy)]) && AlwaysSafe(job, d4, [Erase(job.copy)])
  {
    var d4 := Moved(d, job.copy, job.block, job.skip, 0);
    CopiedBackIsSafe(job, d, d4);
    CopiedBackIsSafe(job, d, Apply(d4, Erase(job.copy), job.size));
    AlwaysSafeCons(job, d4, Erase(job.copy), [], [Erase(job.copy)]);
    assert [Erase(job.copy)] + [] == [Erase(job.copy)];
  }

  lemma {:induction false} SafeFour(job: Job, d: seq<Page>, a: seq<Write>, m: seq<Write>, b: seq<Write>, z: seq<Write>,
                 d1: seq<Page>, d3: seq<Page>, d4: seq<Page>)
    requires job.Valid() && AllFit(d, a) && AllFit(d1, m) && AllFit(d3, b) && AllFit(d4, z)
    requires d1 == Run(d, a, job.size) && d3 == Run(d1, m, job.size) && d4 == Run(d3, b, job.size)
    requires AlwaysSafe(job, d, a) && AlwaysSafe(job, d1, m) && AlwaysSafe(job, d3, b) && AlwaysSafe(job, d4, z)
    ensures AllFit(d, a + m + b + z) && AlwaysSafe(job, d, a + m + b + z)
  {
    AlwaysSafeConcat(job, d, a, m);
    RunConcat(d, a, m, job.size);
    AlwaysSafeConcat(job, d, a + m, b);
    RunConcat(d, a + m, b, job.size);
    AlwaysSafeConcat(job, d, a + m + b, z);
  }

  lemma {:induction false} FirstMovesSafe(job: Job)
    requires job.Valid() && ErasedBlock(job.before, job.copy)
    ensures var a := Moves(job.block, job.copy, job.skip, 0);
      && AllFit(job.before, a) && AlwaysSafe(job, job.before, a)
      && CopyComplete(job, Run(job.before, a, job.size))
  {
    TargetIsEnough(job, job.before);
    MovesSafe(job, job.before, job.block, job.copy, 0, Moves(job.block, job.copy, job.skip, 0));
    MovesMove(job.before, job.block, job.copy, job.skip, 0, job.size);
    CopiedIsComplete(job, job.before);
  }

  lemma {:induction false} MiddleKeepsComplete(job: Job, d: seq<Page>, data: Page, m: seq<Write>) returns (d': seq<Page>)
    requires job.Valid() && CopyComplete(job, d)
    requires m == [Erase(job.block), Program(PAGE_NUM * job.block + job.skip, data)]
    ensures AllFit(d, m) && Run(d, m, job.size) == d'
    ensures CopyComplete(job, d') && Clear(d', job.block, job.skip, 0)
  {
    d' := Apply(d, Erase(job.block), job.size)[PAGE_NUM * job.block + job.skip := data];
    MiddleClears(job, d, data);
    MiddleRuns(d, job.block, PAGE_NUM * job.block + job.skip, data, job.size);
  }

  lemma {:induction false} BackMovesSafe(job: Job, d: seq<Page>)
    requires job.Valid() && CopyComplete(job, d) && Clear(d, job.block, job.skip, 0)
    ensures var b := Moves(job.copy, job.block, job.skip, 0);
      && AllFit(d, b) && AlwaysSafe(job, d, b)
      && AllFit(Run(d, b, job.size), [Erase(job.copy)]) && AlwaysSafe(job, Run(d, b, job.size), [Erase(job.copy)])
  {
    CopyIsEnough(job, d);
    MovesSafe(job, d, job.copy, job.block, 0, Moves(job.copy, job.block, job.skip, 0));
    MovesMove(d, job.copy, job.block, job.skip, 0, job.size);
    LastEraseSafe(job, d);
  }

  lemma {:induction false} RewriteSafe(job: Job, data: Page)
    requires job.Valid() && ErasedBlock(job.before, job.copy)
    ensures var ws := Rewrite(job.block, job.skip, job.copy, data);
      AllFit(job.before, ws) && AlwaysSafe(job, job.before, ws)
  {
    var a, b, z := Moves(job.block, job.copy, job.skip, 0), Moves(job.copy, job.block, job.skip, 0), [Erase(job.copy)];
    var m := [Erase(job.block), Program(PAGE_NUM * job.block + job.skip, data)];
    assert Rewrite(job.block, job.skip, job.copy, data) == a + m + b + z;
    FirstMovesSafe(job);
    var d1 := Run(job.before, a, job.size);
    MiddleSafe(job, d1, data);
    var d3 := MiddleKeepsComplete(job, d1, data, m);
    BackMovesSafe(job, d3);
    SafeFour(job, job.before, a, m, b, z, d1, d3, Run(d3, b, job.size));
  }

  function JobFor(d: seq<Page>, ppn: nat, size: nat): Job
    requires |d| % PAGE_NUM == 0 && ppn < |d|
  {
    Job(d, ppn / PAGE_NUM, FindErased(d, 0), ppn % PAGE_NUM, size)
  }

  // After any number of the writes that overwrite a page, every other page of
  // the block can be found in it or in the copy, the rest of the device has
  // not changed, and the next page to be programmed is erased.
  lemma {:induction false} OverwriteIsSafeThroughout(d: seq<Page>, ppn: nat, data: Page, size: nat, n: nat)
    requires Device(d, size) && ppn < |d| && !Erased(d[ppn]) && HasErasedBlock(d)
    requires n <= |Overwrite(d, ppn, data)|
    ensures var job := JobFor(d, ppn, size);
      var ws := Overwrite(d, ppn, data);
      && job.Valid() && AllFit(d, ws)
      && Safe(job, Run(d, ws[..n], size))
      && (n < |ws| ==> WritesErased(Run(d, ws[..n], size), ws[n]))
  {
    CopyBlockIsErased(d, ppn);
    BlockFits(|d|, ppn);
    var job := JobFor(d, ppn, size);
    RewriteSafe(job, data);
    AlwaysSafeAt(job, d, Rewrite(job.block, job.skip, job.copy, data), n);
  }

  // ------------------------------------------------------- what a page says

  // A page with a text in its sector and one in its spare area, padded.
  function Pad(t: seq<Byte>, n: nat): (p: seq<Byte>)
    requires |t| <= n
    ensures |p| == n
  {
    t + Blank(n - |t|)
  }

  function MakePage(sector: seq<Byte>, spare: seq<Byte>, sectorSize: nat, spareSize: nat): (p: Page)
    requires |sector| <= sectorSize && |spare| <= spareSize
    ensures |p| == sectorSize + spareSize
  {
    Pad(sector, sectorSize) + Pad(spare, spareSize)
  }

  // The bytes of s other than 0xFF, in order.
  function Shown(s: seq<Byte>): seq<Byte>
    decreases |s|
  {
    if s == [] then [] else Shown(s[..|s| - 1]) + (if s[|s| - 1] != FF then [s[|s| - 1]] else [])
  }

  datatype Text = NoText | Text(sector: seq<Byte>, spare: seq<Byte>)

  // What the read command prints: the two texts, or nothing for an erased page.
  function ReadText(p: Page, sectorSize: nat): Text
    requires sectorSize <= |p|
  {
    if Erased(p) then NoText else Text(Shown(p[..sectorSize]), Shown(p[sectorSize..]))
  }

  predicate NoFF(t: seq<Byte>) { forall i :: 0 <= i < |t| ==> t[i] != FF }

  lemma {:induction false} ShownIsNoFF(s: seq<Byte>)
    ensures NoFF(Shown(s)) && (NoFF(s) ==> Shown(s) == s)
    decreases |s|
  {
    if s != [] {
      ShownIsNoFF(s[..|s| - 1]);
      assert s == s[..|s| - 1] + [s[|s| - 1]];
    }
  }

  lemma {:induction false} ShownPad(t: seq<Byte>, n: nat)
    requires |t| <= n
    ensures Shown(Pad(t, n)) == Shown(t)
    decreases n
  {
    var p := Pad(t, n);
    if n > |t| {
      assert p[..n - 1] == Pad(t, n - 1);
      ShownPad(t, n - 1);
    } else {
      assert p == t;
    }
  }

  lemma {:induction false} TextIsNotErased(sector: seq<Byte>, spare: seq<Byte>, sectorSize: nat, spareSize: nat)
    requires |sector| <= sectorSize && |spare| <= spareSize
    requires NoFF(sector) && NoFF(spare) && (sector != [] || spare != [])
    ensures !Erased(MakePage(sector, spare, sectorSize, spareSize))
  {
    var p := MakePage(sector, spare, sectorSize, spareSize);
    if sector != [] {
      assert p[0] == sector[0];
    } else {
      assert p[sectorSize] == spare[0];
    }
  }

  lemma {:induction false} ShownParts(sector: seq<Byte>, spare: seq<Byte>, sectorSize: nat, spareSize: nat)
    requires |sector| <= sectorSize && |spare| <= spareSize
    ensures var p := MakePage(sector, spare, sectorSize, spareSize);
      Shown(p[..sectorSize]) == Shown(sector) && Shown(p[sectorSize..]) == Shown(spare)
  {
    var p := MakePage(sector, spare, sectorSize, spareSize);
    assert p[..sectorSize] == Pad(sector, sectorSize) && p[sectorSize..] == Pad(spare, spareSize);
    ShownPad(sector, sectorSize);
    ShownPad(spare, spareSize);
  }

  // Texts without a 0xFF byte, and not both empty.
  predicate Legible(sector: seq<Byte>, spare: seq<Byte>) {
    NoFF(sector) && NoFF(spare) && (sector != [] || spare != [])
  }

  // Reading a page just made prints both texts exactly when they hold no 0xFF
  // byte and are not both empty.
  lemma {:induction false} ReadUndoesMakeExactlyWhen(sector: seq<Byte>, spare: seq<Byte>, sectorSize: nat, spareSize: nat)
    requires |sector| <= sectorSize && |spare| <= spareSize
    ensures ReadText(MakePage(sector, spare, sectorSize, spareSize), sectorSize) == Text(sector, spare)
       <==> Legible(sector, spare)
  {
    ShownParts(sector, spare, sectorSize, spareSize);
    ShownIsNoFF(sector);
    ShownIsNoFF(spare);
    if sector == [] && spare == [] {
      assert Erased(MakePage(sector, spare, sectorSize, spareSize));
    } else if NoFF(sector) && NoFF(spare) {
      TextIsNotErased(sector, spare, sectorSize, spareSize);
    }
  }

  // What a write leaves for a read to show.
  ghost predicate ShowsLatest(d: seq<Page>, d': seq<Page>, ppn: nat, t: Text, sectorSize: nat) {
    |d'| == |d| && forall k :: 0 <= k < |d| ==>
      && sectorSize <= |d[k]| && sectorSize <= |d'[k]|
      && ReadText(d'[k], sectorSize) == if k == ppn then t else ReadText(d[k], sectorSize)
  }

  lemma {:induction false} UpdateShows(d: seq<Page>, ppn: nat, page: Page, sectorSize: nat, size: nat)
    requires Device(d, size) && ppn < |d| && |page| == size && sectorSize <= size
    ensures ShowsLatest(d, d[ppn := page], ppn, ReadText(page, sectorSize), sectorSize)
  {
  }

  // Where a block is lost, some page that should show a text shows none.
  lemma {:induction false} LostPage(d: seq<Page>, ppn: nat, page: Page, size: nat) returns (k: nat)
    requires Device(d, size) && |page| == size && ppn < |d| && !Erased(d[ppn]) && !HasErasedBlock(d)
    ensures AllFit(d, Overwrite(d, ppn, page)) && k < |d|
    ensures Erased(Run(d, Overwrite(d, ppn, page), size)[k]) && (k == ppn || !Erased(d[k]))
  {
    OverwriteRuns(d, ppn, page, size);
    FindErasedNone(d, 0);
    BlockFits(|d|, ppn);
    if ppn < PAGE_NUM {
      k := ppn;
      FinalBySelf(d, ppn, page, 0, size, k);
    } else {
      assert !ErasedBlock(d, 0);
      k :| 0 <= k < PAGE_NUM && !Erased(d[k]);
      FinalByOther(d, ppn, page, 0, size, k);
    }
  }

  lemma {:induction false} LostIsNotShown(d: seq<Page>, ppn: nat, page: Page, sector: seq<Byte>, spare: seq<Byte>, sectorSize: nat, size: nat)
    requires Device(d, size) && |page| == size && ppn < |d| && !Erased(d[ppn]) && !HasErasedBlock(d)
    ensures AllFit(d, Overwrite(d, ppn, page))
    ensures !ShowsLatest(d, Run(d, Overwrite(d, ppn, page), size), ppn, Text(sector, spare), sectorSize)
  {
    var k := LostPage(d, ppn, page, size);
    assert Erased(Run(d, Overwrite(d, ppn, page), size)[k]);
  }

  lemma {:induction false} ShownIsTheText(d: seq<Page>, ppn: nat, page: Page, t: Text, sectorSize: nat)
    requires ppn < |d| && sectorSize <= |page| && ShowsLatest(d, d[ppn := page], ppn, t, sectorSize)
    ensures ReadText(page, sectorSize) == t
  {
    assert d[ppn := page][ppn] == page;
  }

  lemma {:induction false} UpdateShowsExactlyWhen(d: seq<Page>, ppn: nat, page: Page, t: Text, sectorSize: nat, size: nat)
    requires Device(d, size) && ppn < |d| && |page| == size && sectorSize <= size
    ensures ShowsLatest(d, d[ppn := page], ppn, t, sectorSize) <==> ReadText(page, sectorSize) == t
  {
    UpdateShows(d, ppn, page, sectorSize, size);
    if ShowsLatest(d, d[ppn := page], ppn, t, sectorSize) {
      ShownIsTheText(d, ppn, page, t, sectorSize);
    }
  }

  // The page or some block is erased.
  ghost predicate Roomy(d: seq<Page>, ppn: nat)
    requires ppn < |d|
  {
    Erased(d[ppn]) || HasErasedBlock(d)
  }

  lemma {:induction false} ShowsExactlyWhenRoomy(d: seq<Page>, ppn: nat, page: Page, sector: seq<Byte>, spare: seq<Byte>, sectorSize: nat, size: nat)
    requires Device(d, size) && ppn < |d| && |page| == size && sectorSize <= size
    ensures WriteShows(d, ppn, page, Text(sector, spare), sectorSize, size)
       <==> Roomy(d, ppn) && ReadText(page, sectorSize) == Text(sector, spare)
  {
    if Roomy(d, ppn) {
      WriteIsOneUpdateExactlyWhen(d, ppn, page, size);
      UpdateShowsExactlyWhen(d, ppn, page, Text(sector, spare), sectorSize, size);
    } else {
      LostIsNotShown(d, ppn, page, sector, spare, sectorSize, size);
    }
  }

  // What a write of a page leaves shows the page's texts, and elsewhere what it
  // showed.
  ghost predicate WriteShows(d: seq<Page>, ppn: nat, page: Page, t: Text, sectorSize: nat, size: nat)
    requires Device(d, size) && ppn < |d|
  {
    AllFit(d, Overwrite(d, ppn, page)) && ShowsLatest(d, Run(d, Overwrite(d, ppn, page), size), ppn, t, sectorSize)
  }

  // A page written and read again shows its texts, and every other page of the
  // device shows what it showed before, exactly when the page or some block was
  // erased and the texts hold no 0xFF byte and are not both empty.
  lemma {:induction false} WriteThenReadExactlyWhen(d: seq<Page>, ppn: nat, sector: seq<Byte>, spare: seq<Byte>,
                                                    sectorSize: nat, spareSize: nat, page: Page)
    requires Device(d, sectorSize + spareSize) && ppn < |d|
    requires |sector| <= sectorSize && |spare| <= spareSize && page == MakePage(sector, spare, sectorSize, spareSize)
    ensures WriteShows(d, ppn, page, Text(sector, spare), sectorSize, sectorSize + spareSize)
       <==> Roomy(d, ppn) && Legible(sector, spare)
  {
    MadePageReads(page, sector, spare, sectorSize, spareSize);
    ShowsExactlyWhenRoomy(d, ppn, page, sector, spare, sectorSize, sectorSize + spareSize);
  }

  lemma {:induction false} MadePageReads(page: Page, sector: seq<Byte>, spare: seq<Byte>, sectorSize: nat, spareSize: nat)
    requires |sector| <= sectorSize && |spare| <= spareSize && page == MakePage(sector, spare, sectorSize, spareSize)
    ensures sectorSize <= |page|
    ensures ReadText(page, sectorSize) == Text(sector, spare) <==> Legible(sector, spare)
  {
    ReadUndoesMakeExactlyWhen(sector, spare, sectorSize, spareSize);
  }

  // ------------------------------------------------------------ byte by byte

  // The bytes of a page just made: a text from the start of either area, and
  // 0xFF behind it.
  lemma {:induction false} MadePageBytes(sector: seq<Byte>, spare: seq<Byte>, sectorSize: nat, spareSize: nat, i: nat)
    requires |sector| <= sectorSize && |spare| <= spareSize && i < sectorSize + spareSize
    ensures MakePage(sector, spare, sectorSize, spareSize)[i] ==
      if i < |sector| then sector[i]
      else if sectorSize <= i < sectorSize + |spare| then spare[i - sectorSize]
      else 255
  {
  }

  // What is shown: wherever a byte stands, it is left out if it is 0xFF and
  // otherwise comes between what is shown of either side.
  lemma {:induction false} ShownLeavesOutExactlyFF(a: seq<Byte>, c: Byte, b: seq<Byte>)
    ensures Shown([]) == []
    ensures Shown(a + [c] + b) == Shown(a) + (if c == 255 then [] else [c]) + Shown(b)
    decreases |b|
  {
    if b == [] {
      assert (a + [c])[..|a|] == a;
      assert a + [c] + b == a + [c];
    } else {
      var n := |b| - 1;
      ShownLeavesOutExactlyFF(a, c, b[..n]);
      assert (a + [c] + b)[..|a| + 1 + n] == a + [c] + b[..n];
    }
  }

  // Erasing a block makes every byte of its four pages 0xFF, and no other.
  lemma {:induction false} EraseFillsFourPages(d: seq<Page>, b: nat, size: nat, k: nat)
    requires Device(d, size) && 4 * b + 4 <= |d| && k < |d|
    ensures Fits(d, Erase(b)) && |Apply(d, Erase(b), size)[k]| == size
    ensures forall i :: 0 <= i < size ==>
      Apply(d, Erase(b), size)[k][i] == if 4 * b <= k < 4 * b + 4 then 255 else d[k][i]
  {
  }

  // A page reads as nothing exactly when all its bytes are 0xFF.
  lemma {:induction false} ReadsNothingExactlyWhenAllFF(p: Page, sectorSize: nat)
    requires sectorSize <= |p|
    ensures ReadText(p, sectorSize) == NoText <==> forall i :: 0 <= i < |p| ==> p[i] == 255
  {
  }

  // ----------------------------------------------------------------- the program

  // The writes ws took the pages from d to d' and the log from l to l'.
  ghost predicate Did(d: seq<Page>, l: seq<Write>, d': seq<Page>, l': seq<Write>, ws: seq<Write>, size: nat) {
    AllFit(d, ws) && d' == Run(d, ws, size) && l' == l + ws
  }

  // Of the writes ws, which start from d and l, the writes rest are to come.
  ghost predicate StillToDo(d: seq<Page>, l: seq<Write>, d': seq<Page>, l': seq<Write>, ws: seq<Write>, rest: seq<Write>, size: nat) {
    && AllFit(d, ws) && AllFit(d', rest)
    && Run(d', rest, size) == Run(d, ws, size) && l' + rest == l + ws
  }

  lemma {:induction false} StillToDoNext(d: seq<Page>, l: seq<Write>, d': seq<Page>, l': seq<Write>, ws: seq<Write>,
                                         w: Write, rest: seq<Write>, all: seq<Write>, size: nat)
    requires StillToDo(d, l, d', l', ws, all, size) && all == [w] + rest
    ensures Fits(d', w) && StillToDo(d, l, Apply(d', w, size), l' + [w], ws, rest, size)
  {
    assert all[0] == w && all[1..] == rest;
    assert forall i :: 0 <= i < |rest| ==> Fits(d', rest[i]) by {
      assert forall i :: 0 <= i < |rest| ==> rest[i] == all[i + 1];
    }
    Regroup(l', [w], rest);
  }

  lemma {:induction false} MovesHead(src: nat, dst: nat, skip: nat, i: nat)
    requires i < PAGE_NUM
    ensures i == skip ==> Moves(src, dst, skip, i) == Moves(src, dst, skip, i + 1)
    ensures i != skip ==>
      Moves(src, dst, skip, i) == [Copy(PAGE_NUM * src + i, PAGE_NUM * dst + i)] + Moves(src, dst, skip, i + 1)
  {
  }

  lemma {:induction false} DidThen(d: seq<Page>, l: seq<Write>, d1: seq<Page>, l1: seq<Write>, d2: seq<Page>, l2: seq<Write>,
                a: seq<Write>, b: seq<Write>, size: nat)
    requires Did(d, l, d1, l1, a, size) && Did(d1, l1, d2, l2, b, size)
    ensures Did(d, l, d2, l2, a + b, size)
  {
    RunConcat(d, a, b, size);
    Regroup(l, a, b);
  }

  lemma {:induction false} DidOne(d: seq<Page>, l: seq<Write>, w: Write, size: nat)
    requires Fits(d, w)
    ensures Did(d, l, Apply(d, w, size), l + [w], [w], size)
  {
    assert [w][1..] == [];
  }

  lemma {:induction false} RewriteDid(d: seq<Page>, l: seq<Write>, d1: seq<Page>, l1: seq<Write>, d2: seq<Page>, l2: seq<Write>,
                                      block: nat, skip: nat, c: nat, data: Page, size: nat)
    requires Did(d, l, d1, l1, Moves(block, c, skip, 0) + [Erase(block), Program(PAGE_NUM * block + skip, data)], size)
    requires Did(d1, l1, d2, l2, Moves(c, block, skip, 0) + [Erase(c)], size)
    ensures Did(d, l, d2, l2, Rewrite(block, skip, c, data), size)
  {
    var out := Moves(block, c, skip, 0) + [Erase(block), Program(PAGE_NUM * block + skip, data)];
    DidThen(d, l, d1, l1, d2, l2, out, Moves(c, block, skip, 0) + [Erase(c)], size);
    Regroup(out, Moves(c, block, skip, 0), [Erase(c)]);
  }

  class FlashFile {
    var pages: seq<Page>
    const sectorSize: nat
    const spareSize: nat
    ghost var log: seq<Write>

    ghost function Size(): nat { sectorSize + spareSize }

    ghost predicate Valid()
      reads this
    {
      Device(pages, Size())
    }

    // The create command: blocks of 0xFF bytes.
    constructor (blocknum: nat, sectorSize: nat, spareSize: nat)
      ensures Valid() && this.sectorSize == sectorSize && this.spareSize == spareSize && log == []
      ensures |pages| == PAGE_NUM * blocknum && forall k :: 0 <= k < |pages| ==> Erased(pages[k])
    {
      this.sectorSize, this.spareSize := sectorSize, spareSize;
      pages := seq(PAGE_NUM * blocknum, _ => Blank(sectorSize + spareSize));
      log := [];
    }

    method CopyPage(src: nat, dst: nat)
      requires Valid() && src < |pages| && dst < |pages|
      modifies this
      ensures Valid() && pages == Apply(old(pages), Copy(src, dst), Size()) && log == old(log) + [Copy(src, dst)]
    {
      pages := pages[dst := pages[src]];
      log := log + [Copy(src, dst)];
    }

    // dd_write.
    method ProgramPage(ppn: nat, data: Page)
      requires Valid() && ppn < |pages| && |data| == Size()
      modifies this
      ensures Valid() && pages == Apply(old(pages), Program(ppn, data), Size()) && log == old(log) + [Program(ppn, data)]
    {
      pages := pages[ppn := data];
      log := log + [Program(ppn, data)];
    }

    // The erase command, dd_erase, and the erasing of a block by writing 0xFF.
    method EraseBlock(b: nat)
      requires Valid() && PAGE_NUM * b + PAGE_NUM <= |pages|
      modifies this
      ensures Valid() && pages == Apply(old(pages), Erase(b), Size()) && log == old(log) + [Erase(b)]
    {
      var i := 0;
      while i < PAGE_NUM
        invariant 0 <= i <= PAGE_NUM && |pages| == |old(pages)| && log == old(log)
        invariant forall k :: 0 <= k < |pages| ==>
          pages[k] == if PAGE_NUM * b <= k < PAGE_NUM * b + i then Blank(Size()) else old(pages)[k]
      {
        pages := pages[PAGE_NUM * b + i := Blank(sectorSize + spareSize)];
        i := i + 1;
      }
      log := log + [Erase(b)];
    }

    method IsErased(k: nat) returns (e: bool)
      requires k < |pages|
      ensures e == Erased(pages[k])
    {
      var count := 0;
      var i := 0;
      while i < |pages[k]|
        invariant 0 <= count <= i <= |pages[k]|
        invariant count == i <==> forall j :: 0 <= j < i ==> pages[k][j] == FF
      {
        if pages[k][i] == FF {
          count := count + 1;
        }
        i := i + 1;
      }
      e := count == |pages[k]|;
    }

    method FindCopyBlock() returns (copyblock: nat)
      requires |pages| % PAGE_NUM == 0
      ensures copyblock == FindErased(pages, 0)
    {
      var b := 0;
      while PAGE_NUM * b + PAGE_NUM <= |pages|
        invariant FindErased(pages, 0) == FindErased(pages, b)
        decreases |pages| - PAGE_NUM * b
      {
        var e0 := IsErased(PAGE_NUM * b);
        var e1 := IsErased(PAGE_NUM * b + 1);
        var e2 := IsErased(PAGE_NUM * b + 2);
        var e3 := IsErased(PAGE_NUM * b + 3);
        if e0 && e1 && e2 && e3 {
          return b;
        }
        b := b + 1;
      }
      copyblock := 0;
    }

    // One turn of the loop below, which moves block src of the pages d0.
    method MoveOne(src: nat, dst: nat, skip: nat, i: nat, ghost d0: seq<Page>, ghost l0: seq<Write>,
                   ghost all: seq<Write>, ghost now: seq<Write>, ghost rest: seq<Write>)
      requires Valid() && PAGE_NUM * src + PAGE_NUM <= |pages| && PAGE_NUM * dst + PAGE_NUM <= |pages| && i < PAGE_NUM
      requires now == Moves(src, dst, skip, i) && rest == Moves(src, dst, skip, i + 1)
      requires StillToDo(d0, l0, pages, log, all, now, Size())
      modifies this
      ensures Valid() && |pages| == |old(pages)|
      ensures StillToDo(d0, l0, pages, log, all, rest, Size())
    {
      MovesHead(src, dst, skip, i);
      if i != skip {
        StillToDoNext(d0, l0, pages, log, all, Copy(PAGE_NUM * src + i, PAGE_NUM * dst + i), rest, now, Size());
        CopyPage(PAGE_NUM * src + i, PAGE_NUM * dst + i);
      }
    }

    // The loop that copies the pages of one block, except one, to another.
    method MovePages(src: nat, dst: nat, skip: nat)
      requires Valid() && PAGE_NUM * src + PAGE_NUM <= |pages| && PAGE_NUM * dst + PAGE_NUM <= |pages|
      modifies this
      ensures Valid()
      ensures Did(old(pages), old(log), pages, log, Moves(src, dst, skip, 0), Size())
    {
      ghost var d0, l0, all := pages, log, Moves(src, dst, skip, 0);
      var i := 0;
      MovesFit(pages, src, dst, skip, 0);
      while i < PAGE_NUM
        invariant Valid() && 0 <= i <= PAGE_NUM && |pages| == |d0|
        invariant StillToDo(d0, l0, pages, log, all, Moves(src, dst, skip, i), Size())
      {
        MoveOne(src, dst, skip, i, d0, l0, all, Moves(src, dst, skip, i), Moves(src, dst, skip, i + 1));
        i := i + 1;
      }
      assert log + [] == log;
    }

    // The write command: the pages end as the list of single writes says, and
    // those writes were made in that order.
    method WritePage(ppn: nat, sector: seq<Byte>, spare: seq<Byte>)
      requires Valid() && ppn < |pages| && |sector| <= sectorSize && |spare| <= spareSize
      modifies this
      ensures Valid()
      ensures Did(old(pages), old(log), pages, log,
                  Overwrite(old(pages), ppn, MakePage(sector, spare, sectorSize, spareSize)), Size())
    {
      var w := IsErased(ppn);
      var pagebuf := MakePage(sector, spare, sectorSize, spareSize);
      if w {
        DidOne(pages, log, Program(ppn, pagebuf), Size());
        ProgramPage(ppn, pagebuf);
      } else {
        var blocknum, copypage := ppn / PAGE_NUM, ppn % PAGE_NUM;
        BlockFits(|pages|, ppn);
        RewritePage(blocknum, copypage, pagebuf);
      }
    }

    method ReplaceBlock(blocknum: nat, ppn: nat, pagebuf: Page)
      requires Valid() && PAGE_NUM * blocknum + PAGE_NUM <= |pages| && ppn < |pages| && |pagebuf| == Size()
      modifies this
      ensures Valid()
      ensures Did(old(pages), old(log), pages, log, [Erase(blocknum), Program(ppn, pagebuf)], Size())
    {
      EraseBlock(blocknum);
      ProgramPage(ppn, pagebuf);
      MiddleRuns(old(pages), blocknum, ppn, pagebuf, Size());
      assert log == old(log) + [Erase(blocknum), Program(ppn, pagebuf)];
    }

    // Copy the other pages out, and replace the block.
    method MoveOut(blocknum: nat, copyblock: nat, copypage: nat, ppn: nat, pagebuf: Page)
      requires Valid() && PAGE_NUM * blocknum + PAGE_NUM <= |pages| && PAGE_NUM * copyblock + PAGE_NUM <= |pages|
      requires ppn < |pages| && |pagebuf| == Size()
      modifies this
      ensures Valid()
      ensures Did(old(pages), old(log), pages, log,
                  Moves(blocknum, copyblock, copypage, 0) + [Erase(blocknum), Program(ppn, pagebuf)], Size())
    {
      MovePages(blocknum, copyblock, copypage);
      ghost var d1, l1 := pages, log;
      ReplaceBlock(blocknum, ppn, pagebuf);
      DidThen(old(pages), old(log), d1, l1, pages, log, Moves(blocknum, copyblock, copypage, 0),
              [Erase(blocknum), Program(ppn, pagebuf)], Size());
    }

    // Copy them back, and erase the block copied to.
    method MoveBack(copyblock: nat, blocknum: nat, copypage: nat)
      requires Valid() && PAGE_NUM * blocknum + PAGE_NUM <= |pages| && PAGE_NUM * copyblock + PAGE_NUM <= |pages|
      modifies this
      ensures Valid()
      ensures Did(old(pages), old(log), pages, log, Moves(copyblock, blocknum, copypage, 0) + [Erase(copyblock)], Size())
    {
      MovePages(copyblock, blocknum, copypage);
      ghost var d1, l1 := pages, log;
      DidOne(pages, log, Erase(copyblock), Size());
      EraseBlock(copyblock);
      DidThen(old(pages), old(log), d1, l1, pages, log, Moves(copyblock, blocknum, copypage, 0), [Erase(copyblock)], Size());
    }

    method RewritePage(blocknum: nat, copypage: nat, pagebuf: Page)
      requires Valid() && PAGE_NUM * blocknum + PAGE_NUM <= |pages| && copypage < PAGE_NUM && |pagebuf| == Size()
      modifies this
      ensures Valid()
      ensures Did(old(pages), old(log), pages, log,
                  Rewrite(blocknum, copypage, FindErased(old(pages), 0), pagebuf), Size())
    {
      ghost var d0, l0 := pages, log;
      var ppn := PAGE_NUM * blocknum + copypage;
      var copyblock := FindCopyBlock();
      FindErasedFinds(pages, 0);
      MoveOut(blocknum, copyblock, copypage, ppn, pagebuf);
      ghost var d1, l1 := pages, log;
      MoveBack(copyblock, blocknum, copypage);
      RewriteDid(d0, l0, d1, l1, pages, log, blocknum, copypage, copyblock, pagebuf, Size());
    }

    // The read command, as what it prints.
    method ReadPage(ppn: nat) returns (t: Text)
      requires Valid() && ppn < |pages|
      ensures t == ReadText(pages[ppn], sectorSize)
    {
      var e := IsErased(ppn);
      if e {
        return NoText;
      }
      var s := Filter(pages[ppn][..sectorSize]);
      var sp := Filter(pages[ppn][sectorSize..]);
      t := Text(s, sp);
    }

    method Filter(buf: seq<Byte>) returns (t: seq<Byte>)
      ensures t == Shown(buf)
    {
      t := [];
      var i := 0;
      while i < |buf|
        invariant 0 <= i <= |buf| && t == Shown(buf[..i])
      {
        assert buf[..i + 1][..i] == buf[..i];
        if buf[i] != FF {
          t := t + [buf[i]];
        }
        i := i + 1;
      }
      assert buf[..i] == buf;
    }
  }
}
