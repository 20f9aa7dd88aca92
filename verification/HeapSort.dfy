// The heap sort of a record file in Project12/heapsort.c: the sift, building
// the heap, and writing the records out in order, page by page.
//
// heaparray is an array indexed from 1, as in the source. A record that has
// been taken out of the heap is overwritten with 0xff bytes: Blank.
module HeapSort {

  newtype byte = x: int | 0 <= x < 256

  // A record as the sort sees it: the field before the first '#', and the rest.
  datatype Slot = Record(key: seq<byte>, rest: seq<byte>) | Blank

  datatype Page = Page(first: Slot, second: Slot)

  // ------------------------------------------------------------- the ordering

  function StrCmp(a: seq<byte>, b: seq<byte>): int {
    if a == [] then (if b == [] then 0 else -1)
    else if b == [] then 1
    else if a[0] != b[0] then a[0] as int - b[0] as int
    else StrCmp(a[1..], b[1..])
  }

  // strcmp on the keys is positive; a run of 0xff compares above any text.
  predicate Greater(x: Slot, y: Slot) {
    match (x, y)
    case (Record(a, _), Record(b, _)) => StrCmp(a, b) > 0
    case (Blank, Record(_, _)) => true
    case _ => false
  }

  predicate Le(x: Slot, y: Slot) { !Greater(x, y) }

  lemma {:induction false} StrCmpFlips(a: seq<byte>, b: seq<byte>)
    ensures StrCmp(a, b) > 0 <==> StrCmp(b, a) < 0
    ensures StrCmp(a, b) == 0 <==> StrCmp(b, a) == 0
  {
    if a != [] && b != [] && a[0] == b[0] {
      StrCmpFlips(a[1..], b[1..]);
    }
  }

  lemma {:induction false} StrCmpTransitive(a: seq<byte>, b: seq<byte>, c: seq<byte>)
    requires StrCmp(a, b) <= 0 && StrCmp(b, c) <= 0
    ensures StrCmp(a, c) <= 0
  {
    if a != [] && b != [] && c != [] && a[0] == b[0] == c[0] {
      StrCmpTransitive(a[1..], b[1..], c[1..]);
    }
  }

  lemma {:induction false} LeTransitive(x: Slot, y: Slot, z: Slot)
    requires Le(x, y) && Le(y, z)
    ensures Le(x, z)
  {
    if x.Record? && y.Record? && z.Record? {
      StrCmpTransitive(x.key, y.key, z.key);
    }
  }

  lemma {:induction false} GreaterIsAbove(x: Slot, y: Slot)
    requires Greater(x, y)
    ensures Le(y, x)
  {
    if x.Record? && y.Record? {
      StrCmpFlips(x.key, y.key);
    }
  }

  lemma {:induction false} LeReflexive(x: Slot)
    ensures Le(x, x)
  {
    if x.Record? {
      StrCmpFlips(x.key, x.key);
    }
  }

  // ------------------------------------------------------- what the order is

  // In the order of bytes, text a comes after text b: b is only the start of a,
  // or a has the larger byte where they first differ.
  ghost predicate ComesAfter(a: seq<byte>, b: seq<byte>) {
    b < a || exists k :: FirstDifference(a, b, k) && a[k] > b[k]
  }

  ghost predicate FirstDifference(a: seq<byte>, b: seq<byte>, k: int) {
    0 <= k < |a| && k < |b| && a[..k] == b[..k] && a[k] != b[k]
  }

  lemma {:induction false} FirstDifferenceShifts(a: seq<byte>, b: seq<byte>, k: int)
    requires a != [] && b != [] && a[0] == b[0]
    ensures FirstDifference(a[1..], b[1..], k) <==> 0 <= k && FirstDifference(a, b, k + 1)
  {
    if 0 <= k && k + 1 < |a| && k + 1 < |b| {
      assert a[..k + 1] == [a[0]] + a[1..][..k] && b[..k + 1] == [b[0]] + b[1..][..k];
      assert a[..k + 1][1..] == a[1..][..k] && b[..k + 1][1..] == b[1..][..k];
    }
  }

  lemma {:induction false} ComesAfterShifts(a: seq<byte>, b: seq<byte>)
    requires a != [] && b != [] && a[0] == b[0]
    ensures ComesAfter(a[1..], b[1..]) <==> ComesAfter(a, b)
  {
    assert b[1..] < a[1..] <==> b < a by {
      assert a == [a[0]] + a[1..] && b == [b[0]] + b[1..];
    }
    if k :| FirstDifference(a[1..], b[1..], k) && a[1..][k] > b[1..][k] {
      FirstDifferenceShifts(a, b, k);
      assert a[k + 1] > b[k + 1];
    }
    if k :| FirstDifference(a, b, k) && a[k] > b[k] {
      FirstDifferenceShifts(a, b, k - 1);
      assert a[1..][k - 1] > b[1..][k - 1];
    }
  }

  lemma {:induction false} FirstBytesDecide(a: seq<byte>, b: seq<byte>)
    requires a != [] && b != [] && a[0] != b[0]
    ensures ComesAfter(a, b) <==> a[0] > b[0]
  {
    assert FirstDifference(a, b, 0);
    forall k | FirstDifference(a, b, k)
      ensures k == 0
    {
      SameStart(a, b, k);
    }
  }

  lemma {:induction false} SameStart(a: seq<byte>, b: seq<byte>, k: nat)
    requires FirstDifference(a, b, k)
    ensures k == 0 || a[0] == b[0]
  {
    if k > 0 {
      assert a[0] == a[..k][0] && b[0] == b[..k][0];
    }
  }

  // The comparison of the sort is that order.
  lemma {:induction false} StrCmpIsByteOrder(a: seq<byte>, b: seq<byte>)
    ensures StrCmp(a, b) > 0 <==> ComesAfter(a, b)
  {
    if a != [] && b != [] {
      if a[0] == b[0] {
        StrCmpIsByteOrder(a[1..], b[1..]);
        ComesAfterShifts(a, b);
      } else {
        FirstBytesDecide(a, b);
      }
    }
  }

  // No record stands before one whose key it comes after, and the sentinels are
  // last.
  ghost predicate InOrder(out: seq<Slot>) {
    forall i, j :: 0 <= i < j < |out| ==>
      && (out[i].Record? && out[j].Record? ==> !ComesAfter(out[i].key, out[j].key))
      && (out[i].Blank? ==> out[j].Blank?)
  }

  lemma {:induction false} AscendingIsInOrder(out: seq<Slot>)
    ensures Ascending(out) <==> InOrder(out)
  {
    forall i, j | 0 <= i < j < |out|
      ensures Le(out[i], out[j]) <==>
        (out[i].Record? && out[j].Record? ==> !ComesAfter(out[i].key, out[j].key)) && (out[i].Blank? ==> out[j].Blank?)
    {
      if out[i].Record? && out[j].Record? {
        StrCmpIsByteOrder(out[i].key, out[j].key);
      }
    }
  }

  // ------------------------------------------------------------- the subtrees

  // Slot k is in the subtree rooted at r.
  ghost predicate InSub(r: nat, k: nat) {
    k == r || (k > r && InSub(r, k / 2))
  }

  lemma {:induction false} SubSplits(r: nat, k: nat)
    requires r >= 1
    ensures InSub(r, k) <==> k == r || InSub(2 * r, k) || InSub(2 * r + 1, k)
    ensures !(InSub(2 * r, k) && InSub(2 * r + 1, k))
    ensures InSub(2 * r, k) || InSub(2 * r + 1, k) ==> k != r
    decreases k
  {
    if k > 2 * r + 1 {
      SubSplits(r, k / 2);
    } else if r < k < 2 * r {
      assert k / 2 < r;
      assert !InSub(r, k / 2);
    }
  }

  lemma {:induction false} StrictSubIsDeep(r: nat, k: nat)
    requires r >= 1 && InSub(r, k) && k != r
    ensures k >= 2 * r && InSub(r, k / 2)
  {
    assert k / 2 >= r;
  }

  lemma {:induction false} EverythingUnderOne(k: nat)
    requires k >= 1
    ensures InSub(1, k)
    decreases k
  {
    if k > 1 {
      EverythingUnderOne(k / 2);
    }
  }

  // ------------------------------------------------------------------ the sift

  function Swap(s: seq<Slot>, i: nat, j: nat): (r: seq<Slot>)
    requires i < |s| && j < |s|
    ensures |r| == |s|
  {
    s[i := s[j]][j := s[i]]
  }

  // heapify on values: the left side is put right first, then the right.
  function Sift(s: seq<Slot>, node: nat, m: nat, max: nat): (r: seq<Slot>)
    requires 2 * max + 1 < |s|
    ensures |r| == |s|
    decreases if node <= max then max + 1 - node else 0, 1
  {
    if node < 1 || node > m || node > max then s
    else SiftSide(SiftSide(s, node, 2 * node, m, max), node, 2 * node + 1, m, max)
  }

  // One side: the root trades places with a smaller child and the child's
  // subtree is sifted in turn.
  function SiftSide(s: seq<Slot>, node: nat, child: nat, m: nat, max: nat): (r: seq<Slot>)
    requires 2 * max + 1 < |s| && IsChild(node, child) && node <= max
    ensures |r| == |s|
    decreases max + 1 - node, 0
  {
    if Greater(s[node], s[child]) then Sift(Swap(s, node, child), child, m, max) else s
  }

  predicate IsChild(node: nat, child: nat) {
    node >= 1 && (child == 2 * node || child == 2 * node + 1)
  }

  // The subtree rooted at r is a min-heap.
  ghost predicate HeapAt(s: seq<Slot>, r: nat) {
    forall k {:trigger InSub(r, k)} :: 0 <= k < |s| && InSub(r, k) && k != r ==> Le(s[k / 2], s[k])
  }

  // Everything in the subtree rooted at r is at least v.
  ghost predicate AllAbove(s: seq<Slot>, r: nat, v: Slot) {
    forall k {:trigger InSub(r, k)} :: 0 <= k < |s| && InSub(r, k) ==> Le(v, s[k])
  }

  // The slots past the heap hold nothing.
  ghost predicate BlankPast(s: seq<Slot>, m: nat) {
    forall k :: m < k < |s| ==> s[k] == Blank
  }

  lemma {:induction false} SiftTouchesOnlyItsSubtree(s: seq<Slot>, node: nat, m: nat, max: nat, k: nat)
    requires 2 * max + 1 < |s| && k < |s| && !InSub(node, k)
    ensures Sift(s, node, m, max)[k] == s[k]
    decreases if node <= max then max + 1 - node else 0, 1
  {
    if 1 <= node <= m && node <= max {
      SubSplits(node, k);
      SideTouchesOnlyItsSubtree(s, node, 2 * node, m, max, k);
      SideTouchesOnlyItsSubtree(SiftSide(s, node, 2 * node, m, max), node, 2 * node + 1, m, max, k);
    }
  }

  lemma {:induction false} SideTouchesOnlyItsSubtree(
      s: seq<Slot>, node: nat, child: nat, m: nat, max: nat, k: nat)
    requires 2 * max + 1 < |s| && IsChild(node, child) && node <= max
    requires k < |s| && k != node && !InSub(child, k)
    ensures SiftSide(s, node, child, m, max)[k] == s[k]
    decreases max + 1 - node, 0
  {
    SiftTouchesOnlyItsSubtree(Swap(s, node, child), child, m, max, k);
  }

  lemma {:induction false} SwapPermutes(s: seq<Slot>, i: nat, j: nat)
    requires i < |s| && j < |s|
    ensures multiset(Swap(s, i, j)) == multiset(s)
  {
  }

  lemma {:induction false} SiftPermutes(s: seq<Slot>, node: nat, m: nat, max: nat)
    requires 2 * max + 1 < |s|
    ensures multiset(Sift(s, node, m, max)) == multiset(s)
    decreases if node <= max then max + 1 - node else 0, 1
  {
    if 1 <= node <= m && node <= max {
      SidePermutes(s, node, 2 * node, m, max);
      SidePermutes(SiftSide(s, node, 2 * node, m, max), node, 2 * node + 1, m, max);
    }
  }

  lemma {:induction false} SidePermutes(s: seq<Slot>, node: nat, child: nat, m: nat, max: nat)
    requires 2 * max + 1 < |s| && IsChild(node, child) && node <= max
    ensures multiset(SiftSide(s, node, child, m, max)) == multiset(s)
    decreases max + 1 - node, 0
  {
    if Greater(s[node], s[child]) {
      SwapPermutes(s, node, child);
      SiftPermutes(Swap(s, node, child), child, m, max);
    }
  }

  lemma {:induction false} SiftKeepsBlanks(s: seq<Slot>, node: nat, m: nat, max: nat)
    requires 2 * max + 1 < |s| && BlankPast(s, m)
    ensures BlankPast(Sift(s, node, m, max), m)
    decreases if node <= max then max + 1 - node else 0, 1
  {
    if 1 <= node <= m && node <= max {
      SideKeepsBlanks(s, node, 2 * node, m, max);
      SideKeepsBlanks(SiftSide(s, node, 2 * node, m, max), node, 2 * node + 1, m, max);
    }
  }

  lemma {:induction false} SideKeepsBlanks(s: seq<Slot>, node: nat, child: nat, m: nat, max: nat)
    requires 2 * max + 1 < |s| && IsChild(node, child) && node <= max && node <= m
    requires BlankPast(s, m)
    ensures BlankPast(SiftSide(s, node, child, m, max), m)
    decreases max + 1 - node, 0
  {
    if Greater(s[node], s[child]) {
      SiftKeepsBlanks(Swap(s, node, child), child, m, max);
    }
  }

  // Swapping a root with its child keeps every lower bound of the subtree.
  lemma {:induction false} SwapKeepsBound(s: seq<Slot>, node: nat, child: nat, v: Slot)
    requires IsChild(node, child) && child < |s| && AllAbove(s, node, v)
    ensures AllAbove(Swap(s, node, child), child, v)
    ensures Le(v, s[node]) && Le(v, s[child])
  {
    assert InSub(node, node);
    SubSplits(node, child);
    assert InSub(child, child) && InSub(node, child);
    forall k | 0 <= k < |s| && InSub(child, k)
      ensures Le(v, Swap(s, node, child)[k])
    {
      SubSplits(node, k);
      assert InSub(node, k);
    }
  }

  lemma {:induction false} SiftKeepsBound(s: seq<Slot>, node: nat, m: nat, max: nat, v: Slot)
    requires 2 * max + 1 < |s| && node >= 1 && AllAbove(s, node, v)
    ensures AllAbove(Sift(s, node, m, max), node, v)
    decreases if node <= max then max + 1 - node else 0, 1
  {
    if node <= m && node <= max {
      SideKeepsBound(s, node, 2 * node, m, max, v);
      SideKeepsBound(SiftSide(s, node, 2 * node, m, max), node, 2 * node + 1, m, max, v);
    }
  }

  lemma {:induction false} SideKeepsBound(s: seq<Slot>, node: nat, child: nat, m: nat, max: nat, v: Slot)
    requires 2 * max + 1 < |s| && IsChild(node, child) && node <= max && AllAbove(s, node, v)
    ensures AllAbove(SiftSide(s, node, child, m, max), node, v)
    decreases max + 1 - node, 0
  {
    if Greater(s[node], s[child]) {
      var t, r := Swap(s, node, child), SiftSide(s, node, child, m, max);
      SwapKeepsBound(s, node, child, v);
      SiftKeepsBound(t, child, m, max, v);
      forall k | 0 <= k < |s| && InSub(node, k)
        ensures Le(v, r[k])
      {
        if !InSub(child, k) {
          SiftTouchesOnlyItsSubtree(t, child, m, max, k);
        }
      }
    }
  }

  lemma {:induction false} RootIsLeast(s: seq<Slot>, r: nat, k: nat)
    requires r >= 1 && HeapAt(s, r) && k < |s| && InSub(r, k)
    ensures Le(s[r], s[k])
    decreases k
  {
    if k == r {
      LeReflexive(s[r]);
    } else {
      StrictSubIsDeep(r, k);
      RootIsLeast(s, r, k / 2);
      LeTransitive(s[r], s[k / 2], s[k]);
    }
  }

  lemma {:induction false} RootBoundsHeap(s: seq<Slot>, r: nat, v: Slot)
    requires 1 <= r < |s| && HeapAt(s, r) && Le(v, s[r])
    ensures AllAbove(s, r, v)
  {
    forall k | 0 <= k < |s| && InSub(r, k)
      ensures Le(v, s[k])
    {
      RootIsLeast(s, r, k);
      LeTransitive(v, s[r], s[k]);
    }
  }

  lemma {:induction false} LeafIsHeap(s: seq<Slot>, r: nat, m: nat)
    requires r >= 1 && r > m / 2 && BlankPast(s, m)
    ensures HeapAt(s, r)
  {
    forall k | 0 <= k < |s| && InSub(r, k) && k != r
      ensures Le(s[k / 2], s[k])
    {
      StrictSubIsDeep(r, k);
    }
  }

  // A root that is at most its two children, both heaps, makes a heap.
  lemma {:induction false} JoinHeaps(s: seq<Slot>, r: nat)
    requires r >= 1 && 2 * r + 1 < |s|
    requires HeapAt(s, 2 * r) && HeapAt(s, 2 * r + 1)
    requires Le(s[r], s[2 * r]) && Le(s[r], s[2 * r + 1])
    ensures HeapAt(s, r)
  {
    forall k | 0 <= k < |s| && InSub(r, k) && k != r
      ensures Le(s[k / 2], s[k])
    {
      SubSplits(r, k);
    }
  }

  // A heap is untouched by work on a subtree that does not meet it.
  lemma {:induction false} HeapElsewhere(s: seq<Slot>, t: seq<Slot>, r: nat)
    requires r >= 1 && |t| == |s| && HeapAt(s, r)
    requires forall k {:trigger InSub(r, k)} :: 0 <= k < |s| && InSub(r, k) ==> t[k] == s[k]
    ensures HeapAt(t, r)
  {
    forall k | 0 <= k < |t| && InSub(r, k) && k != r
      ensures Le(t[k / 2], t[k])
    {
      StrictSubIsDeep(r, k);
      assert InSub(r, k / 2);
    }
  }

  // After the trade, the children of the moved root are still heaps.
  lemma {:induction false} ChildrenStayHeaps(s: seq<Slot>, node: nat, child: nat)
    requires IsChild(node, child) && child < |s| && HeapAt(s, child)
    ensures forall k {:trigger InSub(child, k)} :: 0 <= k < |s| && InSub(child, k) && k != child && k / 2 != child ==>
      Le(Swap(s, node, child)[k / 2], Swap(s, node, child)[k])
  {
    forall k | 0 <= k < |s| && InSub(child, k) && k != child && k / 2 != child
      ensures Le(Swap(s, node, child)[k / 2], Swap(s, node, child)[k])
    {
      StrictSubIsDeep(child, k);
    }
  }

  // What one side of heapify achieves: that side is a heap under the root, and
  // the other side is as it was.
  lemma {:induction false} SideMakesHeap(s: seq<Slot>, node: nat, child: nat, other: nat, m: nat, max: nat)
    requires 2 * max + 1 < |s| && IsChild(node, child) && IsChild(node, other) && child != other && node <= max
    requires max == m / 2 && BlankPast(s, m) && HeapAt(s, child) && HeapAt(s, other)
    ensures var t := SiftSide(s, node, child, m, max);
      && HeapAt(t, child) && HeapAt(t, other) && t[other] == s[other]
      && Le(t[node], t[child])
      && t[node] == if Greater(s[node], s[child]) then s[child] else s[node]
    decreases max + 1 - node, 0
  {
    if Greater(s[node], s[child]) {
      var w, t := Swap(s, node, child), SiftSide(s, node, child, m, max);
      ChildrenStayHeaps(s, node, child);
      SiftMakesHeap(w, child, m, max);
      SubSplits(node, node);
      SiftTouchesOnlyItsSubtree(w, child, m, max, node);
      SideLeavesOther(s, node, child, other, m, max);
      TradedChildIsLeast(s, node, child);
      SiftKeepsBound(w, child, m, max, s[child]);
      assert InSub(child, child);
    }
  }

  lemma {:induction false} TradedChildIsLeast(s: seq<Slot>, node: nat, child: nat)
    requires IsChild(node, child) && child < |s| && HeapAt(s, child) && Greater(s[node], s[child])
    ensures AllAbove(Swap(s, node, child), child, s[child])
  {
    GreaterIsAbove(s[node], s[child]);
    LeReflexive(s[child]);
    RootBoundsHeap(s, child, s[child]);
    forall k | 0 <= k < |s| && InSub(child, k)
      ensures Le(s[child], Swap(s, node, child)[k])
    {
    }
  }

  lemma {:induction false} SideLeavesOther(s: seq<Slot>, node: nat, child: nat, other: nat, m: nat, max: nat)
    requires 2 * max + 1 < |s| && IsChild(node, child) && IsChild(node, other) && child != other && node <= max
    requires HeapAt(s, other)
    ensures HeapAt(SiftSide(s, node, child, m, max), other)
    ensures SiftSide(s, node, child, m, max)[other] == s[other]
  {
    var t := SiftSide(s, node, child, m, max);
    forall k | 0 <= k < |s| && InSub(other, k)
      ensures t[k] == s[k]
    {
      SubSplits(node, k);
      SideTouchesOnlyItsSubtree(s, node, child, m, max, k);
    }
    assert InSub(other, other);
    HeapElsewhere(s, t, other);
  }

  // heapify: if everything strictly below node's children is in heap order,
  // the whole subtree is a min-heap afterwards.
  lemma {:induction false} SiftMakesHeap(s: seq<Slot>, node: nat, m: nat, max: nat)
    requires node >= 1 && max == m / 2 && 2 * max + 1 < |s| && BlankPast(s, m)
    requires forall k {:trigger InSub(node, k)} :: 0 <= k < |s| && InSub(node, k) && k != node && k / 2 != node ==>
      Le(s[k / 2], s[k])
    ensures HeapAt(Sift(s, node, m, max), node)
    decreases if node <= max then max + 1 - node else 0, 1
  {
    if node > max {
      LeafIsHeap(s, node, m);
    } else {
      var l, r := 2 * node, 2 * node + 1;
      SidesAreHeaps(s, node, l);
      SidesAreHeaps(s, node, r);
      var s1 := SiftSide(s, node, l, m, max);
      SideMakesHeap(s, node, l, r, m, max);
      SideKeepsBlanks(s, node, l, m, max);
      SideMakesHeap(s1, node, r, l, m, max);
      if Greater(s1[node], s1[r]) {
        GreaterIsAbove(s1[node], s1[r]);
        LeTransitive(s1[r], s1[node], s1[l]);
      }
      JoinHeaps(SiftSide(s1, node, r, m, max), node);
    }
  }

  lemma {:induction false} SidesAreHeaps(s: seq<Slot>, node: nat, child: nat)
    requires IsChild(node, child)
    requires forall k {:trigger InSub(node, k)} :: 0 <= k < |s| && InSub(node, k) && k != node && k / 2 != node ==>
      Le(s[k / 2], s[k])
    ensures HeapAt(s, child)
  {
    forall k | 0 <= k < |s| && InSub(child, k) && k != child
      ensures Le(s[k / 2], s[k])
    {
      SubSplits(node, k);
      StrictSubIsDeep(child, k);
      assert InSub(node, k);
    }
  }

  // ------------------------------------------------------- the heap, and the sort

  // heapify at j, j-1, ..., 1 for a heap of m records.
  function SiftAll(s: seq<Slot>, j: nat, m: nat): (r: seq<Slot>)
    requires 2 * (m / 2) + 1 < |s|
    ensures |r| == |s|
    decreases j
  {
    if j == 0 then s else SiftAll(Sift(s, j, m, m / 2), j - 1, m)
  }

  ghost predicate OrderedPast(s: seq<Slot>, j: nat) {
    forall k :: 0 <= k < |s| && k / 2 > j ==> AboveParent(s, k)
  }

  predicate AboveParent(s: seq<Slot>, k: nat)
    requires k < |s|
  {
    Le(s[k / 2], s[k])
  }

  lemma {:induction false} SiftExtendsOrder(s: seq<Slot>, j: nat, m: nat)
    requires 1 <= j && 2 * (m / 2) + 1 < |s| && BlankPast(s, m) && OrderedPast(s, j)
    ensures OrderedPast(Sift(s, j, m, m / 2), j - 1) && BlankPast(Sift(s, j, m, m / 2), m)
  {
    var t := Sift(s, j, m, m / 2);
    SiftKeepsBlanks(s, j, m, m / 2);
    forall k | 0 <= k < |s| && InSub(j, k) && k != j && k / 2 != j
      ensures Le(s[k / 2], s[k])
    {
      StrictSubIsDeep(j, k);
      assert k / 2 > j && AboveParent(s, k);
    }
    SiftMakesHeap(s, j, m, m / 2);
    forall k | 0 <= k < |t| && k / 2 > j - 1
      ensures AboveParent(t, k)
    {
      if InSub(j, k) {
        assert k != j;
      } else {
        SiftTouchesOnlyItsSubtree(s, j, m, m / 2, k);
        SiftTouchesOnlyItsSubtree(s, j, m, m / 2, k / 2);
        assert k / 2 != j && AboveParent(s, k);
      }
    }
  }

  lemma {:induction false} OrderedIsHeap(s: seq<Slot>)
    requires OrderedPast(s, 0)
    ensures HeapAt(s, 1)
  {
    forall k | 0 <= k < |s| && InSub(1, k) && k != 1
      ensures Le(s[k / 2], s[k])
    {
      assert k / 2 > 0 && AboveParent(s, k);
    }
  }

  lemma {:induction false} SiftAllPermutes(s: seq<Slot>, j: nat, m: nat)
    requires 2 * (m / 2) + 1 < |s|
    ensures multiset(SiftAll(s, j, m)) == multiset(s)
    ensures SiftAll(s, j, m)[0] == s[0]
    decreases j
  {
    if j > 0 {
      SiftPermutes(s, j, m, m / 2);
      SiftTouchesOnlyItsSubtree(s, j, m, m / 2, 0);
      SiftAllPermutes(Sift(s, j, m, m / 2), j - 1, m);
    }
  }

  lemma {:induction false} SiftAllMakesHeap(s: seq<Slot>, j: nat, m: nat)
    requires 2 * (m / 2) + 1 < |s| && BlankPast(s, m) && OrderedPast(s, j)
    ensures BlankPast(SiftAll(s, j, m), m) && HeapAt(SiftAll(s, j, m), 1)
    decreases j
  {
    if j == 0 {
      OrderedIsHeap(s);
    } else {
      SiftExtendsOrder(s, j, m);
      SiftAllMakesHeap(Sift(s, j, m, m / 2), j - 1, m);
    }
  }

  lemma {:induction false} SiftAllKeepsBound(s: seq<Slot>, j: nat, m: nat, v: Slot)
    requires 2 * (m / 2) + 1 < |s| && AllAbove(s, 1, v)
    ensures AllAbove(SiftAll(s, j, m), 1, v)
    decreases j
  {
    if j > 0 {
      var t := Sift(s, j, m, m / 2);
      forall k | 0 <= k < |s| && InSub(j, k)
        ensures Le(v, s[k])
      {
        EverythingUnderOne(k);
      }
      SiftKeepsBound(s, j, m, m / 2, v);
      forall k | 0 <= k < |t| && InSub(1, k)
        ensures Le(v, t[k])
      {
        if !InSub(j, k) {
          SiftTouchesOnlyItsSubtree(s, j, m, m / 2, k);
        }
      }
      SiftAllKeepsBound(t, j - 1, m, v);
    }
  }

  // The heap after its root is taken: the last record moves to the root, its
  // slot is blanked, and the heap is built again.
  function Refill(s: seq<Slot>, i: nat): (r: seq<Slot>)
    requires 1 <= i < |s|
    ensures |r| == |s|
  {
    SiftAll(s[1 := s[i]][i := Blank], (i - 1) / 2, i - 1)
  }

  // The records in the order they leave a heap of i records.
  function Drain(s: seq<Slot>, i: nat): (r: seq<Slot>)
    requires i < |s|
    ensures |r| == i
    decreases i
  {
    if i == 0 then [] else [s[1]] + Drain(Refill(s, i), i - 1)
  }

  lemma {:induction false} DrainStep(out: seq<Slot>, s: seq<Slot>, i: nat)
    requires 1 <= i < |s|
    ensures out + [s[1]] + Drain(Refill(s, i), i - 1) == out + Drain(s, i)
  {
    var rest := Drain(Refill(s, i), i - 1);
    assert out + [s[1]] + rest == out + ([s[1]] + rest);
  }

  ghost predicate Ascending(out: seq<Slot>) {
    forall i, j :: 0 <= i < j < |out| ==> Le(out[i], out[j])
  }

  lemma {:induction false} RefillKeepsBound(s: seq<Slot>, i: nat, v: Slot)
    requires 1 <= i < |s| && AllAbove(s, 1, v)
    ensures AllAbove(Refill(s, i), 1, v)
  {
    var t := s[1 := s[i]][i := Blank];
    EverythingUnderOne(i);
    forall k | 0 <= k < |t| && InSub(1, k)
      ensures Le(v, t[k])
    {
      assert InSub(1, k) && InSub(1, i);
    }
    SiftAllKeepsBound(t, (i - 1) / 2, i - 1, v);
  }

  lemma {:induction false} RefillFacts(s: seq<Slot>, i: nat)
    requires 1 <= i < |s| && BlankPast(s, i) && HeapAt(s, 1)
    ensures BlankPast(Refill(s, i), i - 1) && HeapAt(Refill(s, i), 1)
    ensures Refill(s, i)[0] == s[0]
    ensures multiset(Refill(s, i)) == multiset(s[1 := s[i]][i := Blank])
  {
    SiftAllPermutes(s[1 := s[i]][i := Blank], (i - 1) / 2, i - 1);
    SiftAllMakesHeap(s[1 := s[i]][i := Blank], (i - 1) / 2, i - 1);
  }

  lemma {:induction false} DrainKeepsBound(s: seq<Slot>, i: nat, v: Slot)
    requires i < |s| && BlankPast(s, i) && HeapAt(s, 1) && AllAbove(s, 1, v)
    ensures forall x :: x in Drain(s, i) ==> Le(v, x)
    decreases i
  {
    if i > 0 {
      RefillFacts(s, i);
      RefillKeepsBound(s, i, v);
      assert InSub(1, 1);
      DrainKeepsBound(Refill(s, i), i - 1, v);
    }
  }

  lemma {:induction false} DrainIsInOrder(s: seq<Slot>, i: nat)
    requires i < |s| && BlankPast(s, i) && HeapAt(s, 1)
    ensures InOrder(Drain(s, i))
  {
    DrainAscends(s, i);
    AscendingIsInOrder(Drain(s, i));
  }

  lemma {:induction false} DrainAscends(s: seq<Slot>, i: nat)
    requires i < |s| && BlankPast(s, i) && HeapAt(s, 1)
    ensures Ascending(Drain(s, i))
    decreases i
  {
    if i > 0 {
      RefillFacts(s, i);
      LeReflexive(s[1]);
      RootBoundsHeap(s, 1, s[1]);
      RefillKeepsBound(s, i, s[1]);
      DrainAscends(Refill(s, i), i - 1);
      DrainKeepsBound(Refill(s, i), i - 1, s[1]);
    }
  }

  lemma {:induction false} MiddleMultiset(s: seq<Slot>, t: seq<Slot>, i: nat)
    requires 1 <= i <= |s| == |t| && s[0] == t[0] && s[i..] == t[i..]
    requires multiset(s) == multiset(t)
    ensures multiset(s[1..i]) == multiset(t[1..i])
  {
    assert s == s[..1] + s[1..i] + s[i..];
    assert t == t[..1] + t[1..i] + t[i..];
    assert s[..1] == t[..1];
    assert multiset(s) == multiset(s[..1]) + multiset(s[1..i]) + multiset(s[i..]);
    assert multiset(t) == multiset(t[..1]) + multiset(t[1..i]) + multiset(t[i..]);
    forall x
      ensures multiset(s[1..i])[x] == multiset(t[1..i])[x]
    {
      assert multiset(s)[x] == multiset(t)[x];
    }
  }

  lemma {:induction false} LastMovesToRoot(s: seq<Slot>, i: nat)
    requires 1 <= i < |s|
    ensures multiset(s[1..i + 1]) == multiset{s[1]} + multiset(s[1 := s[i]][i := Blank][1..i])
  {
    var t := s[1 := s[i]][i := Blank];
    if i == 1 {
      assert s[1..2] == [s[1]] && t[1..1] == [];
    } else {
      assert s[1..i + 1] == s[1..2] + s[2..i] + s[i..i + 1];
      assert s[1..2] == [s[1]] && s[i..i + 1] == [s[i]];
      assert t[1..i] == t[1..2] + t[2..i];
      assert t[1..2] == [s[i]] && t[2..i] == s[2..i];
    }
  }

  lemma {:induction false} RefillTakesOne(s: seq<Slot>, i: nat)
    requires 1 <= i < |s| && BlankPast(s, i) && HeapAt(s, 1)
    ensures multiset(s[1..i + 1]) == multiset{s[1]} + multiset(Refill(s, i)[1..i])
  {
    var t, u := s[1 := s[i]][i := Blank], Refill(s, i);
    RefillFacts(s, i);
    assert u[i..] == t[i..];
    MiddleMultiset(u, t, i);
    LastMovesToRoot(s, i);
  }

  lemma {:induction false} DrainPermutes(s: seq<Slot>, i: nat)
    requires i < |s| && BlankPast(s, i) && HeapAt(s, 1)
    ensures multiset(Drain(s, i)) == multiset(s[1..i + 1])
    decreases i
  {
    if i > 0 {
      RefillTakesOne(s, i);
      RefillFacts(s, i);
      DrainPermutes(Refill(s, i), i - 1);
      assert Drain(s, i) == [s[1]] + Drain(Refill(s, i), i - 1);
    } else {
      assert s[1..1] == [];
    }
  }

  // ------------------------------------------------------------------- the pages

  function Records(pages: seq<Page>): (r: seq<Slot>)
    ensures |r| == 2 * |pages|
    ensures forall k :: 0 <= k < |pages| ==> r[2 * k] == pages[k].first && r[2 * k + 1] == pages[k].second
  {
    if pages == [] then [] else
      Records(pages[..|pages| - 1]) + [pages[|pages| - 1].first, pages[|pages| - 1].second]
  }

  // What makeSortedFile leaves in the file for a sequence of output records: a
  // full page is written only when the next record comes, or not at all.
  function Written(out: seq<Slot>): seq<Page>
    decreases |out|
  {
    if |out| == 0 || |out| == 2 then []
    else if |out| == 1 then [Page(out[0], Blank)]
    else [Page(out[0], out[1])] + Written(out[2..])
  }

  lemma {:induction false} FirstTwo<T>(s: seq<T>, x: T)
    requires |s| >= 2
    ensures [s[0], s[1]] + (s[2..] + [x]) == s + [x]
    ensures |s| >= 4 ==> [s[0], s[1]] + s[2..][..|s| - 4] == s[..|s| - 2]
  {
  }

  lemma {:induction false} WrittenOddIsAll(out: seq<Slot>)
    requires |out| % 2 == 1
    ensures Records(Written(out)) == out + [Blank]
    decreases |out|
  {
    if |out| == 1 {
      RecordsOfOne(Page(out[0], Blank));
    } else {
      WrittenOddIsAll(out[2..]);
      RecordsCons(Page(out[0], out[1]), Written(out[2..]));
      FirstTwo(out, Blank);
    }
  }

  lemma {:induction false} WrittenEvenLosesTwo(out: seq<Slot>)
    requires |out| % 2 == 0 && |out| > 0
    ensures Records(Written(out)) == out[..|out| - 2]
    decreases |out|
  {
    if |out| > 2 {
      WrittenEvenLosesTwo(out[2..]);
      RecordsCons(Page(out[0], out[1]), Written(out[2..]));
      FirstTwo(out, Blank);
    }
  }

  lemma {:induction false} RecordsOfOne(p: Page)
    ensures Records([p]) == [p.first, p.second]
  {
  }

  lemma {:induction false} RecordsOf(pages: seq<Page>, p: Page)
    ensures Records(pages + [p]) == Records(pages) + [p.first, p.second]
  {
    assert (pages + [p])[..|pages|] == pages;
  }

  lemma {:induction false} RecordsCons(p: Page, pages: seq<Page>)
    ensures Records([p] + pages) == [p.first, p.second] + Records(pages)
  {
    var l, r := Records([p] + pages), [p.first, p.second] + Records(pages);
    forall j | 0 <= j < |l|
      ensures l[j] == r[j]
    {
      var k := j / 2;
      assert l[2 * k] == ([p] + pages)[k].first && l[2 * k + 1] == ([p] + pages)[k].second;
      if k > 0 {
        assert r[2 * k] == Records(pages)[2 * (k - 1)] && r[2 * k + 1] == Records(pages)[2 * (k - 1) + 1];
      }
    }
  }

  // -------------------------------------------------------------------- the code

  method Exchange(a: array<Slot>, i: nat, j: nat)
    requires i < a.Length && j < a.Length
    modifies a
    ensures a[..] == Swap(old(a[..]), i, j)
  {
    var buf := a[j];
    a[j] := a[i];
    a[i] := buf;
  }

  method Heapify(a: array<Slot>, node: nat, m: nat, max: nat)
    requires 2 * max + 1 < a.Length
    modifies a
    ensures a[..] == Sift(old(a[..]), node, m, max)
    decreases if node <= max then max + 1 - node else 0, 1
  {
    if node < 1 || node > m || node > max {
      return;
    }
    HeapifySide(a, node, 2 * node, m, max);
    HeapifySide(a, node, 2 * node + 1, m, max);
  }

  // Lines 109-139 with child 2*node, and again 142-160 with child 2*node+1.
  method HeapifySide(a: array<Slot>, node: nat, child: nat, m: nat, max: nat)
    requires 2 * max + 1 < a.Length && IsChild(node, child) && node <= max
    modifies a
    ensures a[..] == SiftSide(old(a[..]), node, child, m, max)
    decreases max + 1 - node, 0
  {
    var par, b := a[node], a[child];
    if Greater(par, b) {
      Exchange(a, node, child);
      Heapify(a, child, m, max);
    }
  }

  // The loops of buildHeap and makeSortedFile over the inner nodes.
  method HeapifyFrom(a: array<Slot>, top: nat, m: nat)
    requires top == m / 2 && 2 * top + 1 < a.Length
    modifies a
    ensures a[..] == SiftAll(old(a[..]), top, m)
  {
    var j: nat := top;
    while j > 0
      invariant SiftAll(a[..], j, m) == SiftAll(old(a[..]), top, m)
    {
      Heapify(a, j, m, top);
      j := j - 1;
    }
  }

  // The pages behind the header are just enough for the records; the header
  // counts itself among them.
  ghost predicate Enough(pages: seq<Page>, recordnum: nat) { |pages| == (recordnum + 1) / 2 }

  // The reading loop of buildHeap over pages 1 to pagenum. It ends at the last
  // record only if that is the first of its page; otherwise it goes on to a
  // page that is not there and stores a record past the array.
  method LoadRecords(pages: seq<Page>, pagenum: nat, a: array<Slot>, recordnum: nat) returns (count: nat, overrun: bool)
    requires Enough(pages, recordnum) && pagenum == |pages| + 1 && a.Length == recordnum + 1
    modifies a
    ensures overrun <==> recordnum % 2 == 0
    ensures !overrun ==> count == recordnum
    ensures a[1..] == Records(pages)[..recordnum]
  {
    count := 1;
    overrun := false;
    var i := 1;
    while i <= pagenum
      invariant 1 <= i && count == 2 * i - 1 <= recordnum + 1
      invariant forall k :: 1 <= k < count ==> a[k] == Records(pages)[k - 1]
      decreases pagenum - i
    {
      if count == a.Length {
        overrun := true;
        return;
      }
      a[count] := pages[i - 1].first;
      if recordnum == count {
        break;
      }
      count := count + 1;
      a[count] := pages[i - 1].second;
      count := count + 1;
      i := i + 1;
    }
  }

  method BuildHeap(pages: seq<Page>, pagenum: nat, a: array<Slot>, recordnum: nat) returns (overrun: bool)
    requires Enough(pages, recordnum) && pagenum == |pages| + 1 && a.Length == recordnum + 1
    modifies a
    ensures overrun <==> recordnum % 2 == 0
    ensures !overrun ==> HeapAt(a[..], 1) && multiset(a[1..]) == multiset(Records(pages)[..recordnum])
  {
    var count;
    count, overrun := LoadRecords(pages, pagenum, a, recordnum);
    if overrun {
      return;
    }
    HeapifyLoaded(a, count, recordnum);
    assert a[1..] == a[..][1..a.Length];
  }

  // The second loop of buildHeap.
  method HeapifyLoaded(a: array<Slot>, count: nat, recordnum: nat)
    requires count == recordnum && recordnum % 2 == 1 && a.Length == recordnum + 1
    modifies a
    ensures HeapAt(a[..], 1) && multiset(a[..][1..a.Length]) == multiset(old(a[1..]))
  {
    ghost var loaded := a[..];
    var node := count / 2;
    HeapifyFrom(a, node, recordnum);
    SiftAllPermutes(loaded, node, recordnum);
    SiftAllMakesHeap(loaded, node, recordnum);
    MiddleMultiset(a[..], loaded, a.Length);
    assert old(a[1..]) == loaded[1..a.Length];
  }

  // The output so far: full pages on file, and up to two records in the buffer.
  ghost predicate Buffered(file: seq<Page>, pagebuf: Page, count: nat, out: seq<Slot>) {
    && 1 <= count <= 3 && |out| + 1 == 2 * |file| + count && (count == 1 ==> out == [])
    && Records(file) == out[..2 * |file|]
    && (count == 2 ==> pagebuf == Page(out[|out| - 1], Blank))
    && (count == 3 ==> pagebuf == Page(out[|out| - 2], out[|out| - 1]))
  }

  // The page-writing part of makeSortedFile's loop, for one record x.
  method PutRecord(file: seq<Page>, pagebuf: Page, count: nat, x: Slot, ghost out: seq<Slot>)
    returns (file': seq<Page>, pagebuf': Page, count': nat)
    requires Buffered(file, pagebuf, count, out)
    ensures Buffered(file', pagebuf', count', out + [x])
  {
    file', pagebuf', count' := file, pagebuf, count;
    if count' > 2 {
      RecordsOf(file, pagebuf);
      file' := file' + [pagebuf'];
      pagebuf' := Page(Blank, Blank);
      count' := 1;
    }
    if count' == 1 {
      pagebuf' := Page(x, Blank);
    } else {
      pagebuf' := pagebuf'.(second := x);
    }
    count' := count' + 1;
    assert (out + [x])[..2 * |file'|] == out[..2 * |file'|];
  }

  // After the loop only a half-filled page is written.
  method Finish(file: seq<Page>, pagebuf: Page, count: nat, ghost out: seq<Slot>) returns (file': seq<Page>)
    requires Buffered(file, pagebuf, count, out)
    ensures file' == Written(out)
  {
    file' := file;
    if count == 2 {
      RecordsOf(file, pagebuf);
      file' := file' + [pagebuf];
      assert out + [Blank] == out[..2 * |file|] + [out[|out| - 1], Blank];
      assert Records(file') == out + [Blank];
    } else if count == 3 {
      assert Records(file') == out[..|out| - 2];
    } else {
      assert file == [];
    }
    WrittenIsUnique(file', out);
  }

  // The heap part of makeSortedFile's loop: the root leaves a heap of i records.
  method TakeRoot(a: array<Slot>, i: nat) returns (x: Slot)
    requires 1 <= i < a.Length
    modifies a
    ensures x == old(a[1]) && a[..] == Refill(old(a[..]), i)
    ensures HeapAt(old(a[..]), 1) && BlankPast(old(a[..]), i) ==> HeapAt(a[..], 1) && BlankPast(a[..], i - 1)
  {
    ghost var s := a[..];
    x := a[1];
    a[1] := a[i];
    a[i] := Blank;
    assert a[..] == s[1 := s[i]][i := Blank];
    HeapifyFrom(a, (i - 1) / 2, i - 1);
    if HeapAt(s, 1) && BlankPast(s, i) {
      RefillFacts(s, i);
    }
  }

  ghost predicate HeapOf(s: seq<Slot>, i: nat) { HeapAt(s, 1) && BlankPast(s, i) }

  // With out handed out already and the rest of the records in a heap of i, they
  // are all in the end.
  ghost predicate StillIn(out: seq<Slot>, s: seq<Slot>, i: nat, all: seq<Slot>)
    decreases i
  {
    i < |s| && if i == 0 then out == all else StillIn(out + [s[1]], Refill(s, i), i - 1, all)
  }

  lemma {:induction false} AllStillIn(out: seq<Slot>, s: seq<Slot>, i: nat)
    requires i < |s|
    ensures StillIn(out, s, i, out + Drain(s, i))
    decreases i
  {
    if i == 0 {
      assert out + [] == out;
    } else {
      AllStillIn(out + [s[1]], Refill(s, i), i - 1);
      DrainStep(out, s, i);
    }
  }

  // The state of makeSortedFile's loop: what was put is buffered, what is left
  // is in a of i records, a heap if it was one; all is what comes out in the end.
  ghost predicate Putting(file: seq<Page>, pagebuf: Page, count: nat, out: seq<Slot>, s: seq<Slot>, i: nat, all: seq<Slot>, heap: bool) {
    Buffered(file, pagebuf, count, out) && StillIn(out, s, i, all) && (heap ==> HeapOf(s, i))
  }

  lemma {:induction false} PuttingStarts(s: seq<Slot>, i: nat)
    requires i < |s|
    ensures Putting([], Page(Blank, Blank), 1, [], s, i, Drain(s, i), HeapOf(s, i))
  {
    AllStillIn([], s, i);
    assert [] + Drain(s, i) == Drain(s, i);
  }

  // One pass of it.
  method PutRoot(a: array<Slot>, i: nat, file: seq<Page>, pagebuf: Page, count: nat, ghost out: seq<Slot>, ghost all: seq<Slot>, ghost heap: bool)
    returns (file': seq<Page>, pagebuf': Page, count': nat, ghost out': seq<Slot>)
    requires 1 <= i < a.Length && Putting(file, pagebuf, count, out, a[..], i, all, heap)
    modifies a
    ensures Putting(file', pagebuf', count', out', a[..], i - 1, all, heap)
  {
    var x := TakeRoot(a, i);
    file', pagebuf', count' := PutRecord(file, pagebuf, count, x, out);
    out' := out + [x];
  }

  // The loop, from a heap of i records on.
  method PutAll(a: array<Slot>, recordnum: nat)
    returns (file: seq<Page>, pagebuf: Page, count: nat, ghost out: seq<Slot>)
    requires a.Length == recordnum + 1
    modifies a
    ensures Buffered(file, pagebuf, count, out) && out == Drain(old(a[..]), recordnum)
    ensures HeapOf(old(a[..]), recordnum) ==> HeapOf(a[..], 0)
  {
    file, pagebuf, count, out := [], Page(Blank, Blank), 1, [];
    var i: nat := recordnum;
    ghost var all, heap := Drain(a[..], recordnum), HeapOf(a[..], recordnum);
    PuttingStarts(a[..], recordnum);
    while i > 0
      invariant i <= recordnum && Putting(file, pagebuf, count, out, a[..], i, all, heap)
    {
      file, pagebuf, count, out := PutRoot(a, i, file, pagebuf, count, out, all, heap);
      i := i - 1;
    }
  }

  // What page 0 of a file says; pagenum counts page 0 too.
  datatype Header = Header(pagenum: nat, recordnum: nat, depage: int, derecord: int)

  // The pages behind a header are as many as it says, and just enough for the
  // records.
  ghost predicate Describes(h: Header, pages: seq<Page>) {
    Enough(pages, h.recordnum) && h.pagenum == |pages| + 1
  }

  // makeSortedFile: the header is copied. It is right for any number of records
  // as far as the heap is concerned; the pages are another matter.
  method MakeSortedFile(a: array<Slot>, h: Header) returns (header: Header, file: seq<Page>)
    requires a.Length == h.recordnum + 1
    modifies a
    ensures header == h && file == Written(Drain(old(a[..]), h.recordnum))
    ensures HeapAt(old(a[..]), 1) ==> forall k :: 1 <= k <= h.recordnum ==> a[k] == Blank
  {
    header := h;
    var pagebuf, count;
    ghost var out;
    file, pagebuf, count, out := PutAll(a, h.recordnum);
    file := Finish(file, pagebuf, count, out);
  }

  // The pages on file are determined by the records they hold.
  lemma {:induction false} WrittenIsUnique(file: seq<Page>, out: seq<Slot>)
    requires Records(file) ==
      if |out| % 2 == 1 then out + [Blank] else if |out| == 0 then [] else out[..|out| - 2]
    ensures file == Written(out)
  {
    if |out| % 2 == 1 {
      WrittenOddIsAll(out);
    } else if |out| > 0 {
      WrittenEvenLosesTwo(out);
    }
    SameRecordsSamePages(file, Written(out));
  }

  lemma {:induction false} SameRecordsSamePages(f: seq<Page>, g: seq<Page>)
    requires Records(f) == Records(g)
    ensures f == g
  {
    forall k | 0 <= k < |f|
      ensures f[k] == g[k]
    {
      assert Records(f)[2 * k] == Records(g)[2 * k];
      assert Records(f)[2 * k + 1] == Records(g)[2 * k + 1];
    }
  }

  // From a heap, the file holds an ascending permutation of the records
  // exactly when their number is odd or zero; for an even number the last two
  // are never written.
  lemma {:induction false} SortedFileExactlyForOddCounts(s: seq<Slot>, n: nat)
    requires |s| == n + 1 && HeapAt(s, 1)
    ensures InOrder(Drain(s, n)) && multiset(Drain(s, n)) == multiset(s[1..])
    ensures n % 2 == 1 ==> Records(Written(Drain(s, n))) == Drain(s, n) + [Blank]
    ensures n % 2 == 0 && n > 0 ==> Records(Written(Drain(s, n))) == Drain(s, n)[..n - 2]
    ensures n == 0 || n % 2 == 1 <==> multiset(s[1..]) <= multiset(Records(Written(Drain(s, n))))
  {
    DrainIsInOrder(s, n);
    DrainPermutes(s, n);
    assert s[1..n + 1] == s[1..];
    PermutationIsWrittenExactlyForOddCounts(Drain(s, n), s[1..]);
  }

  lemma {:induction false} PermutationIsWrittenExactlyForOddCounts(out: seq<Slot>, input: seq<Slot>)
    requires multiset(out) == multiset(input)
    ensures |out| % 2 == 1 ==> Records(Written(out)) == out + [Blank]
    ensures |out| % 2 == 0 && |out| > 0 ==> Records(Written(out)) == out[..|out| - 2]
    ensures |out| == 0 || |out| % 2 == 1 <==> multiset(input) <= multiset(Records(Written(out)))
  {
    if |out| % 2 == 1 {
      WrittenOddIsAll(out);
    } else if |out| > 0 {
      WrittenEvenLosesTwo(out);
      MultisetFits(multiset(input), multiset(out[..|out| - 2]));
      assert |multiset(input)| == |multiset(out)| == |out|;
    }
  }

  lemma {:induction false} MultisetFits(a: multiset<Slot>, b: multiset<Slot>)
    ensures a <= b ==> |a| <= |b|
  {
    if a <= b {
      assert b == a + (b - a);
    }
  }

  // The file holds the first recordnum records of the pages in ascending
  // order, every one of them as often as they do, and then one sentinel.
  ghost predicate SortedCopy(pages: seq<Page>, recordnum: nat, file: seq<Page>)
    requires recordnum <= 2 * |pages|
  {
    && |Records(file)| == recordnum + 1 && Records(file)[recordnum] == Blank
    && InOrder(Records(file)[..recordnum])
    && multiset(Records(file)[..recordnum]) == multiset(Records(pages)[..recordnum])
  }

  // The sort command: read, build, write. With an even number of records it
  // runs past its array before it writes anything; otherwise the sorted file is
  // again one that its header describes.
  method SortFile(h: Header, pages: seq<Page>) returns (header: Header, file: seq<Page>, overrun: bool)
    requires Describes(h, pages)
    ensures overrun <==> h.recordnum % 2 == 0
    ensures !overrun ==> header == h && Describes(header, file) && SortedCopy(pages, h.recordnum, file)
  {
    var a := new Slot[h.recordnum + 1](_ => Blank);
    overrun := BuildHeap(pages, h.pagenum, a, h.recordnum);
    if overrun {
      return h, [], true;
    }
    ghost var heap := a[..];
    assert heap[1..] == a[1..];
    header, file := MakeSortedFile(a, h);
    SortedFileExactlyForOddCounts(heap, h.recordnum);
  }
}
