// Drawing numbers without replacement: a bit mask of the numbers in the box, and a shuffled queue of them.
module RandomBox {
  import opened Bytes
  import opened Bits

  const NONE := 0xFFFF_FFFF

  datatype ReturnCode = RT_OK | RT_INVALID_DATA

  // Bytes of a mask for n numbers.
  function MaskBytes(n: nat): (r: nat)
    ensures n <= 8 * r < n + 8
  {
    (n + 7) / 8
  }

  predicate InMask(mask: seq<byte>, n: nat, k: nat) {
    k < n && k / 8 < |mask| && Bit(mask[k / 8], k % 8)
  }

  // avector::resize
  function Resized(mask: seq<byte>, size: nat): (r: seq<byte>)
    ensures |r| == size
  {
    if size <= |mask| then mask[..size] else mask + seq(size - |mask|, _ => 0)
  }

  // The box of size n keeps its numbers when its size is replaced by m: none of them is cut off, and no bit
  // behind the old size shows up.
  ghost predicate SameNumbers(mask: seq<byte>, n: nat, m: nat) {
    && (forall k: nat :: InMask(mask, n, k) ==> k < m)
    && (forall k: nat :: n <= k < m && k / 8 < |mask| ==> !Bit(mask[k / 8], k % 8))
  }

  lemma ResizedBits(mask: seq<byte>, m: nat, k: nat)
    ensures InMask(Resized(mask, MaskBytes(m)), m, k) <==> InMask(mask, m, k)
  {
    assert k < m ==> k / 8 < MaskBytes(m);
    assert !Bit(0, k % 8) by {
      ZeroBit(k % 8);
    }
  }

  // A queue that lists a mask lists the resized one exactly when the numbers are the same.
  lemma ListsResized(q: seq<nat>, mask: seq<byte>, n: nat, m: nat)
    requires Lists(q, mask, n)
    ensures Lists(q, Resized(mask, MaskBytes(m)), m) <==> SameNumbers(mask, n, m)
  {
    forall k: nat
      ensures InMask(Resized(mask, MaskBytes(m)), m, k) <==> InMask(mask, m, k)
    {
      ResizedBits(mask, m, k);
    }
    if SameNumbers(mask, n, m) {
      forall k: nat
        ensures k in q <==> InMask(Resized(mask, MaskBytes(m)), m, k)
      {
        assert k in q <==> InMask(mask, n, k);
      }
    }
    if Lists(q, Resized(mask, MaskBytes(m)), m) {
      forall k: nat
        ensures InMask(mask, n, k) ==> k < m
        ensures n <= k < m && k / 8 < |mask| ==> !Bit(mask[k / 8], k % 8)
      {
        assert k in q <==> InMask(mask, n, k);
        assert k in q <==> InMask(Resized(mask, MaskBytes(m)), m, k);
        assert InMask(mask, n, k) <==> InMask(mask, m, k);
      }
    }
  }

  predicate Distinct(q: seq<nat>) {
    forall i, j :: 0 <= i < j < |q| ==> q[i] != q[j]
  }

  // The queue lists exactly the numbers whose bit is set, each once.
  ghost predicate Lists(q: seq<nat>, mask: seq<byte>, n: nat) {
    Distinct(q) && forall k: nat :: k in q <==> InMask(mask, n, k)
  }

  lemma BitChanged(mask: seq<byte>, n: nat, v: nat, on: bool) returns (after: seq<byte>)
    requires n <= 8 * |mask| && v < n
    ensures PutBit(mask[v / 8], v % 8, on) < 256 && after == mask[v / 8 := PutBit(mask[v / 8], v % 8, on)]
    ensures forall k: nat :: InMask(after, n, k) <==> if k == v then on else InMask(mask, n, k)
  {
    assert Pow2(4) == 16;
    assert Pow2(8) == 256;
    PutBitInRange(mask[v / 8], v % 8, on, 8);
    after := mask[v / 8 := PutBit(mask[v / 8], v % 8, on)];
    forall k: nat
      ensures InMask(after, n, k) <==> if k == v then on else InMask(mask, n, k)
    {
      PutBitIsBit(mask[v / 8], v % 8, on, k % 8);
      SameBit(k, v);
    }
  }

  lemma SameBit(k: nat, v: nat)
    ensures k / 8 == v / 8 && k % 8 == v % 8 ==> k == v
  {
  }

  lemma SwapKeeps(q: seq<nat>, i: nat, j: nat)
    requires i < |q| && j < |q| && Distinct(q)
    ensures Distinct(q[i := q[j]][j := q[i]])
    ensures forall k :: k in q[i := q[j]][j := q[i]] <==> k in q
  {
    var r := q[i := q[j]][j := q[i]];
    forall x | 0 <= x < |q|
      ensures q[x] in r
    {
      assert q[x] == r[if x == i then j else if x == j then i else x];
    }
  }

  lemma ListsMeans(q: seq<nat>, mask: seq<byte>, n: nat)
    requires Lists(q, mask, n)
    ensures Distinct(q) && forall k: nat :: k in q <==> InMask(mask, n, k)
  {
  }

  lemma SwapLists(q: seq<nat>, mask: seq<byte>, n: nat, i: nat, j: nat)
    requires i < |q| && j < |q| && Lists(q, mask, n)
    ensures Lists(q[i := q[j]][j := q[i]], mask, n)
  {
    hide InMask;
    hide Distinct;
    SwapKeeps(q, i, j);
  }

  lemma AllSet(mask: seq<byte>, n: nat)
    requires n <= 8 * |mask| && forall i :: 0 <= i < |mask| ==> mask[i] == 255
    ensures forall k: nat :: k < n ==> InMask(mask, n, k)
  {
    assert Pow2(4) == 16;
    assert Pow2(8) == 256;
    forall k: nat | k < n
      ensures InMask(mask, n, k)
    {
      OnesBit(8, k % 8);
    }
  }

  lemma FirstIn(q: seq<nat>)
    requires q != []
    ensures q[0] in q
  {
  }

  // A duplicate-free list of the numbers below n has n elements.
  // ---- shuffling ----

  predicate Ascending(q: seq<nat>) {
    forall i, j :: 0 <= i < j < |q| ==> q[i] < q[j]
  }

  function Swap(q: seq<nat>, i: nat, j: nat): (r: seq<nat>)
    requires i < |q| && j < |q|
    ensures |r| == |q|
  {
    q[i := q[j]][j := q[i]]
  }

  // The position not yet passed that a random number chooses.
  function Chosen(n: nat, pos: nat, rand: nat): (j: nat)
    requires pos < n
    ensures pos <= j < n
  {
    pos + rand % (n - pos)
  }

  // The queue after the swaps from position pos on, one for each random number.
  function Shuffled(q: seq<nat>, pos: nat, rands: seq<nat>): (r: seq<nat>)
    requires pos + |rands| < |q| || rands == []
    ensures |r| == |q|
    decreases |rands|
  {
    if rands == [] then q else Shuffled(Swap(q, pos, Chosen(|q|, pos, rands[0])), pos + 1, rands[1..])
  }

  lemma NotShuffled(q: seq<nat>)
    ensures Shuffled(q, 0, []) == q
  {
  }

  lemma {:induction false} ShuffledMore(q: seq<nat>, pos: nat, rands: seq<nat>, rand: nat)
    requires pos + |rands| + 1 < |q|
    ensures Shuffled(q, pos, rands + [rand]) ==
      var r, n := Shuffled(q, pos, rands), pos + |rands|; Swap(r, n, Chosen(|q|, n, rand))
    decreases |rands|
  {
    hide Swap;
    hide Chosen;
    if rands == [] {
      assert ([] + [rand])[1..] == [];
    } else {
      assert (rands + [rand])[1..] == rands[1..] + [rand];
      ShuffledMore(Swap(q, pos, Chosen(|q|, pos, rands[0])), pos + 1, rands[1..], rand);
    }
  }

  // The same numbers in another order, the first n of them in the same one.
  ghost predicate Rearranged(q: seq<nat>, p: seq<nat>, n: nat) {
    && |q| == |p| && n <= |q| && q[..n] == p[..n] && Distinct(q) && Distinct(p)
    && forall k :: k in q <==> k in p
  }

  lemma NextPlace(q: seq<nat>, p: seq<nat>, n: nat) returns (j: nat)
    requires Rearranged(q, p, n) && n < |q|
    ensures n <= j < |q| && q[j] == p[n]
    ensures Rearranged(Swap(q, n, j), p, n + 1)
  {
    assert p[n] in q;
    j :| j < |q| && q[j] == p[n];
    assert forall i :: 0 <= i < n ==> q[..n][i] == q[i] && p[..n][i] == p[i];
    assert j >= n;
    SwapKeeps(q, n, j);
    var r := Swap(q, n, j);
    assert r[..n] == q[..n];
    assert r[..n + 1] == p[..n + 1];
  }

  lemma LastInPlace(q: seq<nat>, p: seq<nat>, n: nat)
    requires Rearranged(q, p, n) && n + 1 >= |q|
    ensures q == p
  {
    if n < |q| {
      var j := NextPlace(q, p, n);
    }
    assert q == q[..n] + q[n..] && p == p[..n] + p[n..];
  }

  lemma ChosenBack(n: nat, pos: nat, j: nat)
    requires pos <= j < n
    ensures Chosen(n, pos, j - pos) == j
  {
  }

  lemma RearrangedSize(q: seq<nat>, p: seq<nat>, n: nat)
    requires Rearranged(q, p, n)
    ensures |q| == |p| && n <= |q|
  {
  }

  // Every arrangement is what some random numbers make of the queue.
  lemma {:induction false} EveryArrangement(q: seq<nat>, p: seq<nat>, pos: nat) returns (rands: seq<nat>)
    requires Rearranged(q, p, pos) && q != []
    ensures pos < |q| ==> |rands| == |q| - 1 - pos
    ensures pos + |rands| < |q| || rands == []
    ensures Shuffled(q, pos, rands) == p
    decreases |q| - pos
  {
    hide Rearranged;
    hide Swap;
    hide Chosen;
    RearrangedSize(q, p, pos);
    if pos + 1 >= |q| {
      LastInPlace(q, p, pos);
      rands := [];
    } else {
      var j := NextPlace(q, p, pos);
      var rest := EveryArrangement(Swap(q, pos, j), p, pos + 1);
      rands := [j - pos] + rest;
      assert rands[1..] == rest;
      ChosenBack(|q|, pos, j);
    }
  }

  // A queue without one of its elements.
  lemma Without(q: seq<nat>, i: nat)
    requires Distinct(q) && i < |q|
    ensures Distinct(q[..i] + q[i + 1..])
    ensures forall k: nat :: k in q[..i] + q[i + 1..] <==> k in q && k != q[i]
  {
    var r := q[..i] + q[i + 1..];
    forall k: nat
      ensures k in r <==> k in q && k != q[i]
    {
      if k in q && k != q[i] {
        var j: nat :| j < |q| && q[j] == k;
        assert r[if j < i then j else j - 1] == k;
      }
    }
  }

  lemma {:induction false} FullCount(q: seq<nat>, n: nat)
    requires Distinct(q) && forall k: nat :: k in q <==> k < n
    ensures |q| == n
  {
    if n > 0 {
      hide Distinct;
      assert n - 1 in q;
      var i: nat :| i < |q| && q[i] == n - 1;
      Without(q, i);
      var r := q[..i] + q[i + 1..];
      forall k: nat
        ensures k in r <==> k < n - 1
      {
        assert k in r <==> k in q && k != n - 1;
      }
      FullCount(r, n - 1);
    } else if q != [] {
      FirstIn(q);
    }
  }

  lemma TailLists(q: seq<nat>, mask: seq<byte>, after: seq<byte>, n: nat)
    requires q != [] && Lists(q, mask, n)
    requires forall k: nat :: InMask(after, n, k) <==> InMask(mask, n, k) && k != q[0]
    ensures Lists(q[1..], after, n)
  {
    forall k: nat
      ensures k in q[1..] <==> k in q && k != q[0]
    {
      if k in q && k != q[0] {
        var j: nat :| j < |q| && q[j] == k;
        assert q[1..][j - 1] == k;
      }
    }
  }

  lemma CollectStep(q: seq<nat>, r: seq<nat>, mask: seq<byte>, pos: nat)
    requires pos < 8 * |mask| && Lists(q, mask, pos)
    requires r == if Bit(mask[pos / 8], pos % 8) then q + [pos] else q
    ensures Lists(r, mask, pos + 1)
  {
    assert !InMask(mask, pos, pos);
    forall k: nat
      ensures k in r <==> InMask(mask, pos + 1, k)
    {
      assert k in q <==> InMask(mask, pos, k);
    }
    forall i, j | 0 <= i < j < |r|
      ensures r[i] != r[j]
    {
      if j == |q| {
        assert q[i] in q;
      }
    }
  }

  // The first n bits of two masks that differ in one bit.
  lemma CutBits(mask: seq<byte>, after: seq<byte>, size: nat, n: nat, v: nat)
    requires n <= size && forall k: nat :: InMask(after, size, k) <==> if k == v then true else InMask(mask, size, k)
    ensures forall k: nat :: InMask(after, n, k) <==> if k == v then v < n else InMask(mask, n, k)
  {
    forall k: nat
      ensures InMask(after, n, k) <==> if k == v then v < n else InMask(mask, n, k)
    {
      assert InMask(after, size, k) <==> if k == v then true else InMask(mask, size, k);
    }
  }

  // The queues of two masks that differ in one bit.
  lemma Relisted(q: seq<nat>, mask: seq<byte>, r: seq<nat>, after: seq<byte>, n: nat, v: nat, on: bool)
    requires Lists(q, mask, n) && Lists(r, after, n)
    requires forall k: nat :: InMask(after, n, k) <==> if k == v then on else InMask(mask, n, k)
    ensures forall k: nat :: k in r <==> if k == v then on else k in q
  {
    forall k: nat
      ensures k in r <==> if k == v then on else k in q
    {
      assert k in q <==> InMask(mask, n, k);
      assert k in r <==> InMask(after, n, k);
    }
  }

  class NanoRandomBox {
    var vMask: seq<byte>
    var vMaskSize: nat
    var vQueue: seq<nat>
    var vLeftInBox: nat

    // The unread part of the queue.
    function Pending(): seq<nat>
      requires vLeftInBox <= |vQueue|
      reads this
    {
      vQueue[|vQueue| - vLeftInBox..]
    }

    ghost predicate Valid()
      reads this
    {
      vMaskSize <= 0xFFFF_FFF8 && vMaskSize <= 8 * |vMask| && vLeftInBox <= |vQueue|
      && Lists(Pending(), vMask, vMaskSize)
    }

    constructor (aCount: nat)
      requires aCount <= 0xFFFF_FFF8
      ensures Valid() && vMaskSize == aCount && vLeftInBox == aCount && vMask == seq(MaskBytes(aCount), _ => 255)
      ensures forall k: nat :: k < aCount ==> InMask(vMask, vMaskSize, k)
    {
      vMask, vMaskSize, vQueue, vLeftInBox := [], 0, [], 0;
      new;
      Init(aCount);
    }

    // All numbers below aCount are in the box. Whole bytes are set, so bits behind the last number are too.
    method Init(aCount: nat)
      requires aCount <= 0xFFFF_FFF8
      modifies this
      ensures Valid() && vMaskSize == aCount && vLeftInBox == aCount
      ensures vMask == if aCount == 0 then old(vMask) else seq(MaskBytes(aCount), _ => 255)
      ensures forall k: nat :: k < aCount ==> InMask(vMask, vMaskSize, k)
    {
      vLeftInBox := aCount;
      vMaskSize := aCount;
      if aCount != 0 {
        vMask := seq(MaskBytes(aCount), _ => 255);
        AllSet(vMask, aCount);
        ghost var ascending, rands := Refresh();
        FullCount(vQueue, aCount);
      }
    }

    method Reset()
      requires Valid()
      modifies this
      ensures Valid() && vMaskSize == old(vMaskSize) && vLeftInBox == vMaskSize
      ensures forall k: nat :: k < vMaskSize ==> InMask(vMask, vMaskSize, k)
    {
      Init(vMaskSize);
    }

    // The numbers of the mask in ascending order.
    method Collect() returns (q: seq<nat>)
      requires vMaskSize <= 8 * |vMask|
      ensures Lists(q, vMask, vMaskSize) && Ascending(q)
    {
      q := [];
      for pos: nat := 0 to vMaskSize
        invariant Lists(q, vMask, pos) && Ascending(q) && forall i :: 0 <= i < |q| ==> q[i] < pos
      {
        ghost var before := q;
        if Bit(vMask[pos / 8], pos % 8) {
          q := q + [pos];
        }
        CollectStep(before, q, vMask, pos);
      }
    }

    // One swap of the shuffle, with a number not yet placed.
    method Swapped(q: seq<nat>, pos: nat, rand: nat) returns (r: seq<nat>)
      requires pos < |q| && Lists(q, vMask, vMaskSize)
      ensures |r| == |q| && Lists(r, vMask, vMaskSize) && r == Swap(q, pos, Chosen(|q|, pos, rand))
    {
      hide Lists;
      hide Distinct;
      r := q;
      var n := pos + rand % (|q| - pos);
      if n != pos {
        SwapLists(q, vMask, vMaskSize, pos, n);
        r := q[pos := q[n]][n := q[pos]];
      }
    }

    // The queue of the numbers of the mask, in an arbitrary order: all, the numbers in ascending order, shuffled
    // by the random numbers rands.
    method Refresh() returns (ghost all: seq<nat>, ghost rands: seq<nat>)
      requires vMaskSize <= 0xFFFF_FFF8 && vMaskSize <= 8 * |vMask|
      modifies this`vQueue, this`vLeftInBox
      ensures Valid() && vLeftInBox == |vQueue|
      ensures Lists(all, vMask, vMaskSize) && Ascending(all)
      ensures |rands| == (if all == [] then 0 else |all| - 1) && vQueue == Shuffled(all, 0, rands)
    {
      hide Lists;
      hide Ascending;
      hide Swap;
      hide Chosen;
      hide Shuffled;
      var q := Collect();
      all, rands := q, [];
      NotShuffled(all);
      if |q| != 0 {
        for pos := 0 to |q| - 1
          invariant |q| == |all| && Lists(q, vMask, vMaskSize)
          invariant |rands| == pos && q == Shuffled(all, 0, rands)
        {
          var rand: nat := *;
          ShuffledMore(all, 0, rands, rand);
          q := Swapped(q, pos, rand);
          rands := rands + [rand];
        }
      }
      vQueue := q;
      vLeftInBox := |vQueue|;
      assert vQueue[0..] == vQueue;
    }

    method IsInBox(aNum: nat) returns (r: bool)
      requires vMaskSize <= 8 * |vMask|
      ensures r == InMask(vMask, vMaskSize, aNum)
      ensures Valid() ==> r == (aNum in Pending())
    {
      r := if aNum < vMaskSize then Bit(vMask[aNum / 8], aNum % 8) else false;
    }

    // A number is removed, whether it was in the box or not; the rest is shuffled anew.
    method TakeNumber(aNum: nat) returns (ok: bool)
      requires Valid()
      modifies this
      ensures Valid() && ok == (aNum < vMaskSize) && vMaskSize == old(vMaskSize)
      ensures forall k: nat :: k in Pending() <==> k in old(Pending()) && k != aNum
    {
      if aNum >= vMaskSize {
        assert !InMask(vMask, vMaskSize, aNum);
        return false;
      }
      ghost var before, mask := Pending(), vMask;
      ghost var after := BitChanged(vMask, vMaskSize, aNum, false);
      vMask := vMask[aNum / 8 := PutBit(vMask[aNum / 8], aNum % 8, false)];
      ghost var ascending, rands := Refresh();
      Relisted(before, mask, Pending(), after, vMaskSize, aNum, false);
      return true;
    }

    // A number beyond the size, for which the mask still has a bit, is not added.
    method RetriveToBox(aNum: nat)
      requires Valid() && aNum / 8 < |vMask|
      modifies this
      ensures Valid() && vMaskSize == old(vMaskSize)
      ensures forall k: nat :: k in Pending() <==> k in old(Pending()) || (k == aNum && aNum < vMaskSize)
    {
      ghost var before, mask := Pending(), vMask;
      ghost var all := BitChanged(vMask, 8 * |vMask|, aNum, true);
      CutBits(mask, all, 8 * |vMask|, vMaskSize, aNum);
      vMask := vMask[aNum / 8 := PutBit(vMask[aNum / 8], aNum % 8, true)];
      ghost var ascending, rands := Refresh();
      Relisted(before, mask, Pending(), all, vMaskSize, aNum, aNum < vMaskSize);
    }

    // The next number of the queue leaves the box; the others keep their order.
    method TakeFromBox() returns (val: nat)
      requires Valid()
      modifies this`vMask, this`vLeftInBox
      ensures Valid()
      ensures old(Pending()) == [] ==> val == NONE && unchanged(this)
      ensures old(Pending()) != [] ==> val == old(Pending())[0] && Pending() == old(Pending())[1..]
    {
      if vLeftInBox == 0 {
        return NONE;
      }
      ghost var before := Pending();
      val := vQueue[|vQueue| - vLeftInBox];
      assert val == before[0] && val in before;
      vLeftInBox := vLeftInBox - 1;
      ghost var after := BitChanged(vMask, vMaskSize, val, false);
      vMask := vMask[val / 8 := PutBit(vMask[val / 8], val % 8, false)];
      TailLists(before, old(vMask), after, vMaskSize);
      assert Pending() == before[1..];
    }

    method Save(a: array<byte>) returns (n: nat)
      requires Valid() && 4 + |vMask| <= a.Length
      modifies a
      ensures n == 4 + |vMask| && Has(a[..], 0, LE32(vMaskSize)) && Has(a[..], 4, vMask)
      ensures forall k :: n <= k < a.Length ==> a[k] == old(a[k])
    {
      hide LE32;
      Store(a, 0, LE32(vMaskSize));
      Store(a, 4, vMask);
      n := 4 + |vMask|;
    }

    // Refused without a change only when even the size is missing; a mask that is cut short is noticed after
    // the size of the box was replaced.
    method Load(b: seq<byte>) returns (r: ReturnCode)
      requires Valid() && (|b| >= 4 ==> U32(b, 0) <= 0xFFFF_FFF8)
      modifies this
      ensures r == RT_OK <==> |b| >= 4 && 4 + MaskBytes(U32(b, 0)) <= |b|
      ensures r == RT_OK ==> Valid() && vMaskSize == U32(b, 0) && vMask == b[4..4 + MaskBytes(vMaskSize)]
      ensures |b| < 4 ==> unchanged(this)
      ensures r != RT_OK && |b| >= 4 ==>
        vMaskSize == U32(b, 0) && vMask == Resized(old(vMask), MaskBytes(U32(b, 0)))
        && vQueue == old(vQueue) && vLeftInBox == old(vLeftInBox)
      ensures r != RT_OK && |b| >= 4 ==> (Valid() <==> SameNumbers(old(vMask), old(vMaskSize), U32(b, 0)))
    {
      hide Lists;
      hide SameNumbers;
      hide Resized;
      if |b| < 4 {
        return RT_INVALID_DATA;
      }
      ghost var n := vMaskSize;
      vMaskSize := U32(b, 0);
      var size := MaskBytes(vMaskSize);
      ListsResized(Pending(), vMask, n, vMaskSize);
      vMask := Resized(vMask, size);
      if size + 4 > |b| {
        return RT_INVALID_DATA;
      }
      vMask := b[4..4 + size];
      ghost var ascending, rands := Refresh();
      return RT_OK;
    }
  }

  lemma OneMore(drawn: seq<nat>, left: seq<nat>)
    requires left != []
    ensures drawn + left == drawn + [left[0]] + left[1..]
  {
  }

  // Drawing until the box is empty gives every number of the box once.
  method DrawAll(box: NanoRandomBox) returns (drawn: seq<nat>)
    requires box.Valid()
    modifies box
    ensures box.Valid() && box.vLeftInBox == 0
    ensures Distinct(drawn) && |drawn| == old(box.vLeftInBox) && drawn == old(box.Pending())
    ensures forall k: nat :: k in drawn <==> InMask(old(box.vMask), old(box.vMaskSize), k)
  {
    hide InMask;
    hide Lists;
    hide Distinct;
    drawn := [];
    ghost var all := box.Pending();
    ListsMeans(all, box.vMask, box.vMaskSize);
    while box.vLeftInBox != 0
      invariant box.Valid() && drawn + box.Pending() == all
      decreases box.vLeftInBox
    {
      ghost var before := box.Pending();
      var val := box.TakeFromBox();
      OneMore(drawn, before);
      drawn := drawn + [val];
    }
    assert drawn + [] == drawn;
  }

  // A saved box is loaded with the same numbers in it.
  lemma SavedBox(b: seq<byte>, mask: seq<byte>, n: nat)
    requires n <= 0xFFFF_FFF8 && n <= 8 * |mask| && Has(b, 0, LE32(n)) && Has(b, 4, mask)
    ensures U32(b, 0) == n && 4 + MaskBytes(n) <= |b|
    ensures forall k: nat :: InMask(b[4..4 + MaskBytes(n)], n, k) <==> InMask(mask, n, k)
  {
    U32OfLE32(b, 0, n);
    assert forall i :: 0 <= i < MaskBytes(n) ==> b[4 + i] == mask[i];
  }

  // A refused load of a smaller size leaves a queue of numbers that the box no longer holds.
  method FailedLoadBreaks() returns (r: ReturnCode, left: nat, size: nat)
    ensures r == RT_INVALID_DATA && left == 24 && size == 1
  {
    var box := new NanoRandomBox(24);
    var b: seq<byte> := [1, 0, 0, 0];
    r := box.Load(b);
    left, size := box.vLeftInBox, box.vMaskSize;
  }

  // A refused load of a greater size puts numbers into the box that no queue holds.
  method FailedLoadGrows() returns (r: ReturnCode, left: nat, five: bool)
    ensures r == RT_INVALID_DATA && left == 1 && five
  {
    OnesBit(8, 5);
    assert Pow2(4) == 16;
    assert Pow2(8) == 256;
    var box := new NanoRandomBox(1);
    var b: seq<byte> := [8, 0, 0, 0];
    r := box.Load(b);
    left := box.vLeftInBox;
    five := box.IsInBox(5);
  }
}
