// nMemoryAllocator: sectors of memory in a linked list that is reordered in place.
module MemoryAllocator {
  import opened SectorList

  // A malloc'ed sector: the technical part, and the size of the payload behind it.
  class Sector {
    var next: Sector?
    const size: nat

    constructor (size: nat, next: Sector?)
      ensures this.size == size && this.next == next
    {
      this.size, this.next := size, next;
    }
  }

  // An address in the payload of a sector.
  datatype Pointer = Null | Address(sector: Sector, off: nat)

  function SizesOf(spine: seq<Sector>): (s: seq<nat>)
    ensures |s| == |spine| && forall i :: 0 <= i < |s| ==> s[i] == spine[i].size
  {
    seq(|spine|, i requires 0 <= i < |spine| => spine[i].size)
  }

  // Sector i links to the next one, the last to none.
  ghost predicate Links(spine: seq<Sector>, i: nat)
    requires i < |spine|
    reads spine
  {
    spine[i].next == if i + 1 < |spine| then spine[i + 1] else null
  }

  ghost predicate Linked(spine: seq<Sector>)
    reads spine
  {
    (forall i: nat :: i < |spine| ==> Links(spine, i)) && Distinct(spine)
  }

  lemma NextOf(spine: seq<Sector>, i: nat)
    requires Linked(spine) && i < |spine|
    ensures Links(spine, i)
  {
  }

  lemma LinkedDistinct(spine: seq<Sector>)
    requires Linked(spine)
    ensures Distinct(spine)
  {
  }

  lemma NothingValid()
    ensures Linked([]) && Held([], Arena(SizesOf([]), 0, 0)) && Total(SizesOf([])) == 0
  {
  }

  lemma FitStep(spine: seq<Sector>, j: nat, n: nat)
    requires j < |spine|
    ensures FirstFit(SizesOf(spine), j, n) == if spine[j].size >= n then j else FirstFit(SizesOf(spine), j + 1, n)
  {
  }

  lemma NoneFits(spine: seq<Sector>, j: nat, n: nat)
    requires j <= |spine|
    ensures j == |spine| ==> FirstFit(SizesOf(spine), j, n) == j
  {
  }

  ghost predicate Distinct(spine: seq<Sector>) {
    forall i, j :: 0 <= i < j < |spine| ==> spine[i] != spine[j]
  }

  lemma SizesOfMoved(spine: seq<Sector>, cur: nat, j: nat)
    requires cur < j < |spine|
    ensures SizesOf(Moved(spine, cur, j)) == Moved(SizesOf(spine), cur, j)
  {
  }

  lemma SizesOfGrown(spine: seq<Sector>, cur: nat, x: Sector)
    requires cur < |spine|
    ensures SizesOf(Grown(spine, cur, x)) == Grown(SizesOf(spine), cur, x.size)
  {
  }

  // The in-place relinking: three links change, and the list is the one with sector j behind the current.
  method Relink(current: Sector, prev: Sector, ptr: Sector, ghost spine: seq<Sector>, ghost cur: nat, ghost j: nat)
    requires Linked(spine) && cur + 1 < j < |spine|
    requires current == spine[cur] && prev == spine[j - 1] && ptr == spine[j]
    modifies current, prev, ptr
    ensures Linked(Moved(spine, cur, j))
  {
    NextOf(spine, cur);
    NextOf(spine, j);
    var next, tail := current.next, ptr.next;
    current.next := ptr;
    ptr.next := next;
    prev.next := tail;
    MovedDistinct(spine, cur, j);
    forall i: nat | i < |spine| && i != cur && i != j - 1 && i != j
      ensures Links(spine, i)
    {
      assert old(Links(spine, i));
      assert spine[i] != current && spine[i] != prev && spine[i] != ptr;
    }
    MovedLinks(spine, cur, j);
  }

  lemma MovedAt<T>(s: seq<T>, cur: nat, j: nat, i: nat)
    requires cur < j < |s| && i < |s|
    ensures Moved(s, cur, j)[i] == if i <= cur || i > j then s[i] else if i == cur + 1 then s[j] else s[i - 1]
  {
  }

  lemma MovedDistinct(spine: seq<Sector>, cur: nat, j: nat)
    requires Distinct(spine) && cur < j < |spine|
    ensures Distinct(Moved(spine, cur, j))
  {
    var after := Moved(spine, cur, j);
    forall i, k | 0 <= i < k < |after|
      ensures after[i] != after[k]
    {
      MovedAt(spine, cur, j, i);
      MovedAt(spine, cur, j, k);
    }
  }

  // The links behind the current sector, the moved one and its old predecessor suffice.
  lemma MovedLinks(spine: seq<Sector>, cur: nat, j: nat)
    requires cur + 1 < j < |spine|
    requires forall i: nat :: i < |spine| && i != cur && i != j - 1 && i != j ==> Links(spine, i)
    requires spine[cur].next == spine[j] && spine[j].next == spine[cur + 1]
    requires spine[j - 1].next == if j + 1 < |spine| then spine[j + 1] else null
    ensures forall i: nat :: i < |spine| ==> Links(Moved(spine, cur, j), i)
  {
    var after := Moved(spine, cur, j);
    forall i: nat | i < |spine|
      ensures Links(after, i)
    {
      MovedAt(spine, cur, j, i);
      if i + 1 < |after| {
        MovedAt(spine, cur, j, i + 1);
      }
      var from: nat := if i <= cur || i > j then i else if i == cur + 1 then j else i - 1;
      assert from != cur && from != j - 1 && from != j ==> Links(spine, from);
    }
  }

  lemma GrownAt<T>(s: seq<T>, cur: nat, x: T, i: nat)
    requires cur < |s| && i <= |s|
    ensures Grown(s, cur, x)[i] == if i <= cur then s[i] else if i == cur + 1 then x else s[i - 1]
  {
  }

  lemma GrownLinks(spine: seq<Sector>, cur: nat, x: Sector)
    requires Distinct(spine) && cur < |spine| && x !in spine
    requires forall i: nat :: i < |spine| && i != cur ==> Links(spine, i)
    requires spine[cur].next == x && x.next == if cur + 1 < |spine| then spine[cur + 1] else null
    ensures Linked(Grown(spine, cur, x))
  {
    var after := Grown(spine, cur, x);
    forall i: nat | i < |after|
      ensures Links(after, i)
      ensures forall k :: i < k < |after| ==> after[i] != after[k]
    {
      GrownAt(spine, cur, x, i);
      if i + 1 < |after| {
        GrownAt(spine, cur, x, i + 1);
      }
      var from: nat := if i <= cur then i else i - 1;
      assert i != cur && i != cur + 1 ==> Links(spine, from);
      forall k | i < k < |after|
        ensures after[i] != after[k]
      {
        GrownAt(spine, cur, x, k);
      }
    }
  }

  // SetNextSector: the new sector already links to what follows the current one.
  method Insert(current: Sector, nptr: Sector, ghost spine: seq<Sector>, ghost cur: nat)
    requires Linked(spine) && cur < |spine| && current == spine[cur] && nptr !in spine && nptr.next == current.next
    modifies current
    ensures Linked(Grown(spine, cur, nptr))
  {
    NextOf(spine, cur);
    current.next := nptr;
    forall i: nat | i < |spine| && i != cur
      ensures Links(spine, i)
    {
      assert old(Links(spine, i));
      assert spine[i] != current;
    }
    GrownLinks(spine, cur, nptr);
  }

  lemma MovedInPlace<T>(s: seq<T>, cur: nat, j: nat)
    requires cur + 1 == j < |s|
    ensures Moved(s, cur, j) == s
  {
  }

  lemma TookTotal(a: Arena, n: nat, j: nat, after: seq<nat>, cur: nat)
    requires a.Good() && j <= |a.sectors| && (a.sectors != [] ==> j == FirstFit(a.sectors, a.cur + 1, n))
    requires a.sectors == [] ==> |after| == 1 && cur == 0
    requires a.sectors != [] ==> cur == a.cur + 1
    requires j < |a.sectors| ==> after == Moved(a.sectors, a.cur, j)
    requires j == |a.sectors| != 0 ==> cur < |after| && after == Grown(a.sectors, a.cur, after[cur])
    ensures j < |a.sectors| ==> Total(after) == Total(a.sectors) && after[cur] >= n
    ensures j == |a.sectors| ==> Total(after) == Total(a.sectors) + after[cur] + RESERVED
  {
    hide Moved;
    hide Grown;
    if j < |a.sectors| {
      TotalMoved(a.sectors, a.cur, j);
    } else if a.sectors == [] {
      TotalOne(after[0]);
      assert after == [after[0]];
    } else {
      TotalGrown(a.sectors, a.cur, after[cur]);
    }
  }

  // No sector is lost, and those up to the current one stay where they are.
  ghost predicate Extends(spine: seq<Sector>, cur: nat, after: seq<Sector>) {
    (forall s :: s in spine ==> s in after) && (cur < |spine| ==> cur < |after| && after[..cur + 1] == spine[..cur + 1])
  }

  lemma ExtendsSelf(spine: seq<Sector>, cur: nat)
    ensures Extends(spine, cur, spine)
  {
  }

  lemma MovedExtends(spine: seq<Sector>, cur: nat, j: nat)
    requires cur < j < |spine|
    ensures Extends(spine, cur, Moved(spine, cur, j))
    ensures forall s :: s in Moved(spine, cur, j) ==> s in spine
  {
    hide Moved;
    MovedPieces(spine, cur, j);
  }

  lemma OneLinked(x: Sector)
    requires x.next == null
    ensures Linked([x]) && Extends([], 0, [x])
  {
  }

  lemma GrownExtends(spine: seq<Sector>, cur: nat, x: Sector)
    requires cur < |spine|
    ensures Extends(spine, cur, Grown(spine, cur, x))
    ensures forall s :: s in Grown(spine, cur, x) ==> s in spine || s == x
  {
    assert spine[..cur + 1] + spine[cur + 1..] == spine;
  }

  // Taking a sector, in terms of the sizes alone.
  lemma TookPlaced(a: Arena, n: nat, first: nat, step: nat, malloc: bool, j: nat, ok: bool, after: seq<nat>, cur: nat)
    requires a.Good() && Sizes(first, step) && (a.sectors == [] || n > a.sectors[a.cur] - a.used)
    requires if a.sectors == [] then j == 0 else j == FirstFit(a.sectors, a.cur + 1, n)
    requires ok == (j < |a.sectors| || (!OverLimit(n, Total(a.sectors)) && malloc))
    requires ok && a.sectors == [] ==> after == [FirstPayload(n, first)] && cur == 0
    requires ok && a.sectors != [] ==> cur == a.cur + 1
    requires j < |a.sectors| ==> after == Moved(a.sectors, a.cur, j)
    requires ok && j == |a.sectors| && a.sectors != [] ==>
      after == Grown(a.sectors, a.cur, NextPayload(n, Total(a.sectors), step))
    ensures Placed(a, n, first, step, malloc) == if ok then Given(Arena(after, cur, n), Spot(cur, 0, n)) else Denied
  {
    assert Total([]) == 0;
    hide Total;
    hide FirstFit;
    hide NextPayload;
    hide FirstPayload;
  }

  class MemoryAllocator {
    var vFirstSector: Sector?
    var vCurrentSector: Sector?
    // vFreeMemory, as an offset into the payload of the current sector
    var vFree: nat
    var vAllocatedMemory: nat
    var vFirstSectorSize: nat
    var vSectorSize: nat
    var vFullAllocatedMemorySize: nat
    ghost var spine: seq<Sector>
    ghost var cur: nat
    ghost var blocks: seq<Spot>

    ghost function View(): Arena
      reads this
    {
      Arena(SizesOf(spine), cur, if spine == [] then 0 else vFree)
    }

    // The list and its ends.
    ghost predicate Ends()
      reads this, spine
    {
      Linked(spine)
      && if spine == [] then cur == 0 && vCurrentSector == null && vFirstSector == null
         else cur < |spine| && vCurrentSector == spine[cur] && vFirstSector == spine[0]
    }

    ghost predicate Valid()
      reads this, spine
    {
      && Ends() && Sizes(vFirstSectorSize, vSectorSize) && Held(blocks, View())
      && vFullAllocatedMemorySize == Total(SizesOf(spine))
      && vAllocatedMemory == if spine == [] then 0 else spine[cur].size - vFree
    }

    constructor (aFirstSectorSize: nat, aSectorSize: nat)
      requires aFirstSectorSize <= LIMIT && aSectorSize <= LIMIT
      ensures Valid() && View() == Empty && blocks == []
      ensures vSectorSize == if 16 < aSectorSize < LIMIT then aSectorSize else 1000
      ensures vFirstSectorSize == if 16 < aFirstSectorSize < LIMIT then aFirstSectorSize else vSectorSize
    {
      var size := if aSectorSize <= RESERVED || aSectorSize == LIMIT then 1000 else aSectorSize;
      vSectorSize := size;
      vFirstSectorSize := if aFirstSectorSize <= RESERVED || aFirstSectorSize == LIMIT then size else aFirstSectorSize;
      vFirstSector, vCurrentSector, vFree := null, null, 0;
      vAllocatedMemory, vFullAllocatedMemorySize := 0, 0;
      spine, cur, blocks := [], 0, [];
    }

    method SetMemoryStep(aSectorSize: nat)
      requires Valid() && aSectorSize <= LIMIT
      modifies this`vSectorSize
      ensures Valid() && View() == old(View())
      ensures vSectorSize == if RESERVED < aSectorSize < LIMIT then aSectorSize else old(vSectorSize)
    {
      if aSectorSize > RESERVED && aSectorSize != LIMIT {
        vSectorSize := aSectorSize;
      }
    }

    // The search for a sector behind the current one that can hold n bytes.
    method FindFit(n: nat) returns (ptr: Sector?, prev: Sector, ghost j: nat)
      requires Linked(spine) && cur < |spine| && vCurrentSector == spine[cur]
      ensures j == FirstFit(SizesOf(spine), cur + 1, n)
      ensures prev == spine[j - 1] && ptr == if j < |spine| then spine[j] else null
    {
      hide Linked;
      hide SizesOf;
      hide FirstFit;
      prev, j := vCurrentSector, cur + 1;
      NextOf(spine, cur);
      ptr := vCurrentSector.next;
      while ptr != null
        invariant cur < j <= |spine| && prev == spine[j - 1] && ptr == if j < |spine| then spine[j] else null
        invariant FirstFit(SizesOf(spine), cur + 1, n) == FirstFit(SizesOf(spine), j, n)
        decreases |spine| - j
      {
        FitStep(spine, j, n);
        if ptr.size >= n {
          break;
        }
        NextOf(spine, j);
        prev := ptr;
        ptr := ptr.next;
        j := j + 1;
      }
      NoneFits(spine, j, n);
    }

    // A sector of the given payload, behind the current one.
    method AddSector(payload: nat)
      requires Linked(spine)
      requires if spine == [] then cur == 0 && vCurrentSector == null
        else cur < |spine| && vCurrentSector == spine[cur] && vFirstSector == spine[0]
      modifies this`vFirstSector, this`vCurrentSector, this`vFree, this`vAllocatedMemory, this`spine, this`cur
      modifies this`vFullAllocatedMemorySize, spine
      ensures Linked(spine) && cur < |spine| && vCurrentSector == spine[cur] && vFirstSector == spine[0]
      ensures fresh(spine[cur]) && spine[cur].size == payload
      ensures old(spine) == [] ==> spine == [spine[0]] && cur == 0
      ensures old(spine) != [] ==> cur == old(cur) + 1 && spine == Grown(old(spine), old(cur), spine[cur])
      ensures vFree == 0 && vAllocatedMemory == payload
      ensures vFullAllocatedMemorySize == old(vFullAllocatedMemorySize) + payload + RESERVED
      ensures Extends(old(spine), old(cur), spine) && forall s :: s in spine ==> s in old(spine) || fresh(s)
    {
      hide Linked;
      hide Grown;
      hide Extends;
      vFullAllocatedMemorySize := vFullAllocatedMemorySize + payload + RESERVED;
      if vCurrentSector == null {
        var nptr := new Sector(payload, null);
        OneLinked(nptr);
        vCurrentSector, vFirstSector := nptr, nptr;
        spine := [nptr];
      } else {
        var nptr := new Sector(payload, vCurrentSector.next);
        Insert(vCurrentSector, nptr, spine, cur);
        GrownExtends(spine, cur, nptr);
        spine, cur := Grown(spine, cur, nptr), cur + 1;
        vCurrentSector := nptr;
      }
      vFree, vAllocatedMemory := 0, payload;
    }

    // A sector found behind the current one becomes the next and current one.
    method Reuse(ptr: Sector, prev: Sector, ghost j: nat)
      requires Linked(spine) && cur < j < |spine| && vCurrentSector == spine[cur] && vFirstSector == spine[0]
      requires ptr == spine[j] && prev == spine[j - 1]
      modifies this`vCurrentSector, this`vFree, this`vAllocatedMemory, this`spine, this`cur, spine
      ensures Linked(spine) && spine == Moved(old(spine), old(cur), j) && cur == old(cur) + 1
      ensures vCurrentSector == spine[cur] && vFirstSector == spine[0] && vFree == 0 && vAllocatedMemory == ptr.size
      ensures Extends(old(spine), old(cur), spine) && forall s :: s in spine ==> s in old(spine) || fresh(s)
    {
      MovedExtends(spine, cur, j);
      if prev != vCurrentSector {
        Relink(vCurrentSector, prev, ptr, spine, cur, j);
      } else {
        MovedInPlace(spine, cur, j);
      }
      spine, cur := Moved(spine, cur, j), cur + 1;
      vCurrentSector, vFree, vAllocatedMemory := ptr, 0, ptr.size;
    }

    // A further sector with room for n bytes, unless the limit is reached or malloc fails.
    method Obtain(n: nat, malloc: bool) returns (ok: bool)
      requires Ends() && n <= LIMIT && Sizes(vFirstSectorSize, vSectorSize)
      modifies this`vFirstSector, this`vCurrentSector, this`vFree, this`vAllocatedMemory, this`spine, this`cur
      modifies this`vFullAllocatedMemorySize, spine
      ensures ok == (!OverLimit(n, old(vFullAllocatedMemorySize)) && malloc)
      ensures !ok ==> unchanged(this) && unchanged(spine)
      ensures ok ==> Ends() && spine != [] && vFree == 0 && vAllocatedMemory == spine[cur].size >= n && fresh(spine[cur])
      ensures ok && old(spine) == [] ==>
        spine == [spine[0]] && cur == 0 && spine[0].size == FirstPayload(n, vFirstSectorSize)
      ensures ok && old(spine) != [] ==>
        cur == old(cur) + 1 && spine == Grown(old(spine), old(cur), spine[cur])
        && spine[cur].size == NextPayload(n, old(vFullAllocatedMemorySize), vSectorSize)
      ensures ok ==> vFullAllocatedMemorySize == old(vFullAllocatedMemorySize) + spine[cur].size + RESERVED
      ensures Extends(old(spine), old(cur), spine) && forall s :: s in spine ==> s in old(spine) || fresh(s)
    {
      hide Extends;
      hide Linked;
      ExtendsSelf(spine, cur);
      if LIMIT - n <= RESERVED || LIMIT - vFullAllocatedMemorySize <= RESERVED + n || !malloc {
        return false;
      }
      var size;
      if vCurrentSector == null {
        size := if vFirstSectorSize < n + RESERVED then n + RESERVED else vFirstSectorSize;
      } else if vSectorSize < n + RESERVED || LIMIT - vSectorSize <= vFullAllocatedMemorySize {
        size := n + RESERVED;
      } else {
        size := vSectorSize;
      }
      AddSector(size - RESERVED);
      return true;
    }

    // A sector with room for n bytes becomes the current one, if there is one or can be had.
    method TakeSector(n: nat, malloc: bool) returns (ok: bool, ghost j: nat)
      requires Ends() && n <= LIMIT && Sizes(vFirstSectorSize, vSectorSize)
      modifies this`vFirstSector, this`vCurrentSector, this`vFree, this`vAllocatedMemory, this`spine, this`cur
      modifies this`vFullAllocatedMemorySize, spine
      ensures if old(spine) == [] then j == 0 else j == FirstFit(old(SizesOf(spine)), old(cur) + 1, n)
      ensures ok == (j < old(|spine|) || (!OverLimit(n, old(vFullAllocatedMemorySize)) && malloc))
      ensures !ok ==> unchanged(this) && unchanged(spine)
      ensures ok ==> Ends() && spine != [] && vFree == 0 && vAllocatedMemory == spine[cur].size >= n
      ensures ok && old(spine) == [] ==> SizesOf(spine) == [FirstPayload(n, vFirstSectorSize)] && cur == 0
      ensures ok && old(spine) != [] ==> cur == old(cur) + 1
      ensures j < old(|spine|) ==>
        spine == Moved(old(spine), old(cur), j) && vFullAllocatedMemorySize == old(vFullAllocatedMemorySize)
      ensures ok && j == old(|spine|) && old(spine) != [] ==>
        spine == Grown(old(spine), old(cur), spine[cur])
        && spine[cur].size == NextPayload(n, old(vFullAllocatedMemorySize), vSectorSize)
      ensures ok && j == old(|spine|) ==>
        vFullAllocatedMemorySize == old(vFullAllocatedMemorySize) + spine[cur].size + RESERVED && fresh(spine[cur])
      ensures Extends(old(spine), old(cur), spine) && forall s :: s in spine ==> s in old(spine) || fresh(s)
    {
      hide Linked;
      hide FirstPayload;
      hide NextPayload;
      j := 0;
      if vCurrentSector == null {
        ok := Obtain(n, malloc);
        return;
      }
      var ptr, prev;
      ptr, prev, j := FindFit(n);
      if ptr != null {
        Reuse(ptr, prev, j);
        return true, j;
      }
      ok := Obtain(n, malloc);
    }

    // The current sector has room for n bytes, unless there is none that has.
    method MakeRoom(n: nat, malloc: bool) returns (ok: bool)
      requires Valid() && 0 < n <= LIMIT
      modifies this`vFirstSector, this`vCurrentSector, this`vFree, this`vAllocatedMemory, this`spine, this`cur
      modifies this`vFullAllocatedMemorySize, spine
      ensures ok == Placed(old(View()), n, vFirstSectorSize, vSectorSize, malloc).Given?
      ensures !ok ==> unchanged(this) && unchanged(spine)
      ensures ok ==> Ends() && spine != [] && vAllocatedMemory == spine[cur].size - vFree >= n
      ensures ok ==>
        Placed(old(View()), n, vFirstSectorSize, vSectorSize, malloc)
        == Given(Arena(SizesOf(spine), cur, vFree + n), Spot(cur, vFree, n))
      ensures ok ==> vFullAllocatedMemorySize == Total(SizesOf(spine))
      ensures Extends(old(spine), old(cur), spine) && forall s :: s in spine ==> s in old(spine) || fresh(s)
    {
      hide Total;
      hide Linked;
      hide Held;
      hide FirstPayload;
      hide NextPayload;
      hide Extends;
      hide FirstFit;
      hide Moved;
      hide Grown;
      hide OverLimit;
      ghost var a, before := View(), spine;
      ExtendsSelf(spine, cur);
      HeldGood();
      if vCurrentSector == null || n > vAllocatedMemory {
        ghost var j;
        ok, j := TakeSector(n, malloc);
        if j < |before| {
          SizesOfMoved(before, a.cur, j);
        } else if ok && before != [] {
          SizesOfGrown(before, a.cur, spine[cur]);
        }
        if ok {
          TookTotal(a, n, j, SizesOf(spine), cur);
        }
        TookPlaced(a, n, vFirstSectorSize, vSectorSize, malloc, j, ok, SizesOf(spine), cur);
      } else {
        ok := true;
      }
    }

    lemma HeldGood()
      requires Valid()
      ensures View().Good()
    {
    }

    // A pointer to the block the specification grants. Earlier blocks keep their sectors and offsets.
    method Allocate(aSize: nat, malloc: bool) returns (r: Pointer)
      requires Valid() && aSize <= LIMIT
      modifies this, spine
      ensures Valid() && vFirstSectorSize == old(vFirstSectorSize) && vSectorSize == old(vSectorSize)
      ensures Extends(old(spine), old(cur), spine) && forall s :: s in spine ==> s in old(spine) || fresh(s)
      ensures match old(Allocation(View(), aSize, vFirstSectorSize, vSectorSize, malloc))
        case Denied => r == Null && unchanged(this) && unchanged(spine)
        case Given(arena, spot) =>
          View() == arena && blocks == old(blocks) + [spot]
          && spot.pos < |spine| && r == Address(spine[spot.pos], spot.off) && aSize <= spot.len
    {
      hide Linked;
      hide Total;
      hide Placed;
      hide Extends;
      ExtendsSelf(spine, cur);
      if aSize == 0 || LIMIT - aSize <= 4 {
        return Null;
      }
      var n := Rounded(aSize);
      ghost var a, held := View(), blocks;
      HeldGood();
      var ok := MakeRoom(n, malloc);
      if !ok {
        return Null;
      }
      ghost var o := Allocation(a, aSize, vFirstSectorSize, vSectorSize, malloc);
      HeldKept(held, a, aSize, vFirstSectorSize, vSectorSize, malloc);
      r := Address(vCurrentSector, vFree);
      vFree := vFree + n;
      vAllocatedMemory := vAllocatedMemory - n;
      blocks := held + [o.spot];
    }

    // All blocks are given back at once; the sectors stay.
    method Reset()
      requires Valid()
      modifies this`vCurrentSector, this`vFree, this`vAllocatedMemory, this`cur, this`blocks
      ensures Valid() && View() == Rewound(old(View())) && blocks == [] && spine == old(spine)
    {
      vCurrentSector := vFirstSector;
      cur, blocks := 0, [];
      if vCurrentSector != null {
        vFree := 0;
        vAllocatedMemory := vCurrentSector.size;
      } else {
        vAllocatedMemory := 0;
      }
    }

    // Every sector is freed, each once.
    method Free() returns (freed: seq<Sector>)
      requires Valid()
      modifies this
      ensures Valid() && View() == Empty && blocks == [] && vFullAllocatedMemorySize == 0
      ensures freed == old(spine) && Distinct(freed)
    {
      hide Linked;
      hide Held;
      hide Total;
      assert Distinct(spine) by {
        LinkedDistinct(spine);
      }
      var ptr := vFirstSector;
      freed := [];
      while ptr != null
        invariant |freed| <= |spine| && freed == spine[..|freed|]
        invariant ptr == if |freed| < |spine| then spine[|freed|] else null
        decreases |spine| - |freed|
        modifies {}
      {
        NextOf(spine, |freed|);
        var cur := ptr;
        ptr := ptr.next;
        freed := freed + [cur];
      }
      vFirstSector, vCurrentSector := null, null;
      vFullAllocatedMemorySize, vAllocatedMemory := 0, 0;
      assert spine[..|spine|] == spine;
      spine, cur, blocks := [], 0, [];
      NothingValid();
    }
  }
}
