// csDataPack: the packing loops, writing chunks into buffers whose earlier contents are arbitrary.
module ChunkPack {
  import opened Bytes
  import opened Bits
  import opened AttrSlots
  import opened ChunkLayout
  import opened ChunkSource

  // The element stores shared by CreateChunkSingle and CreateChunkMultiple.
  method StoreElement(a: array<byte>, start: nat, e: Attr) returns (end: nat)
    requires Fits16(e) && start + ContentSize(e) <= a.Length
    modifies a
    ensures end == start + ContentSize(e)
    ensures HoldsAt(a[..], start, e)
    ensures forall k :: 0 <= k < a.Length && !(start <= k < end) ==> a[k] == old(a[k])
  {
    match e
    case StrAttr(name, text) =>
      Store(a, start, LE16(2 + |text| + 1));
      end := StoreCString(a, start + 2, text);
      end := StoreCString(a, end, name);
    case IntAttr(name, value) =>
      Store(a, start, LE32(value));
      end := StoreCString(a, start + 4, name);
  }

  method CreateChunkSingle(e: Attr) returns (chunk: seq<byte>)
    requires 2 + BlockSize(e) <= 0x1_0000
    ensures IsSingle(chunk, e)
  {
    var data := new byte[2 + BlockSize(e)];
    Store(data, 0, LE16(SINGLE + TypeBit(e)));
    var end := StoreElement(data, 2, e);
    chunk := data[..];
    U16OfLE16(chunk, 0, SINGLE + TypeBit(e));
  }

  // b' differs from b only in the word at w, in the word at s and in the n bytes at o.
  predicate OnlyChanged(b: seq<byte>, b': seq<byte>, w: nat, s: nat, o: nat, n: nat) {
    && |b'| == |b|
    && forall k :: 0 <= k < |b| && !(w <= k < w + 2) && !(s <= k < s + 2) && !(o <= k < o + n) ==> b'[k] == b[k]
  }

  // b' is b after the element loop of CreateChunkMultiple stored element i, which is e, at o.
  predicate Stored(b: seq<byte>, b': seq<byte>, i: nat, s: nat, o: nat, e: Attr)
    requires WordPos(i) + 2 <= s && s + 2 <= |b| == |b'|
  {
    && U16(b', WordPos(i)) == PutBit(U16(b, WordPos(i)), i % 16, e.StrAttr?)
    && U16(b', s) == o
    && HoldsAt(b', o, e)
    && OnlyChanged(b, b', WordPos(i), s, o, ContentSize(e))
  }

  lemma StoredIsDescribed(b: seq<byte>, b': seq<byte>, i: nat, s: nat, o: nat, e: Attr)
    requires WordPos(i) + 2 <= s && s + 2 <= |b| == |b'|
    requires Stored(b, b', i, s, o, e)
    ensures Described(b', i, s, o, e)
  {
    PutBitIsBit(U16(b, WordPos(i)), i % 16, e.StrAttr?, i % 16);
  }

  lemma MarkKept(b: seq<byte>, b': seq<byte>, i: nat, s: nat, o: nat, e: Attr, j: nat, isString: bool)
    requires j < i && WordPos(i) + 2 <= s && s + 2 <= o && s + 2 <= |b| == |b'|
    requires Stored(b, b', i, s, o, e) && TypeMarked(b, j, isString)
    ensures TypeMarked(b', j, isString)
  {
    hide WordPos;
    hide PutBit;
    hide Bit;
    hide HoldsAt;
    WordOrder(j, i);
    if WordPos(j) == WordPos(i) {
      PutBitIsBit(U16(b, WordPos(i)), i % 16, e.StrAttr?, j % 16);
    }
  }

  // Two elements share a type word, with different bits, or the earlier one has an earlier word.
  lemma WordOrder(j: nat, i: nat)
    requires j < i
    ensures if WordPos(j) == WordPos(i) then j % 16 != i % 16 else WordPos(j) + 2 <= WordPos(i)
  {
  }

  lemma StoredKeeps(b: seq<byte>, b': seq<byte>, i: nat, s: nat, o: nat, e: Attr, j: nat, sj: nat, oj: nat, ej: Attr)
    requires j < i && WordPos(i) + 2 <= sj && sj + 2 <= s && s + 2 <= oj && s + 2 <= |b| == |b'|
    requires oj + ContentSize(ej) <= o
    requires Stored(b, b', i, s, o, e) && Described(b, j, sj, oj, ej)
    ensures Described(b', j, sj, oj, ej)
  {
    MarkKept(b, b', i, s, o, e, j, ej.StrAttr?);
  }

  lemma PlacedKept(b: seq<byte>, b': seq<byte>, es: seq<Attr>, i: nat, j: nat)
    requires j < i < |es| && Mem(es) <= |b| == |b'|
    requires StoredFor(b, b', es, i)
    requires Placed(b, es, j)
    ensures Placed(b', es, j)
  {
    TableInside(|es|, i);
    TableInside(|es|, j);
    OffInside(es, j);
    BlocksMonotone(es, j + 1, i);
    StoredKeeps(b, b', i, ShiftPos(|es|, i), Off(es, i), es[i], j, ShiftPos(|es|, j), Off(es, j), es[j]);
  }

  predicate StoredFor(b: seq<byte>, b': seq<byte>, es: seq<Attr>, i: nat)
    requires i < |es| && Mem(es) <= |b| == |b'|
  {
    TableInside(|es|, i);
    Stored(b, b', i, ShiftPos(|es|, i), Off(es, i), es[i])
  }

  // The chunk is complete up to element i.
  predicate Prefix(b: seq<byte>, es: seq<Attr>, i: nat)
    requires i <= |es| && |b| >= Base(|es|)
  {
    && U16(b, 0) == MULTIPLE + |es| % MAX_COUNT
    && forall j :: 0 <= j < i ==> Placed(b, es, j)
  }

  lemma PrefixGrows(b: seq<byte>, b': seq<byte>, es: seq<Attr>, i: nat)
    requires i < |es| && Mem(es) <= |b| == |b'|
    requires StoredFor(b, b', es, i) && Prefix(b, es, i)
    ensures Prefix(b', es, i + 1)
  {
    TableInside(|es|, i);
    StoredIsDescribed(b, b', i, ShiftPos(|es|, i), Off(es, i), es[i]);
    forall j | 0 <= j < i ensures Placed(b', es, j) {
      PlacedKept(b, b', es, i, j);
    }
  }

  // An element of a chunk that fits 64 KiB starts and ends inside it.
  lemma ElementInside(es: seq<Attr>, i: nat)
    requires i < |es| && Mem(es) <= 0x1_0000
    ensures Off(es, i) < 0x1_0000 && Fits16(es[i]) && Off(es, i) + ContentSize(es[i]) <= Mem(es)
  {
    OffInside(es, i);
  }

  // The body of the element loop: type bit, offset, element, padding.
  method StorePass(a: array<byte>, i: nat, e: Attr, types: nat, shifts: nat, start: nat) returns (data: nat)
    requires types == 2 && WordPos(i) + 2 <= shifts && shifts + 2 <= start < 0x1_0000 && Fits16(e)
    requires start + ContentSize(e) <= a.Length
    modifies a
    ensures Stored(old(a[..]), a[..], i, shifts, start, e)
    ensures data == start + ContentSize(e) + (start + ContentSize(e)) % 2
  {
    var w := types + 2 * (i / 16);
    var word := PutBit(U16(a[..], w), i % 16, e.StrAttr?);
    PutBit16(U16(a[..], w), i % 16, e.StrAttr?);
    Store(a, w, LE16(word));
    assert U16(a[..], w) == word;
    Store(a, shifts, LE16(start));
    data := StoreElement(a, start, e);
    data := data + data % 2;
  }

  method CreateChunkMultiple(es: seq<Attr>, size: nat) returns (chunk: seq<byte>)
    requires Mem(es) <= size <= 0x1_0000
    ensures |chunk| == size && IsMultiple(chunk, es)
  {
    hide Stored;
    hide Placed;
    hide BlockSize;
    hide ContentSize;
    var a := new byte[size];
    Store(a, 0, LE16(MULTIPLE + |es| % MAX_COUNT));
    U16OfLE16(a[..], 0, MULTIPLE + |es| % MAX_COUNT);
    var types := 2;
    var shifts := ShiftPos(|es|, 0);
    var data := Base(|es|);
    for i := 0 to |es|
      invariant data == Off(es, i) && shifts == ShiftPos(|es|, i)
      invariant Prefix(a[..], es, i)
    {
      ghost var b := a[..];
      TableInside(|es|, i);
      OffInside(es, i);
      ElementInside(es, i);
      RoundedUp(data, es[i]);
      data := StorePass(a, i, es[i], types, shifts, data);
      assert StoredFor(b, a[..], es, i);
      PrefixGrows(b, a[..], es, i);
      shifts := shifts + 2;
    }
    chunk := a[..];
  }

  // ---- cutting one element ----

  // How much of Long(e) lies before the state ( ValueSaved, shift ) of the cutting loop.
  function Written(e: Attr, saved: bool, shift: nat): nat
    requires Fits32(e)
  {
    |Link(e)| + (if saved then |Value(e)| + 1 else 0) + shift
  }

  // Bytes 2..data of a part carry c from position done on.
  predicate Carries(b: seq<byte>, data: nat, c: seq<byte>, done: nat) {
    && 2 <= data <= |b|
    && done + data - 2 <= |c|
    && forall k :: 2 <= k < data ==> b[k] == c[done + k - 2]
  }

  // memcpy of a piece, with the terminator when the rest fits: the value first, then the name.
  method CutPiece(a: array<byte>, start: nat, piece: seq<byte>, shift: nat,
                  ghost c: seq<byte>, ghost done: nat, ghost at: nat)
      returns (data: nat, finished: bool, shift': nat)
    requires start <= a.Length && shift <= |piece|
    requires Carries(a[..], start, c, done) && Has(c, at, piece + [0]) && done + start - 2 == at + shift
    modifies a
    ensures Carries(a[..], data, c, done)
    ensures a[0] == old(a[0]) && a[1] == old(a[1])
    ensures finished == (|piece| + 1 - shift <= a.Length - start)
    ensures finished ==> shift' == 0 && done + data - 2 == at + |piece| + 1
    ensures !finished ==> shift' <= |piece| && data == a.Length && done + data - 2 == at + shift'
  {
    ghost var t := piece + [0];
    if |piece| + 1 - shift <= a.Length - start {
      data := StoreCString(a, start, piece[shift..]);
      finished, shift' := true, 0;
      forall k | start <= k < data ensures a[k] == c[done + k - 2] {
        assert c[at + (k - start + shift)] == t[k - start + shift];
      }
    } else {
      var maxlength := a.Length - start;
      Store(a, start, piece[shift..shift + maxlength]);
      data := start + maxlength;
      finished, shift' := false, shift + maxlength;
      forall k | start <= k < data ensures a[k] == c[done + k - 2] {
        assert c[at + (k - start + shift)] == t[k - start + shift];
      }
    }
  }

  // The type word of a part, and in the first part of a string the link to its name.
  method StartPart(a: array<byte>, e: Attr, n: nat, j: nat, ghost done: nat) returns (data: nat)
    requires Fits32(e) && a.Length >= 2 && (j == 0 ==> a.Length >= 6 && done == 0) && done <= |Long(e)|
    modifies a
    ensures data == 2 + if j == 0 then |Link(e)| else 0
    ensures data <= a.Length && U16(a[..], 0) == PartHeader(n, j, e)
    ensures Carries(a[..], data, Long(e), done)
  {
    Store(a, 0, LE16(PartHeader(n, j, e)));
    U16OfLE16(a[..], 0, PartHeader(n, j, e));
    data := 2;
    if j == 0 && e.StrAttr? {
      LongParts(e);
      Store(a, 2, Link(e));
      data := 6;
    }
  }

  // A part that carries c up to its own end, or up to the end of c, is complete.
  lemma CarriesAll(b: seq<byte>, M: nat, e: Attr, j: nat, data: nat)
    requires 16 <= M && 2 + BlockSize(e) > M && Fits32(e) && j < PartsNum(M, e)
    requires |b| == PartSize(M, e, j) && U16(b, 0) == PartHeader(PartsNum(M, e), j, e)
    requires Carries(b, data, Long(e), Done(M, j))
    requires data == |b| || Done(M, j) + data - 2 == |Long(e)|
    ensures IsPart(b, M, e, j)
  {
    PartLength(M, e, j);
  }

  lemma DoneIs(M: nat, j: nat)
    requires M > 2
    ensures Done(M, j) == j * (M - 2) && Done(M, 0) == 0
  {
  }

  // One pass of the cutting loop: part j, after the state ( saved, shift ).
  method CutPart(M: nat, e: Attr, n: nat, j: nat, saved: bool, shift: nat)
      returns (chunk: seq<byte>, saved': bool, shift': nat)
    requires 16 <= M <= 0x1_0000 && 2 + BlockSize(e) > M && Fits32(e) && j < n == PartsNum(M, e)
    requires shift <= if saved then |e.name| else |Value(e)|
    requires if j == 0 then !saved && shift == 0 else Done(M, j) == Written(e, saved, shift)
    ensures IsPart(chunk, M, e, j)
    ensures j < n - 1 ==> shift' <= if saved' then |e.name| else |Value(e)|
    ensures j < n - 1 ==> Done(M, j + 1) == Written(e, saved', shift')
  {
    hide IsPart;
    hide Carries;
    hide Has;
    hide PartHeader;
    hide PartsNum;
    hide Done;
    hide Long;
    ghost var c, done := Long(e), Done(M, j);
    LongParts(e);
    PartLength(M, e, j);
    DoneIs(M, j);
    var length := if j == n - 1 then BlockSize(e) - j * (M - 2) + 4 else M;
    var a := new byte[length];
    var data := StartPart(a, e, n, j, done);
    saved', shift' := saved, shift;
    if !saved' {
      data, saved', shift' := CutPiece(a, data, Value(e), shift', c, done, |Link(e)|);
    }
    if saved' && a.Length - data > 0 {
      var finished;
      data, finished, shift' := CutPiece(a, data, e.name, shift', c, done, |Link(e)| + |Value(e)| + 1);
    }
    chunk := a[..];
    CarriesAll(chunk, M, e, j, data);
  }

  method CutElement(M: nat, e: Attr) returns (chunks: seq<seq<byte>>)
    requires 16 <= M <= 0x1_0000 && 2 + BlockSize(e) > M && Fits32(e)
    ensures IsCut(chunks, M, e)
  {
    PartsBounds(M, e);
    chunks := [];
    var n := PartsNum(M, e);
    var saved: bool, shift: nat := false, 0;
    for j := 0 to n
      invariant |chunks| == j
      invariant forall i :: 0 <= i < j ==> IsPart(chunks[i], M, e, i)
      invariant j == 0 ==> !saved && shift == 0
      invariant j < n ==> shift <= if saved then |e.name| else |Value(e)|
      invariant 0 < j < n ==> Done(M, j) == Written(e, saved, shift)
    {
      var chunk;
      chunk, saved, shift := CutPart(M, e, n, j, saved, shift);
      chunks := chunks + [chunk];
    }
  }

  // ---- csDataPack ----

  // chunks is a packing of the first `saved` elements: any packing of the rest completes it.
  ghost predicate Packs(M: nat, es: seq<Attr>, saved: nat, chunks: seq<seq<byte>>)
    requires M > 2 && saved <= |es|
  {
    forall rest :: Encodes(M, es[saved..], rest) ==> Encodes(M, es, chunks + rest)
  }

  lemma EncodesStep(M: nat, left: seq<Attr>, more: seq<seq<byte>>, rest: seq<seq<byte>>)
    requires M > 2 && left != [] && |more| == StepChunks(M, left) && Step(M, left, more)
    requires Encodes(M, left[StepSize(M, left)..], rest)
    ensures Encodes(M, left, more + rest)
  {
    assert (more + rest)[..|more|] == more && (more + rest)[|more|..] == rest;
  }

  lemma PacksMore(M: nat, es: seq<Attr>, saved: nat, chunks: seq<seq<byte>>, more: seq<seq<byte>>)
    requires M > 2 && saved < |es| && Packs(M, es, saved, chunks)
    requires |more| == StepChunks(M, es[saved..]) && Step(M, es[saved..], more)
    ensures Packs(M, es, saved + StepSize(M, es[saved..]), chunks + more)
  {
    hide Encodes;
    hide Step;
    var left := es[saved..];
    var k := StepSize(M, left);
    assert left[k..] == es[saved + k..];
    forall rest | Encodes(M, es[saved + k..], rest) ensures Encodes(M, es, chunks + more + rest) {
      EncodesStep(M, left, more, rest);
      assert chunks + (more + rest) == chunks + more + rest;
    }
  }

  lemma PacksNothing(M: nat, es: seq<Attr>)
    requires M > 2
    ensures Packs(M, es, 0, [])
  {
    forall rest | Encodes(M, es[0..], rest) ensures Encodes(M, es, [] + rest) {
      assert es[0..] == es && [] + rest == rest;
    }
  }

  lemma PacksAll(M: nat, es: seq<Attr>, chunks: seq<seq<byte>>)
    requires M > 2 && Packs(M, es, |es|, chunks)
    ensures Encodes(M, es, chunks)
  {
    assert es[|es|..] == [] && chunks + [] == chunks;
    assert Encodes(M, es[|es|..], []);
  }

  // The size loop: how many elements fit into one chunk, and the size of that chunk.
  method CountFitting(M: nat, left: seq<Attr>) returns (count: nat, memory: nat)
    requires left != []
    ensures count == Group(M, left) && memory == Mem(left[..count])
  {
    count := 0;
    memory := 2;
    while count < |left|
      invariant count <= |left| && memory == Mem(left[..count])
      invariant Fit(M, left, count) == Group(M, left)
      decreases |left| - count
    {
      var addmem := if count % 16 == 0 then 2 else 0;
      addmem := addmem + 2;
      addmem := addmem + BlockSize(left[count]);
      MemStep(left, count);
      if memory + addmem > M {
        break;
      }
      memory := memory + addmem;
      count := count + 1;
    }
  }

  // One pass of the outer loop.
  method PackStep(M: nat, left: seq<Attr>) returns (more: seq<seq<byte>>, taken: nat)
    requires 16 <= M <= 0x1_0000 && left != [] && InMemory(left)
    ensures |more| == StepChunks(M, left) && Step(M, left, more) && taken == StepSize(M, left)
  {
    taken := 1;
    var count, memory := CountFitting(M, left);
    FitFits(M, left, 0);
    if count == 0 {
      if 2 + BlockSize(left[0]) <= M {
        var chunk := CreateChunkSingle(left[0]);
        more := [chunk];
      } else {
        EachFits(left, 0);
        more := CutElement(M, left[0]);
      }
    } else if count == 1 {
      AloneFits(left[..1]);
      var chunk := CreateChunkSingle(left[0]);
      more := [chunk];
    } else {
      taken := if count > MAX_COUNT then MAX_COUNT else count;
      MemMonotone(left, taken, count);
      var chunk := CreateChunkMultiple(left[..taken], memory);
      more := [chunk];
    }
  }

  lemma AloneFits(one: seq<Attr>)
    requires |one| == 1
    ensures Mem(one) == 6 + BlockSize(one[0])
  {
    BlocksFirst(one);
    assert one[1..] == [];
  }

  lemma MemMonotone(es: seq<Attr>, k: nat, n: nat)
    requires k <= n <= |es|
    ensures Mem(es[..k]) <= Mem(es[..n])
  {
    BlocksMonotone(es, k, n);
    assert Base(k) <= Base(n);
  }

  method PackAttrs(es: seq<Attr>, M: nat, aDataPackFlags: u32) returns (msg: seq<Attr>)
    requires 16 <= M <= 0x1_0000 && InMemory(es) && PackFlags(aDataPackFlags) % 4 == 3
    ensures IsPacked(M, es, aDataPackFlags, msg)
  {
    hide Packs;
    hide Encodes;
    hide Blocks;
    hide CutsNext;
    var flags := PackFlags(aDataPackFlags);
    if |es| == 0 {
      return [IntAttr(T_NAME, 0)];
    }
    var chunks: seq<seq<byte>> := [];
    var saved := 0;
    PacksNothing(M, es);
    while saved < |es|
      invariant saved <= |es| && Packs(M, es, saved, chunks)
      decreases |es| - saved
    {
      BlocksSplit(es, saved);
      var more, taken := PackStep(M, es[saved..]);
      PacksMore(M, es, saved, chunks, more);
      chunks := chunks + more;
      saved := saved + taken;
    }
    PacksAll(M, es, chunks);
    ChunkCount(M, es, chunks);
    msg := [IntAttr(T_NAME, flags), IntAttr(C_NAME, |chunks|), IntAttr(E_NAME, |es|)] + AsAttrs(chunks);
    assert Announced(chunks, |es|, flags, msg);
  }

  // The chunk limit SetMaxChunkSize stores.
  function ChunkLimit(aNewMaxChunkSize: nat): (M: nat)
    ensures 16 <= M <= 0x1_0000
    ensures 16 <= aNewMaxChunkSize <= 0x1_0000 ==> M == aNewMaxChunkSize
    ensures (aNewMaxChunkSize > 0x1_0000 ==> M == 0x1_0000) && (aNewMaxChunkSize < 16 ==> M == 16)
  {
    if aNewMaxChunkSize > 0x1_0000 then 0x1_0000
    else if aNewMaxChunkSize < 16 then 16
    else aNewMaxChunkSize
  }

  method csDataPack(list: array<RawAttr>, aNewMaxChunkSize: nat, aDataPackFlags: u32) returns (msg: seq<Slot>)
    requires forall i :: 0 <= i < list.Length ==> list[i].InBounds()
    requires forall es :: AllFilledAs(list[..], es) ==> InMemory(es)
    modifies list
    ensures forall i :: 0 <= i < list.Length ==> list[i] == old(list[i]).Verified()
    ensures aDataPackFlags % 4 != 0 ==>
      AllHaveNames(msg)
      && forall es :: AllFilledAs(old(list[..]), es) ==>
           IsPacked(ChunkLimit(aNewMaxChunkSize), es, aDataPackFlags, Attrs(msg))
    ensures aDataPackFlags % 4 == 0 ==>
      |msg| == 1 + list.Length && msg[0] == Slot(IntAttr(T_NAME, aDataPackFlags), true)
      && SlotsOf(old(list[..]), msg[1..])
  {
    hide IsPacked;
    hide RawAttr.Content;
    hide RawAttr.Verified;
    hide FilledAs;
    hide AllFilledAs;
    hide InMemory;
    ghost var before := list[..];
    csVerifyStructure(list);
    ContentsVerified(before, list[..]);
    FilledAlone(before);
    SlotsFilled(before);
    if PackFlags(aDataPackFlags) % 4 != 3 {
      msg := [Slot(IntAttr(T_NAME, aDataPackFlags), true)] + Slots(list[..]);
      assert msg[1..] == Slots(before);
    } else {
      var packed := PackAttrs(Contents(list[..]), ChunkLimit(aNewMaxChunkSize), aDataPackFlags);
      msg := AsSlots(packed);
    }
  }
}
