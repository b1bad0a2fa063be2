// The saved form of a name index, and its reading in place.
module NameImage {
  import opened Bytes
  import opened NameOrder

  const MIN_MEMORY := 108

  // ---- the accessors of a saved index ----

  function ROIndexSize(b: seq<byte>): nat
    requires |b| >= MIN_MEMORY
  {
    U32(b, 92)
  }

  function RONextID(b: seq<byte>): nat
    requires |b| >= MIN_MEMORY
  {
    U32(b, 96)
  }

  function RIndex(b: seq<byte>): nat
    requires |b| >= MIN_MEMORY
  {
    U32(b, 100)
  }

  function ROHashByPos(b: seq<byte>, i: nat): nat
    requires 112 + 8 * i <= |b|
  {
    U32(b, 104 + 8 * i)
  }

  function ElementByPos(b: seq<byte>, i: nat): nat
    requires 112 + 8 * i <= |b|
  {
    U32(b, 108 + 8 * i)
  }

  function ElementByID(b: seq<byte>, id: nat): nat
    requires |b| >= MIN_MEMORY && RIndex(b) + 4 * id + 4 <= |b|
  {
    U32(b, RIndex(b) + 4 * id)
  }

  function ROID(b: seq<byte>, e: nat): nat
    requires e + 8 <= |b|
  {
    U32(b, e)
  }

  function RONameLength(b: seq<byte>, e: nat): nat
    requires e + 8 <= |b|
  {
    U32(b, e + 4)
  }

  // The element at e, with the terminator behind its name, lies in the buffer.
  predicate ElementFits(b: seq<byte>, e: nat) {
    e + 8 <= |b| && e + 8 + RONameLength(b, e) < |b| && b[e + 8 + RONameLength(b, e)] == 0
  }

  function ROName(b: seq<byte>, e: nat): Name
    requires ElementFits(b, e)
  {
    b[e + 8..e + 8 + RONameLength(b, e)]
  }

  predicate PosFits(b: seq<byte>, i: nat) {
    112 + 8 * i <= |b| && ElementFits(b, ElementByPos(b, i))
  }

  predicate IdFits(b: seq<byte>, id: nat) {
    |b| >= MIN_MEMORY && RIndex(b) + 4 * id + 4 <= |b| && ElementFits(b, ElementByID(b, id))
  }

  // Every accessor stays inside the buffer.
  predicate Readable(b: seq<byte>) {
    |b| >= MIN_MEMORY
    && forall i: nat :: i < ROIndexSize(b) ==> PosFits(b, i) && IdFits(b, i)
  }

  function EntryAt(b: seq<byte>, i: nat): Entry
    requires PosFits(b, i)
  {
    var e := ElementByPos(b, i);
    Entry(ROName(b, e), ROHashByPos(b, i), ROID(b, e))
  }

  // The forward index read in place.
  function View(b: seq<byte>): (index: seq<Entry>)
    requires Readable(b)
    ensures |index| == ROIndexSize(b)
    ensures forall i: nat :: i < |index| ==> PosFits(b, i) && index[i] == EntryAt(b, i)
  {
    seq(ROIndexSize(b), i requires 0 <= i < ROIndexSize(b) => EntryAt(b, i))
  }

  function EntryById(b: seq<byte>, id: nat): Name
    requires IdFits(b, id)
  {
    ROName(b, ElementByID(b, id))
  }

  // The buffer reads as the forward index `index`.
  ghost predicate Shows(b: seq<byte>, index: seq<Entry>) {
    Readable(b) && View(b) == index
  }

  function SizeShown(b: seq<byte>, ghost index: seq<Entry>): (n: nat)
    requires Shows(b, index)
    ensures n == |index|
  {
    ROIndexSize(b)
  }

  function HashShown(b: seq<byte>, i: nat, ghost index: seq<Entry>): (h: nat)
    requires Shows(b, index) && i < |index|
    ensures h == index[i].hash
  {
    assert View(b)[i] == EntryAt(b, i);
    ROHashByPos(b, i)
  }

  function NameShown(b: seq<byte>, i: nat, ghost index: seq<Entry>): (s: Name)
    requires Shows(b, index) && i < |index|
    ensures s == index[i].name
  {
    assert View(b)[i] == EntryAt(b, i);
    ROName(b, ElementByPos(b, i))
  }

  function IdShown(b: seq<byte>, i: nat, ghost index: seq<Entry>): (id: nat)
    requires Shows(b, index) && i < |index|
    ensures id == index[i].id
  {
    assert View(b)[i] == EntryAt(b, i);
    ROID(b, ElementByPos(b, i))
  }

  // ---- the two indexes ----

  // The reverse index lists the same entries by id.
  predicate Inverse(index: seq<Entry>, reverse: seq<Entry>) {
    |index| == |reverse|
    && (forall i :: 0 <= i < |index| ==> index[i].id < |reverse| && reverse[index[i].id] == index[i])
    && forall id :: 0 <= id < |reverse| ==> reverse[id].id == id && reverse[id] in index
  }

  lemma EntriesDiffer(index: seq<Entry>, i: nat, j: nat)
    requires Sorted(index) && i < j < |index|
    ensures index[i] != index[j]
  {
    assert K(index, i).Less(K(index, j));
    NotBoth(K(index, i), K(index, j));
  }

  lemma IdsDistinct(index: seq<Entry>, reverse: seq<Entry>, i: nat, j: nat)
    requires Sorted(index) && Inverse(index, reverse) && i < j < |index|
    ensures index[i].id != index[j].id
  {
    EntriesDiffer(index, i, j);
    assert reverse[index[i].id] == index[i] && reverse[index[j].id] == index[j];
  }

  // ---- the layout ----

  function Align(n: nat): (r: nat)
    ensures r % 4 == 0
  {
    if n % 4 == 0 then n else n + (4 - n % 4)
  }

  // Bytes of an element: id, length, name, terminator, padding.
  function Room(name: Name): (r: nat)
    ensures r % 4 == 0
  {
    Align(9 + |name|)
  }

  lemma AlignedSum(a: nat, b: nat)
    ensures a % 4 == 0 ==> (a + b) % 4 == b % 4
  {
    assert a % 4 == 0 ==> a == 4 * (a / 4);
  }

  function RoomOf(index: seq<Entry>): (n: nat)
    ensures n % 4 == 0
  {
    if index == [] then 0
    else
      hide Room;
      var before, last := RoomOf(index[..|index| - 1]), Room(index[|index| - 1].name);
      AlignedSum(before, last);
      before + last
  }

  // The position of element i.
  function Off(index: seq<Entry>, i: nat): (p: nat)
    requires i <= |index|
    ensures p % 4 == 0
  {
    104 + 12 * |index| + RoomOf(index[..i])
  }

  function Total(index: seq<Entry>): nat {
    MIN_MEMORY + 12 * |index| + RoomOf(index)
  }

  lemma OffNext(index: seq<Entry>, i: nat)
    requires i < |index|
    ensures Off(index, i + 1) == Off(index, i) + Room(index[i].name)
  {
    assert index[..i + 1][..i] == index[..i];
  }

  lemma OffLast(index: seq<Entry>)
    ensures Off(index, |index|) + 4 == Total(index)
  {
    assert index[..|index|] == index;
  }

  lemma {:induction false} OffOrder(index: seq<Entry>, i: nat, j: nat)
    requires i < j <= |index|
    ensures Off(index, i) + 9 + |index[i].name| <= Off(index, j)
  {
    OffNext(index, j - 1);
    if i < j - 1 {
      OffOrder(index, i, j - 1);
    }
  }

  lemma {:induction false} RoomConcat(a: seq<Entry>, b: seq<Entry>)
    ensures RoomOf(a + b) == RoomOf(a) + RoomOf(b)
  {
    if b == [] {
      assert a + b == a;
    } else {
      var c := b[..|b| - 1];
      assert (a + b)[..|a + b| - 1] == a + c;
      RoomConcat(a, c);
    }
  }

  function Inserted(index: seq<Entry>, pos: nat, e: Entry): seq<Entry>
    requires pos <= |index|
  {
    index[..pos] + [e] + index[pos..]
  }

  // The bookkeeping of the needed memory, one name at a time.
  lemma TotalInserted(index: seq<Entry>, pos: nat, e: Entry)
    requires pos <= |index|
    ensures Total(Inserted(index, pos, e)) == Align(Total(index) + 21 + |e.name|)
  {
    hide Align;
    hide RoomOf;
    RoomInserted(index, pos, e);
    AlignShift(Total(index) + 12, 9 + |e.name|);
  }

  lemma RoomInserted(index: seq<Entry>, pos: nat, e: Entry)
    requires pos <= |index|
    ensures RoomOf(Inserted(index, pos, e)) == RoomOf(index) + Room(e.name)
  {
    hide RoomOf;
    hide Room;
    var a, b := index[..pos], index[pos..];
    RoomConcat(a, b);
    RoomOfOne(e);
    RoomOfThree(a, [e], b);
    assert a + b == index;
    assert Inserted(index, pos, e) == a + [e] + b;
  }

  lemma RoomOfThree(a: seq<Entry>, m: seq<Entry>, b: seq<Entry>)
    ensures RoomOf(a + m + b) == RoomOf(a) + RoomOf(m) + RoomOf(b)
  {
    hide RoomOf;
    RoomConcat(a + m, b);
    RoomConcat(a, m);
  }

  lemma RoomOfOne(e: Entry)
    ensures RoomOf([e]) == Room(e.name)
  {
    assert [e][..0] == [];
  }

  lemma AlignShift(a: nat, b: nat)
    requires a % 4 == 0
    ensures Align(a + b) == a + Align(b)
  {
    AlignedSum(a, b);
  }

  // ---- the image of an index ----

  type Digest = s: seq<byte> | |s| == 88 witness seq(88, _ => 0)

  predicate Is32(b: seq<byte>, p: nat, n: nat) {
    n < 0x1_0000_0000 && Has(b, p, LE32(n))
  }

  // An element at p: id, length, name, terminator.
  predicate Record(b: seq<byte>, p: nat, e: Entry) {
    Is32(b, p, e.id) && Is32(b, p + 4, |e.name|) && Has(b, p + 8, e.name + [0])
  }

  predicate HasElement(b: seq<byte>, index: seq<Entry>, i: nat)
    requires i < |index|
  {
    var p := Off(index, i);
    Is32(b, 104 + 8 * i, index[i].hash) && Is32(b, 108 + 8 * i, p)
    && Is32(b, 104 + 8 * |index| + 4 * index[i].id, p) && Record(b, p, index[i])
  }

  predicate HasElements(b: seq<byte>, index: seq<Entry>, n: nat)
    requires n <= |index|
  {
    forall i: nat :: i < n ==> HasElement(b, index, i)
  }

  predicate HasHeader(b: seq<byte>, need: nat, md5: Digest, n: nat, nextId: nat) {
    Is32(b, 0, need) && Has(b, 4, md5) && Is32(b, 92, n) && Is32(b, 96, nextId) && Is32(b, 100, 104 + 8 * n)
  }

  predicate SavedAs(b: seq<byte>, md5: Digest, index: seq<Entry>) {
    var need := Total(index);
    HasHeader(b, need, md5, |index|, |index|) && HasElements(b, index, |index|) && Is32(b, need - 4, need)
  }

  lemma Bytes32(b: seq<byte>, p: nat, n: nat)
    requires Is32(b, p, n)
    ensures p + 4 <= |b| && b[p..p + 4] == LE32(n)
  {
  }

  // The image of the index of the name "a", byte by byte except for the two bytes of padding.
  lemma ImageBytes(b: seq<byte>, md5: Digest)
    requires SavedAs(b, md5, [Entry([97], 0x161, 0)])
    ensures |b| >= 132
    ensures b[..4] == [132, 0, 0, 0] && b[4..92] == md5
    ensures b[92..104] == [1, 0, 0, 0, 1, 0, 0, 0, 112, 0, 0, 0]
    ensures b[104..116] == [0x61, 1, 0, 0, 116, 0, 0, 0, 116, 0, 0, 0]
    ensures b[116..126] == [0, 0, 0, 0, 1, 0, 0, 0, 97, 0]
    ensures b[128..132] == [132, 0, 0, 0]
  {
    OneElement();
    hide Total;
    hide Is32;
    hide HasElement;
    HeaderBytes(b, md5);
    ElementBytes(b);
    SmallWords();
    Bytes32(b, 128, 132);
  }

  lemma HasBytes(b: seq<byte>, p: nat, s: seq<byte>)
    requires Has(b, p, s)
    ensures p + |s| <= |b| && b[p..p + |s|] == s
  {
  }

  lemma HeaderBytes(b: seq<byte>, md5: Digest)
    requires HasHeader(b, 132, md5, 1, 1)
    ensures |b| >= 104 && b[..4] == [132, 0, 0, 0] && b[4..92] == md5
    ensures b[92..104] == [1, 0, 0, 0, 1, 0, 0, 0, 112, 0, 0, 0]
  {
    hide Is32;
    hide Has;
    hide LE32;
    SmallWords();
    Bytes32(b, 0, 132);
    HasBytes(b, 4, md5);
    Bytes32(b, 92, 1);
    Bytes32(b, 96, 1);
    Bytes32(b, 100, 112);
    assert b[..4] == b[0..4];
    assert b[92..104] == b[92..96] + b[96..100] + b[100..104];
  }

  lemma ElementBytes(b: seq<byte>)
    requires HasElement(b, [Entry([97], 0x161, 0)], 0)
    ensures |b| >= 126 && b[104..116] == [0x61, 1, 0, 0, 116, 0, 0, 0, 116, 0, 0, 0]
    ensures b[116..126] == [0, 0, 0, 0, 1, 0, 0, 0, 97, 0]
  {
    OneElement();
    hide Off;
    hide Is32;
    hide Has;
    hide LE32;
    SmallWords();
    Bytes32(b, 104, 0x161);
    Bytes32(b, 108, 116);
    Bytes32(b, 112, 116);
    Bytes32(b, 116, 0);
    Bytes32(b, 120, 1);
    HasBytes(b, 124, [97] + [0]);
    assert b[104..116] == b[104..108] + b[108..112] + b[112..116];
    assert b[116..126] == b[116..120] + b[120..124] + b[124..126];
    assert [97] + [0] == [97, 0];
  }

  lemma OneElement()
    ensures Total([Entry([97], 0x161, 0)]) == 132 && Off([Entry([97], 0x161, 0)], 0) == 116
  {
    RoomOfOne(Entry([97], 0x161, 0));
  }

  lemma SmallWords()
    ensures LE32(0) == [0, 0, 0, 0] && LE32(1) == [1, 0, 0, 0] && LE32(112) == [112, 0, 0, 0]
    ensures LE32(116) == [116, 0, 0, 0] && LE32(132) == [132, 0, 0, 0] && LE32(0x161) == [0x61, 1, 0, 0]
  {
  }

  // ---- reading a saved image ----

  lemma Read32(b: seq<byte>, p: nat, n: nat)
    requires Is32(b, p, n)
    ensures p + 4 <= |b| && U32(b, p) == n
  {
    U32OfLE32(b, p, n);
  }

  lemma RecordRead(b: seq<byte>, p: nat, e: Entry)
    requires Record(b, p, e)
    ensures ElementFits(b, p) && ROName(b, p) == e.name && ROID(b, p) == e.id
  {
    Read32(b, p, e.id);
    Read32(b, p + 4, |e.name|);
    TextRead(b, p + 8, e.name);
  }

  lemma TextRead(b: seq<byte>, p: nat, s: Name)
    requires Has(b, p, s + [0])
    ensures p + |s| < |b| && b[p + |s|] == 0 && b[p..p + |s|] == s
  {
    assert (s + [0])[|s|] == 0;
    forall k | 0 <= k < |s|
      ensures b[p + k] == s[k]
    {
      assert (s + [0])[k] == s[k];
    }
  }

  lemma ElementRead(b: seq<byte>, index: seq<Entry>, i: nat)
    requires |b| >= MIN_MEMORY && i < |index| && HasElement(b, index, i) && RIndex(b) == 104 + 8 * |index|
    ensures PosFits(b, i) && IdFits(b, index[i].id)
    ensures EntryAt(b, i) == index[i] && EntryById(b, index[i].id) == index[i].name
    ensures ElementByID(b, index[i].id) == ElementByPos(b, i)
  {
    hide Off;
    hide U32;
    hide Is32;
    hide Record;
    var p := Off(index, i);
    Read32(b, 104 + 8 * i, index[i].hash);
    Read32(b, 108 + 8 * i, p);
    Read32(b, 104 + 8 * |index| + 4 * index[i].id, p);
    RecordRead(b, p, index[i]);
  }

  lemma HeaderRead(b: seq<byte>, need: nat, md5: Digest, n: nat, nextId: nat)
    requires HasHeader(b, need, md5, n, nextId)
    ensures |b| >= 104 && U32(b, 0) == need && b[4..92] == md5
    ensures U32(b, 92) == n && U32(b, 96) == nextId && U32(b, 100) == 104 + 8 * n
  {
    Read32(b, 0, need);
    Read32(b, 92, n);
    Read32(b, 96, nextId);
    Read32(b, 100, 104 + 8 * n);
    assert forall k :: 0 <= k < 88 ==> b[4 + k] == md5[k];
  }

  // A saved index reads back entry by entry, by position and by id.
  lemma SavedReads(b: seq<byte>, md5: Digest, index: seq<Entry>, reverse: seq<Entry>)
    requires SavedAs(b, md5, index) && Inverse(index, reverse)
    ensures Total(index) <= |b| && Readable(b) && View(b) == index
    ensures RONextID(b) == |index| && U32(b, 0) == Total(index) == U32(b, Total(index) - 4) && b[4..92] == md5
    ensures forall id: nat :: id < |reverse| ==> EntryById(b, id) == reverse[id].name
  {
    hide U32;
    hide LE32;
    hide Has;
    HeaderRead(b, Total(index), md5, |index|, |index|);
    Read32(b, Total(index) - 4, Total(index));
    forall i: nat | i < |index|
      ensures PosFits(b, i) && EntryAt(b, i) == index[i]
    {
      ElementRead(b, index, i);
    }
    forall id: nat | id < |reverse|
      ensures IdFits(b, id) && EntryById(b, id) == reverse[id].name
    {
      var i :| 0 <= i < |index| && index[i] == reverse[id];
      ElementRead(b, index, i);
    }
  }

  // ---- two images of one index ----

  // The bytes behind a name up to the next multiple of four, which no save writes.
  predicate Padding(index: seq<Entry>, p: nat) {
    exists i :: 0 <= i < |index| && Off(index, i) + 9 + |index[i].name| <= p < Off(index, i + 1)
  }

  lemma {:induction false} WhichElement(index: seq<Entry>, n: nat, p: nat) returns (i: nat)
    requires n <= |index| && Off(index, 0) <= p < Off(index, n)
    ensures i < n && Off(index, i) <= p < Off(index, i + 1)
  {
    if p < Off(index, n - 1) {
      i := WhichElement(index, n - 1, p);
    } else {
      i := n - 1;
    }
  }

  lemma SameHas(b: seq<byte>, c: seq<byte>, at: nat, s: seq<byte>, p: nat)
    requires Has(b, at, s) && Has(c, at, s) && at <= p < at + |s|
    ensures b[p] == c[p]
  {
    assert b[at + (p - at)] == s[p - at] && c[at + (p - at)] == s[p - at];
  }

  lemma SameElement(b: seq<byte>, c: seq<byte>, at: nat, e: Entry, p: nat)
    requires Record(b, at, e) && Record(c, at, e) && at <= p < at + 9 + |e.name|
    ensures b[p] == c[p]
  {
    if p < at + 4 {
      SameHas(b, c, at, LE32(e.id), p);
    } else if p < at + 8 {
      SameHas(b, c, at + 4, LE32(|e.name|), p);
    } else {
      SameHas(b, c, at + 8, e.name + [0], p);
    }
  }

  lemma SameHeader(b: seq<byte>, c: seq<byte>, need: nat, md5: Digest, n: nat, p: nat)
    requires HasHeader(b, need, md5, n, n) && HasHeader(c, need, md5, n, n) && p < 104
    ensures b[p] == c[p]
  {
    if p < 4 {
      SameHas(b, c, 0, LE32(need), p);
    } else if p < 92 {
      SameHas(b, c, 4, md5, p);
    } else if p < 96 {
      SameHas(b, c, 92, LE32(n), p);
    } else if p < 100 {
      SameHas(b, c, 96, LE32(n), p);
    } else {
      SameHas(b, c, 100, LE32(104 + 8 * n), p);
    }
  }

  lemma SameForward(b: seq<byte>, c: seq<byte>, index: seq<Entry>, p: nat)
    requires HasElements(b, index, |index|) && HasElements(c, index, |index|) && 104 <= p < 104 + 8 * |index|
    ensures p < |b| && p < |c| && b[p] == c[p]
  {
    var i: nat := (p - 104) / 8;
    assert HasElement(b, index, i) && HasElement(c, index, i);
    if p < 108 + 8 * i {
      SameHas(b, c, 104 + 8 * i, LE32(index[i].hash), p);
    } else {
      SameHas(b, c, 108 + 8 * i, LE32(Off(index, i)), p);
    }
  }

  lemma SameReverse(b: seq<byte>, c: seq<byte>, index: seq<Entry>, reverse: seq<Entry>, p: nat)
    requires HasElements(b, index, |index|) && HasElements(c, index, |index|) && Inverse(index, reverse)
    requires 104 + 8 * |index| <= p < 104 + 12 * |index|
    ensures p < |b| && p < |c| && b[p] == c[p]
  {
    var id: nat := (p - 104 - 8 * |index|) / 4;
    assert reverse[id] in index;
    var i: nat :| i < |index| && index[i] == reverse[id];
    assert HasElement(b, index, i) && HasElement(c, index, i);
    SameHas(b, c, 104 + 8 * |index| + 4 * id, LE32(Off(index, i)), p);
  }

  lemma SameRecords(b: seq<byte>, c: seq<byte>, index: seq<Entry>, p: nat)
    requires HasElements(b, index, |index|) && HasElements(c, index, |index|)
    requires Off(index, 0) <= p < Off(index, |index|) && !Padding(index, p)
    ensures p < |b| && p < |c| && b[p] == c[p]
  {
    var i := WhichElement(index, |index|, p);
    assert HasElement(b, index, i) && HasElement(c, index, i);
    SameElement(b, c, Off(index, i), index[i], p);
  }

  // Two images of one index agree on every byte outside the padding.
  lemma SameImage(b: seq<byte>, c: seq<byte>, md5: Digest, index: seq<Entry>, reverse: seq<Entry>, p: nat)
    requires SavedAs(b, md5, index) && SavedAs(c, md5, index) && Inverse(index, reverse)
    requires p < Total(index) && !Padding(index, p)
    ensures p < |b| && p < |c| && b[p] == c[p]
  {
    OffLast(index);
    if p < 104 {
      SameHeader(b, c, Total(index), md5, |index|, p);
    } else if p < 104 + 8 * |index| {
      SameForward(b, c, index, p);
    } else if p < Off(index, 0) {
      SameReverse(b, c, index, reverse, p);
    } else if p < Off(index, |index|) {
      SameRecords(b, c, index, p);
    } else {
      SameHas(b, c, Total(index) - 4, LE32(Total(index)), p);
    }
  }
}
