// Writing a name index into a buffer.
module NameSaver {
  import opened Bytes
  import opened NameOrder
  import opened NameImage

  // *reinterpret_cast<uint32_t*>( p ) = n
  method Put32(a: array<byte>, p: nat, n: nat)
    requires p + 4 <= a.Length && n < 0x1_0000_0000
    modifies a
    ensures Is32(a[..], p, n)
    ensures forall k :: 0 <= k < a.Length && !(p <= k < p + 4) ==> a[k] == old(a[k])
  {
    hide LE32;
    Store(a, p, LE32(n));
  }

  // b and c agree on n bytes from p.
  predicate Agree(b: seq<byte>, c: seq<byte>, p: nat, n: nat) {
    |b| == |c| && forall k :: p <= k < p + n && k < |b| ==> b[k] == c[k]
  }

  lemma HasKept(b: seq<byte>, c: seq<byte>, p: nat, s: seq<byte>)
    requires Has(b, p, s) && Agree(b, c, p, |s|)
    ensures Has(c, p, s)
  {
  }

  lemma Kept32(b: seq<byte>, c: seq<byte>, p: nat, n: nat)
    requires Is32(b, p, n) && Agree(b, c, p, 4)
    ensures Is32(c, p, n)
  {
    hide LE32;
    HasKept(b, c, p, LE32(n));
  }

  lemma RecordKept(b: seq<byte>, c: seq<byte>, p: nat, e: Entry)
    requires Record(b, p, e) && Agree(b, c, p, 9 + |e.name|)
    ensures Record(c, p, e)
  {
    hide Is32;
    Kept32(b, c, p, e.id);
    Kept32(b, c, p + 4, |e.name|);
    HasKept(b, c, p + 8, e.name + [0]);
  }

  // An element: id, length, name and terminator. The returned position skips the padding.
  method PutRecord(a: array<byte>, p: nat, e: Entry) returns (next: nat)
    requires p % 4 == 0 && p + 9 + |e.name| <= a.Length && e.id < 0x1_0000_0000 && |e.name| < MAX_NAME
    modifies a
    ensures Record(a[..], p, e) && next == p + Room(e.name)
    ensures forall k :: 0 <= k < a.Length && !(p <= k < p + 9 + |e.name|) ==> a[k] == old(a[k])
  {
    hide Is32;
    hide Align;
    Put32(a, p, e.id);
    ghost var b := a[..];
    Put32(a, p + 4, |e.name|);
    ghost var c := a[..];
    Kept32(b, c, p, e.id);
    next := StoreCString(a, p + 8, e.name);
    Kept32(c, a[..], p, e.id);
    Kept32(c, a[..], p + 4, |e.name|);
    NameStored(a[..], p + 8, e.name);
    AlignShift(p, 9 + |e.name|);
    next := Align(next);
  }

  lemma NameStored(b: seq<byte>, p: nat, s: Name)
    requires p + |s| < |b| && b[p + |s|] == 0 && forall k :: p <= k < p + |s| ==> b[k] == s[k - p]
    ensures Has(b, p, s + [0])
  {
  }

  // ---- one pass of the loop ----

  // Byte k belongs to element i: its two words, its reverse link, its record.
  predicate Owns(index: seq<Entry>, i: nat, k: nat)
    requires i < |index|
  {
    104 + 8 * i <= k < 112 + 8 * i
    || 104 + 8 * |index| + 4 * index[i].id <= k < 108 + 8 * |index| + 4 * index[i].id
    || Off(index, i) <= k < Off(index, i) + 9 + |index[i].name|
  }

  predicate OnlyElement(b: seq<byte>, c: seq<byte>, index: seq<Entry>, i: nat)
    requires i < |index|
  {
    |b| == |c| && forall k :: 0 <= k < |b| && !Owns(index, i, k) ==> b[k] == c[k]
  }

  lemma ElementKept(b: seq<byte>, c: seq<byte>, index: seq<Entry>, reverse: seq<Entry>, j: nat, i: nat)
    requires Sorted(index) && Inverse(index, reverse) && j < i < |index|
    requires HasElement(b, index, j) && OnlyElement(b, c, index, i)
    ensures HasElement(c, index, j)
  {
    hide Is32;
    hide Record;
    hide Off;
    Apart(index, reverse, j, i);
    var p := Off(index, j);
    Kept32(b, c, 104 + 8 * j, index[j].hash);
    Kept32(b, c, 108 + 8 * j, p);
    Kept32(b, c, 104 + 8 * |index| + 4 * index[j].id, p);
    RecordKept(b, c, p, index[j]);
  }

  // Two elements share no byte.
  lemma Apart(index: seq<Entry>, reverse: seq<Entry>, j: nat, i: nat)
    requires Sorted(index) && Inverse(index, reverse) && j < i < |index|
    ensures forall k: nat :: Owns(index, j, k) ==> !Owns(index, i, k)
    ensures index[j].id < |index|
  {
    IdsDistinct(index, reverse, j, i);
    OffOrder(index, j, i);
  }

  method PutElement(a: array<byte>, index: seq<Entry>, i: nat, ptr: nat, fwd: nat, back: nat) returns (ptr': nat, fwd': nat)
    requires i < |index| && ptr == Off(index, i) && fwd == 104 + 8 * i && back == 104 + 8 * |index|
    requires index[i].id < |index| && index[i].hash < 0x1_0000_0000 && |index[i].name| < MAX_NAME
    requires ptr + 9 + |index[i].name| <= a.Length && ptr < 0x1_0000_0000
    requires 104 + 12 * |index| <= ptr
    modifies a
    ensures HasElement(a[..], index, i) && OnlyElement(old(a[..]), a[..], index, i)
    ensures ptr' == Off(index, i + 1) && fwd' == 104 + 8 * (i + 1)
  {
    hide Is32;
    hide Record;
    OffNext(index, i);
    var e := index[i];
    Put32(a, fwd, e.hash);
    ghost var b := a[..];
    Put32(a, fwd + 4, ptr);
    ghost var c := a[..];
    Put32(a, back + 4 * e.id, ptr);
    ghost var d := a[..];
    ptr' := PutRecord(a, ptr, e);
    fwd' := fwd + 8;
    Kept32(b, a[..], fwd, e.hash);
    Kept32(c, a[..], fwd + 4, ptr);
    Kept32(d, a[..], back + 4 * e.id, ptr);
  }

  // ---- the whole index ----

  method PutHeader(a: array<byte>, need: nat, md5: Digest, n: nat, nextId: nat)
    requires 104 <= a.Length && need < 0x1_0000_0000 && 104 + 8 * n < 0x1_0000_0000 && nextId < 0x1_0000_0000
    modifies a
    ensures HasHeader(a[..], need, md5, n, nextId)
    ensures forall k :: 104 <= k < a.Length ==> a[k] == old(a[k])
  {
    hide Is32;
    Put32(a, 0, need);
    ghost var b := a[..];
    Store(a, 4, md5);
    ghost var c := a[..];
    Put32(a, 92, n);
    ghost var d := a[..];
    Put32(a, 96, nextId);
    ghost var e := a[..];
    Put32(a, 100, 104 + 8 * n);
    Kept32(b, a[..], 0, need);
    HasKept(c, a[..], 4, md5);
    Kept32(d, a[..], 92, n);
    Kept32(e, a[..], 96, nextId);
  }

  lemma HeaderKept(b: seq<byte>, c: seq<byte>, need: nat, md5: Digest, n: nat, nextId: nat)
    requires HasHeader(b, need, md5, n, nextId) && Agree(b, c, 0, 104)
    ensures HasHeader(c, need, md5, n, nextId)
  {
    hide Is32;
    Kept32(b, c, 0, need);
    HasKept(b, c, 4, md5);
    Kept32(b, c, 92, n);
    Kept32(b, c, 96, nextId);
    Kept32(b, c, 100, 104 + 8 * n);
  }

  lemma ElementsGrow(b: seq<byte>, c: seq<byte>, index: seq<Entry>, reverse: seq<Entry>, i: nat)
    requires Sorted(index) && Inverse(index, reverse) && i < |index|
    requires HasElements(b, index, i) && OnlyElement(b, c, index, i) && HasElement(c, index, i)
    ensures HasElements(c, index, i + 1)
  {
    hide HasElement;
    hide OnlyElement;
    forall j: nat | j < i
      ensures HasElement(c, index, j)
    {
      ElementKept(b, c, index, reverse, j, i);
    }
  }

  // The elements lie between the header and the trailing size.
  lemma Inside(index: seq<Entry>, reverse: seq<Entry>, i: nat)
    requires Inverse(index, reverse) && i < |index|
    ensures Off(index, i) + 9 + |index[i].name| <= Total(index) - 4
    ensures forall k: nat :: Owns(index, i, k) ==> 104 <= k < Total(index) - 4
    ensures 104 + 12 * |index| <= Total(index) - 4
  {
    OffOrder(index, i, |index|);
    OffLast(index);
  }

  method SaveIndex(a: array<byte>, md5: Digest, index: seq<Entry>, nextId: nat, need: nat, ghost reverse: seq<Entry>)
    requires Sorted(index) && AllGood(index) && Inverse(index, reverse) && nextId == |index|
    requires need == Total(index) <= a.Length && need < 0x1_0000_0000
    modifies a
    ensures SavedAs(a[..], md5, index)
    ensures forall k :: need <= k < a.Length ==> a[k] == old(a[k])
  {
    hide HasElement;
    hide HasHeader;
    assert Off(index, 0) == 104 + 12 * |index|;
    hide RoomOf;
    PutHeader(a, need, md5, |index|, nextId);
    var fwd := 104;
    var back := fwd + 8 * |index|;
    var ptr := back + 4 * |index|;
    for i := 0 to |index|
      invariant ptr == Off(index, i) && fwd == 104 + 8 * i
      invariant HasHeader(a[..], need, md5, |index|, nextId) && HasElements(a[..], index, i)
      invariant forall k :: need <= k < a.Length ==> a[k] == old(a[k])
    {
      ghost var b := a[..];
      Inside(index, reverse, i);
      ptr, fwd := PutElement(a, index, i, ptr, fwd, back);
      HeaderKept(b, a[..], need, md5, |index|, nextId);
      ElementsGrow(b, a[..], index, reverse, i);
    }
    ghost var b := a[..];
    OffLast(index);
    Put32(a, ptr, need);
    TrailerKeeps(b, a[..], need, md5, index, reverse);
  }

  lemma TrailerKeeps(b: seq<byte>, c: seq<byte>, need: nat, md5: Digest, index: seq<Entry>, reverse: seq<Entry>)
    requires Inverse(index, reverse) && need == Total(index)
    requires HasHeader(b, need, md5, |index|, |index|) && HasElements(b, index, |index|)
    requires Agree(b, c, 0, need - 4)
    ensures HasHeader(c, need, md5, |index|, |index|) && HasElements(c, index, |index|)
  {
    hide Off;
    HeaderKept(b, c, need, md5, |index|, |index|);
    forall i: nat | i < |index|
      ensures HasElement(c, index, i)
    {
      Inside(index, reverse, i);
      ElementUntouched(b, c, index, i, need - 4);
    }
  }

  lemma ElementUntouched(b: seq<byte>, c: seq<byte>, index: seq<Entry>, i: nat, n: nat)
    requires i < |index| && HasElement(b, index, i) && Agree(b, c, 0, n)
    requires forall k: nat :: Owns(index, i, k) ==> k < n
    ensures HasElement(c, index, i)
  {
    hide Is32;
    hide Record;
    hide Off;
    var p := Off(index, i);
    assert Owns(index, i, 107 + 8 * i) && Owns(index, i, 111 + 8 * i);
    assert Owns(index, i, 107 + 8 * |index| + 4 * index[i].id) && Owns(index, i, p + 8 + |index[i].name|);
    Kept32(b, c, 104 + 8 * i, index[i].hash);
    Kept32(b, c, 108 + 8 * i, p);
    Kept32(b, c, 104 + 8 * |index| + 4 * index[i].id, p);
    RecordKept(b, c, p, index[i]);
  }
}
