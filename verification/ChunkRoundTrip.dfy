// What csDataUnPack makes of the output of csDataPack, for every attribute list and every chunk limit.
module ChunkRoundTrip {
  import opened Bytes
  import opened ChunkLayout
  import opened ChunkUnpack

  // ---- one element ----

  lemma HasWithin(b: seq<byte>, p: nat, s: seq<byte>, q: nat, t: seq<byte>)
    requires Has(b, p, s) && Has(s, q, t)
    ensures Has(b, p + q, t)
  {
    forall k | 0 <= k < |t| ensures b[p + q + k] == t[k] {
      assert b[p + (q + k)] == s[q + k];
    }
  }

  lemma StringParts(b: seq<byte>, p: nat, e: Attr)
    requires HoldsAt(b, p, e) && e.StrAttr?
    ensures Has(b, p, LE16(2 + |e.text| + 1))
    ensures Has(b, p + 2, e.text + [0])
    ensures Has(b, p + 3 + |e.text|, e.name + [0])
  {
    HasWithin(b, p, Enc(e), 0, LE16(2 + |e.text| + 1));
    HasWithin(b, p, Enc(e), 2, e.text + [0]);
    HasWithin(b, p, Enc(e), 3 + |e.text|, e.name + [0]);
  }

  lemma IntegerParts(b: seq<byte>, p: nat, e: Attr)
    requires HoldsAt(b, p, e) && e.IntAttr?
    ensures Has(b, p, LE32(e.value))
    ensures Has(b, p + 4, e.name + [0])
  {
    HasWithin(b, p, Enc(e), 0, LE32(e.value));
    HasWithin(b, p, Enc(e), 4, e.name + [0]);
  }

  lemma TruncAt(b: seq<byte>, off: nat, s: seq<byte>)
    requires NoNul(s) && Has(b, off, s + [0])
    ensures off <= |b| && Trunc(b[off..]) == s
  {
    CStrAt(b, off, s);
  }

  lemma StringRead(b: seq<byte>, p: nat, link: nat, name: seq<byte>, text: seq<byte>, extra: nat)
    requires p + 2 <= |b| && U16(b, p) == link == 3 + |text| && extra <= 2
    requires Trunc(b[p + 2..]) == text && CStr(b, p + link) == Some(name)
    ensures ItemAt(b, p, true, extra) == Some(Item(StrAttr(name, text), |text| + extra))
  {
    hide CStr;
    hide Trunc;
    hide U16;
    assert Wrap32(link - 3 + extra) == |text| + extra;
  }

  lemma StringItem(b: seq<byte>, p: nat, e: Attr, extra: nat)
    requires HoldsAt(b, p, e) && e.IsCString() && extra <= 2 && e.StrAttr?
    ensures ItemAt(b, p, true, extra) == Some(Item(e, |e.text| + extra))
  {
    hide ItemAt;
    hide Trunc;
    hide U16;
    hide LE16;
    hide CStr;
    var link := 2 + |e.text| + 1;
    StringParts(b, p, e);
    U16OfLE16(b, p, link);
    TruncAt(b, p + 2, e.text);
    CStrAt(b, p + link, e.name);
    StringRead(b, p, link, e.name, e.text, extra);
  }

  lemma IntegerItem(b: seq<byte>, p: nat, e: Attr, extra: nat)
    requires HoldsAt(b, p, e) && e.IsCString() && e.IntAttr?
    ensures ItemAt(b, p, false, extra) == Some(Item(e, 4))
  {
    IntegerParts(b, p, e);
    U32OfLE32(b, p, e.value);
    CStrAt(b, p + 4, e.name);
  }

  lemma ItemRead(b: seq<byte>, p: nat, e: Attr, extra: nat)
    requires HoldsAt(b, p, e) && e.IsCString() && extra <= 2
    ensures ItemAt(b, p, e.StrAttr?, extra) == Some(Item(e, if e.StrAttr? then |e.text| + extra else 4))
  {
    if e.StrAttr? {
      StringItem(b, p, e, extra);
    } else {
      IntegerItem(b, p, e, extra);
    }
  }

  lemma ExactRead(b: seq<byte>, p: nat, e: Attr)
    requires HoldsAt(b, p, e) && e.IsCString() && Fits32(e)
    ensures ItemAt(b, p, e.StrAttr?, 0) == Some(Exact(e))
  {
    ItemRead(b, p, e, 0);
  }

  // ---- one chunk ----

  lemma TypeBits(h: nat, e: Attr)
    requires h % 0x2000 == 0
    ensures HasBit(h + TypeBit(e), ELEMENT_TYPE) == e.StrAttr?
    ensures HasBit(h + TypeBit(e), LAST_PART) == HasBit(h, LAST_PART)
    ensures HasBit(h + TypeBit(e), FIRST_PART) == HasBit(h, FIRST_PART)
    ensures HasBit(h + TypeBit(e), MULTIPLE) == HasBit(h, MULTIPLE)
  {
    hide HasBit;
    var q, t := h / 0x2000, TypeBit(e);
    LowBit(q, e.StrAttr?);
    HighBit(q, 1, t);
    HighBit(q, 2, t);
    HighBit(q, 4, t);
  }

  lemma LowBit(q: nat, isString: bool)
    ensures HasBit(0x2000 * q + (if isString then 0x1000 else 0), 0x1000) == isString
  {
    Quotient(0x2000 * q + (if isString then 0x1000 else 0), 0x1000, 2 * q + (if isString then 1 else 0), 0);
  }

  // What lies below 0x2000 does not matter to the bits from there on.
  lemma HighBit(q: nat, m: nat, t: nat)
    requires m > 0 && t < 0x2000
    ensures HasBit(0x2000 * q + t, 0x2000 * m) == HasBit(0x2000 * q, 0x2000 * m)
  {
    var a, r := q / m, q % m;
    assert m * a + r == q;
    assert 0x2000 * q == 0x2000 * m * a + 0x2000 * r;
    Quotient(0x2000 * q + t, 0x2000 * m, a, 0x2000 * r + t);
    Quotient(0x2000 * q, 0x2000 * m, a, 0x2000 * r);
  }

  lemma Quotient(n: nat, d: nat, q: nat, r: nat)
    requires d > 0 && n == d * q + r && r < d
    ensures n / d == q
  {
    var k := n / d;
    if k < q {
      MulStep(d, k, q);
    } else if q < k {
      MulStep(d, q, k);
    }
  }

  lemma SingleBits()
    ensures HasBit(SINGLE, FIRST_PART) && HasBit(SINGLE, LAST_PART)
  {
  }

  // A string from a Single chunk is recorded two bytes too long.
  function Measured(e: Attr): Item
    requires Fits32(e)
  {
    Item(e, if e.StrAttr? then |e.text| + 2 else 4)
  }

  lemma SingleRead(b: seq<byte>, e: Attr, room: nat)
    requires IsSingle(b, e) && e.IsCString() && Fits32(e) && room > 0
    ensures TakeSingle(b, room) == Took(1, [Measured(e)])
  {
    TypeBits(SINGLE, e);
    ItemRead(b, 2, e, 2);
  }

  lemma ItemsStep(b: seq<byte>, k: nat, j: nat, o: nat, isString: bool, item: Item, items: seq<Item>)
    requires j < k && ShiftPos(k, j) + 2 <= |b|
    requires WordPos(j) + 2 <= |b| && TypeMarked(b, j, isString)
    requires U16(b, ShiftPos(k, j)) == o && ItemAt(b, o, isString, 0) == Some(item)
    requires ItemsFrom(b, k, j + 1) == Some(items)
    ensures ItemsFrom(b, k, j) == Some([item] + items)
  {
  }

  // The elements of es, all with their exact recorded lengths.
  function Exacts(es: seq<Attr>): (r: seq<Item>)
    requires AllFit(es)
    ensures |r| == |es|
  {
    if es == [] then [] else [Exact(es[0])] + Exacts(es[1..])
  }

  predicate AllFit(es: seq<Attr>) {
    forall i :: 0 <= i < |es| ==> Fits32(es[i])
  }

  lemma {:induction false} ItemsRead(b: seq<byte>, es: seq<Attr>, j: nat)
    requires IsMultiple(b, es) && j <= |es| && CStrings(es) && AllFit(es)
    ensures ItemsFrom(b, |es|, j) == Some(Exacts(es[j..]))
    decreases |es| - j
  {
    if j < |es| {
      TableInside(|es|, j);
      assert Placed(b, es, j);
      ExactRead(b, Off(es, j), es[j]);
      ItemsRead(b, es, j + 1);
      ItemsStep(b, |es|, j, Off(es, j), es[j].StrAttr?, Exact(es[j]), Exacts(es[j + 1..]));
      assert es[j..][1..] == es[j + 1..];
    }
  }

  lemma CountField(n: nat)
    requires n <= MAX_COUNT
    ensures (MULTIPLE + n % MAX_COUNT) % MAX_COUNT == if n == MAX_COUNT then 0 else n
    ensures HasBit(MULTIPLE + n % MAX_COUNT, MULTIPLE)
    ensures !HasBit(MULTIPLE + n % MAX_COUNT, FIRST_PART)
  {
  }

  lemma MultipleRead(b: seq<byte>, es: seq<Attr>, room: nat)
    requires IsMultiple(b, es) && CStrings(es) && AllFit(es) && |es| <= MAX_COUNT && |es| <= room
    ensures TakeMultiple(b, room) == Took(1, if |es| == MAX_COUNT then [] else Exacts(es))
  {
    hide HasBit;
    hide ItemAt;
    hide Exacts;
    hide Placed;
    CountField(|es|);
    if |es| < MAX_COUNT {
      ItemsRead(b, es, 0);
      assert es[0..] == es;
    }
  }

  // ---- an element that was cut ----

  lemma PartBits(n: nat, j: nat, e: Attr)
    requires j < n && n >= 2
    ensures HasBit(PartHeader(n, j, e), LAST_PART) == (j == n - 1)
    ensures !HasBit(PartHeader(n, j, e), MULTIPLE)
    ensures HasBit(PartHeader(n, j, e), FIRST_PART) == (j == 0)
    ensures j == 0 ==> HasBit(PartHeader(n, j, e), ELEMENT_TYPE) == e.StrAttr?
  {
    assert 0x2000 + j % MAX_COUNT < 0x3000;
  }

  lemma AsAttrsSlice(cs: seq<seq<byte>>, i: nat, j: nat)
    requires i <= j <= |cs|
    ensures AsAttrs(cs)[i..j] == AsAttrs(cs[i..j])
  {
    hide AsAttrs;
    var x, y := AsAttrs(cs)[i..j], AsAttrs(cs[i..j]);
    assert |x| == |y| && forall k :: 0 <= k < |x| ==> x[k] == y[k];
  }

  lemma {:induction false} LastFound(cs: seq<seq<byte>>, n: nat, M: nat, e: Attr, j: nat)
    requires n <= |cs| && IsCut(cs[..n], M, e) && 1 <= j <= n - 1
    ensures FindLast(AsAttrs(cs), j) == Found(n - 1)
    decreases n - j
  {
    assert cs[..n][j] == cs[j] && IsPart(cs[..n][j], M, e, j);
    PartBits(n, j, e);
    if j < n - 1 {
      LastFound(cs, n, M, e, j + 1);
    }
  }

  predicate LongEnough(cs: seq<seq<byte>>) {
    forall i :: 0 <= i < |cs| ==> |cs[i]| >= 2
  }

  function Payloads(cs: seq<seq<byte>>): seq<byte>
    requires LongEnough(cs)
  {
    if cs == [] then [] else cs[0][2..] + Payloads(cs[1..])
  }

  lemma {:induction false} JoinedPayloads(cs: seq<seq<byte>>)
    requires LongEnough(cs)
    ensures AllChunks(AsAttrs(cs))
    ensures Joined(AsAttrs(cs)) == Payloads(cs)
  {
    if cs != [] {
      JoinedPayloads(cs[1..]);
      assert AsAttrs(cs)[1..] == AsAttrs(cs[1..]);
    }
  }

  lemma CutIsLong(cs: seq<seq<byte>>, M: nat, e: Attr, j: nat)
    requires IsCut(cs, M, e) && j <= |cs|
    ensures LongEnough(cs[j..])
  {
    forall i | 0 <= i < |cs[j..]| ensures |cs[j..][i]| >= 2 {
      assert IsPart(cs[j + i], M, e, j + i);
    }
  }

  // Joining parts j.. gives the rest of the cut bytes, and behind a string at most one byte, behind an integer
  // at most two.
  lemma {:induction false} PartsJoin(cs: seq<seq<byte>>, M: nat, e: Attr, j: nat)
    requires IsCut(cs, M, e) && j < |cs|
    ensures Done(M, j) < |Long(e)|
    ensures LongEnough(cs[j..]) && Has(Payloads(cs[j..]), 0, Long(e)[Done(M, j)..])
    ensures |Payloads(cs[j..])| == BlockSize(e) + 2 - Done(M, j)
    ensures |Payloads(cs[j..])| <= |Long(e)| - Done(M, j) + if e.StrAttr? then 1 else 2
    decreases |cs| - j
  {
    hide Payloads;
    hide IsCut;
    hide Long;
    hide Has;
    hide BlockSize;
    CutIsLong(cs, M, e, j);
    CutIsLong(cs, M, e, j + 1);
    PartCarries(cs, M, e, j);
    PayloadsHead(cs, j);
    LongRoom(e);
    if j < |cs| - 1 {
      PartsJoin(cs, M, e, j + 1);
      JoinHas(cs[j][2..], Payloads(cs[j + 1..]), Long(e), Done(M, j), Done(M, j + 1));
    }
  }

  lemma PayloadsHead(cs: seq<seq<byte>>, j: nat)
    requires j < |cs| && LongEnough(cs[j..]) && LongEnough(cs[j + 1..]) && |cs[j]| >= 2
    ensures Payloads(cs[j..]) == cs[j][2..] + Payloads(cs[j + 1..])
    ensures j == |cs| - 1 ==> Payloads(cs[j..]) == cs[j][2..]
  {
    var tail := cs[j..];
    assert tail[0] == cs[j] && tail[1..] == cs[j + 1..];
    if j == |cs| - 1 {
      assert Payloads(cs[j + 1..]) == [];
    }
  }

  // A cut element with its link and terminators is longer than its block without padding, but by two at most.
  lemma LongRoom(e: Attr)
    requires Fits32(e)
    ensures BlockSize(e) + 2 <= |Long(e)| + if e.StrAttr? then 1 else 2
  {
    hide Long;
  }

  lemma PartCarries(cs: seq<seq<byte>>, M: nat, e: Attr, j: nat)
    requires IsCut(cs, M, e) && j < |cs|
    ensures M >= 16 && Fits32(e) && |cs[j]| >= 2 && Done(M, j) < |Long(e)|
    ensures j < |cs| - 1 ==> Done(M, j + 1) == Done(M, j) + |cs[j][2..]| <= |Long(e)|
    ensures j < |cs| - 1 ==> forall k :: 0 <= k < |cs[j][2..]| ==> cs[j][2..][k] == Long(e)[Done(M, j) + k]
    ensures j == |cs| - 1 ==>
      |cs[j][2..]| == BlockSize(e) + 2 - Done(M, j) && Has(cs[j][2..], 0, Long(e)[Done(M, j)..])
  {
    hide Long;
    hide Done;
    hide BlockSize;
    assert IsPart(cs[j], M, e, j);
    PartLength(M, e, j);
  }

  lemma JoinHas(first: seq<byte>, rest: seq<byte>, c: seq<byte>, d: nat, d': nat)
    requires d' == d + |first| <= |c|
    requires forall k :: 0 <= k < |first| ==> first[k] == c[d + k]
    requires Has(rest, 0, c[d'..])
    ensures Has(first + rest, 0, c[d..])
  {
    var b, s := first + rest, c[d..];
    forall k | 0 <= k < |s| ensures b[0 + k] == s[k] {
      if k >= |first| {
        assert rest[0 + (k - |first|)] == c[d'..][k - |first|];
      }
    }
  }

  // An integer that was cut comes back without its name.
  function Rejoined(e: Attr): Item
    requires Fits32(e)
  {
    if e.StrAttr? then Exact(e) else Item(IntAttr([], e.value), 4)
  }

  lemma RejoinedString(b: seq<byte>, e: Attr)
    requires Fits32(e) && e.IsCString() && Has(b, 0, Long(e)) && e.StrAttr?
    ensures JoinedItem(b, true) == Some(Exact(e))
  {
    hide U32;
    hide LE32;
    hide CStr;
    hide Trunc;
    hide Has;
    var link := 4 + |e.text| + 1;
    LongParts(e);
    HasWithin(b, 0, Long(e), 0, Link(e));
    U32OfLE32(b, 0, link);
    HasWithin(b, 0, Long(e), 4, e.text + [0]);
    TruncAt(b, 4, e.text);
    HasWithin(b, 0, Long(e), link, e.name + [0]);
    CStrAt(b, link, e.name);
    assert Wrap32(link - 5) == |e.text|;
  }

  lemma RejoinedInteger(b: seq<byte>, e: Attr)
    requires Fits32(e) && Has(b, 0, Long(e)) && e.IntAttr?
    ensures JoinedItem(b, false) == Some(Item(IntAttr([], e.value), 4))
  {
    LongParts(e);
    HasWithin(b, 0, Long(e), 0, Value(e) + [0]);
    HasWithin(b, 0, Value(e) + [0], 0, LE32(e.value));
    U32OfLE32(b, 0, e.value);
    HasWithin(b, 0, Value(e) + [0], 4, [] + [0]);
    CStrAt(b, 4, []);
  }

  lemma RejoinedRead(b: seq<byte>, e: Attr)
    requires Fits32(e) && e.IsCString() && Has(b, 0, Long(e))
    ensures JoinedItem(b, e.StrAttr?) == Some(Rejoined(e))
  {
    if e.StrAttr? {
      RejoinedString(b, e);
    } else {
      RejoinedInteger(b, e);
    }
  }

  // ---- the whole list ----

  lemma AllFits(es: seq<Attr>)
    requires InMemory(es)
    ensures AllFit(es)
  {
    forall i | 0 <= i < |es| ensures Fits32(es[i]) {
      EachFits(es, i);
    }
  }

  // What the unpacker makes of the chunks of one packing step: a Single string is recorded two bytes too
  // long, a cut integer loses its name, and a chunk that is full to the cap says that it holds nothing.
  function StepItems(M: nat, es: seq<Attr>): (r: seq<Item>)
    requires es != [] && AllFit(es)
    ensures |r| <= StepSize(M, es)
  {
    var e := es[0];
    if CutsNext(M, es) then [Rejoined(e)]
    else if Group(M, es) <= 1 then [Measured(e)]
    else if StepSize(M, es) == MAX_COUNT then []
    else Exacts(es[..StepSize(M, es)])
  }

  function Received(M: nat, es: seq<Attr>): (r: seq<Item>)
    requires AllFit(es)
    ensures |r| <= |es|
    decreases |es|
  {
    if es == [] then [] else StepItems(M, es) + Received(M, es[StepSize(M, es)..])
  }

  lemma ChunkNamed(c: seq<byte>)
    ensures Named(StrAttr(C_NAME, c), C_NAME)
  {
    TruncOf(C_NAME, []);
    assert Trunc(C_NAME) == C_NAME;
  }

  // The branch TakeNext takes depends on the type word only.
  lemma Dispatch(list: seq<Attr>, b: seq<byte>, room: nat)
    requires list != [] && list[0] == StrAttr(C_NAME, b) && |b| >= 2
    ensures HasBit(U16(b, 0), FIRST_PART) && HasBit(U16(b, 0), LAST_PART) ==>
      TakeNext(list, room) == TakeSingle(b, room)
    ensures !HasBit(U16(b, 0), FIRST_PART) && HasBit(U16(b, 0), MULTIPLE) ==>
      TakeNext(list, room) == TakeMultiple(b, room)
    ensures HasBit(U16(b, 0), FIRST_PART) && !HasBit(U16(b, 0), LAST_PART) && !HasBit(U16(b, 0), MULTIPLE) ==>
      TakeNext(list, room) == TakeCut(list, room)
  {
    ChunkNamed(b);
  }

  lemma SingleDispatch(list: seq<Attr>, b: seq<byte>, e: Attr, room: nat)
    requires list != [] && list[0] == StrAttr(C_NAME, b) && |b| >= 2
    requires U16(b, 0) == SINGLE + TypeBit(e)
    ensures TakeNext(list, room) == TakeSingle(b, room)
  {
    hide HasBit;
    hide U16;
    hide TakeNext;
    hide TakeSingle;
    TypeBits(SINGLE, e);
    SingleBits();
    Dispatch(list, b, room);
  }

  lemma MultipleDispatch(list: seq<Attr>, b: seq<byte>, k: nat, room: nat)
    requires list != [] && list[0] == StrAttr(C_NAME, b) && |b| >= 2
    requires U16(b, 0) == MULTIPLE + k % MAX_COUNT && k <= MAX_COUNT
    ensures TakeNext(list, room) == TakeMultiple(b, room)
  {
    CountField(k);
    Dispatch(list, b, room);
  }

  lemma CutDispatch(list: seq<Attr>, b: seq<byte>, n: nat, e: Attr, room: nat)
    requires list != [] && list[0] == StrAttr(C_NAME, b) && |b| >= 2
    requires n >= 2 && U16(b, 0) == PartHeader(n, 0, e)
    ensures TakeNext(list, room) == TakeCut(list, room)
  {
    PartBits(n, 0, e);
    Dispatch(list, b, room);
  }

  lemma CutRead(list: seq<Attr>, j: nat, element: seq<byte>, item: Item, room: nat)
    requires 1 <= j < |list| && IsChunk(list[0]) && room > 0
    requires FindLast(list, 1) == Found(j) && AllNamed(list, j + 1)
    requires AllChunks(list[..j + 1]) && Joined(list[..j + 1]) == element != []
    requires JoinedItem(element, HasBit(U16(list[0].text, 0), ELEMENT_TYPE)) == Some(item)
    ensures TakeCut(list, room) == Took(j + 1, [item])
  {
    hide JoinedItem;
    hide FindLast;
    hide U16;
    hide HasBit;
    hide AllNamed;
  }

  lemma CutTaken(M: nat, e: Attr, cs: seq<seq<byte>>, n: nat, room: nat)
    requires 2 <= n <= |cs| && IsCut(cs[..n], M, e) && e.IsCString() && room > 0
    ensures TakeNext(AsAttrs(cs), room) == Took(n, [Rejoined(e)])
  {
    hide TakeNext;
    hide TakeCut;
    hide Joined;
    hide JoinedItem;
    hide FindLast;
    hide PartHeader;
    hide Rejoined;
    hide HasBit;
    var parts, list := cs[..n], AsAttrs(cs);
    forall i | 0 <= i < n ensures Named(list[i], C_NAME) {
      ChunkNamed(cs[i]);
    }
    assert IsPart(parts[0], M, e, 0);
    PartBits(n, 0, e);
    LastFound(cs, n, M, e, 1);
    CutElementRead(M, e, parts);
    AsAttrsSlice(cs, 0, n);
    CutRead(list, n - 1, Joined(AsAttrs(parts)), Rejoined(e), room);
    CutDispatch(list, cs[0], n, e, room);
  }

  lemma CutElementRead(M: nat, e: Attr, parts: seq<seq<byte>>)
    requires parts != [] && IsCut(parts, M, e) && e.IsCString()
    ensures AllChunks(AsAttrs(parts))
    ensures Joined(AsAttrs(parts)) != []
    ensures JoinedItem(Joined(AsAttrs(parts)), e.StrAttr?) == Some(Rejoined(e))
  {
    assert parts[0..] == parts;
    PartsJoin(parts, M, e, 0);
    JoinedPayloads(parts);
    assert Long(e)[Done(M, 0)..] == Long(e);
    RejoinedRead(Joined(AsAttrs(parts)), e);
  }

  lemma StepCut(M: nat, es: seq<Attr>, cs: seq<seq<byte>>, room: nat)
    requires M >= 16 && es != [] && AllFit(es) && CStrings(es) && room >= |es|
    requires StepChunks(M, es) <= |cs| && Step(M, es, cs[..StepChunks(M, es)])
    requires CutsNext(M, es)
    ensures TakeNext(AsAttrs(cs), room) == Took(StepChunks(M, es), StepItems(M, es))
  {
    PartsBounds(M, es[0]);
    CutTaken(M, es[0], cs, StepChunks(M, es), room);
  }

  lemma StepSingle(M: nat, es: seq<Attr>, cs: seq<seq<byte>>, room: nat)
    requires M >= 16 && es != [] && AllFit(es) && CStrings(es) && room >= |es|
    requires cs != [] && Step(M, es, cs[..1])
    requires !CutsNext(M, es) && Group(M, es) <= 1
    ensures TakeNext(AsAttrs(cs), room) == Took(StepChunks(M, es), StepItems(M, es))
  {
    SingleDispatch(AsAttrs(cs), cs[0], es[0], room);
    SingleRead(cs[0], es[0], room);
  }

  lemma StepMultiple(M: nat, es: seq<Attr>, cs: seq<seq<byte>>, room: nat)
    requires M >= 16 && es != [] && AllFit(es) && CStrings(es) && room >= |es|
    requires cs != [] && Step(M, es, cs[..1])
    requires !CutsNext(M, es) && Group(M, es) > 1
    ensures TakeNext(AsAttrs(cs), room) == Took(StepChunks(M, es), StepItems(M, es))
  {
    MultipleDispatch(AsAttrs(cs), cs[0], StepSize(M, es), room);
    MultipleRead(cs[0], es[..StepSize(M, es)], room);
  }

  lemma StepRead(M: nat, es: seq<Attr>, cs: seq<seq<byte>>, room: nat)
    requires M >= 16 && es != [] && AllFit(es) && CStrings(es) && room >= |es|
    requires StepChunks(M, es) <= |cs| && Step(M, es, cs[..StepChunks(M, es)])
    ensures TakeNext(AsAttrs(cs), room) == Took(StepChunks(M, es), StepItems(M, es))
  {
    if CutsNext(M, es) {
      StepCut(M, es, cs, room);
    } else if Group(M, es) <= 1 {
      StepSingle(M, es, cs, room);
    } else {
      StepMultiple(M, es, cs, room);
    }
  }

  // ---- the main results ----

  // The outcome when `items` follow the elements unpacked so far and no chunk is left.
  function Verdict(done: seq<Item>, items: seq<Item>, total: nat): Outcome {
    if |done| + |items| == total then Unpacked(done + items) else Invalid
  }

  lemma VerdictStep(done: seq<Item>, a: seq<Item>, b: seq<Item>, total: nat)
    ensures Verdict(done + a, b, total) == Verdict(done, a + b, total)
  {
    assert done + a + b == done + (a + b);
  }

  lemma Advance(cs: seq<Attr>, rest: seq<Attr>, total: nat, done: seq<Item>, n: nat, items: seq<Item>)
    requires cs != [] && |done| + |items| <= total && 1 <= n <= |cs| && rest == cs[n..|cs|]
    requires TakeNext(cs, total - |done|) == Took(n, items)
    ensures UnpackFrom(cs, total, done) == UnpackFrom(rest, total, done + items)
  {
    assert cs[n..|cs|] == cs[n..];
  }

  // Unpacking any packing of es yields Received( M, es ), or fails when that is not the whole list.
  lemma {:induction false} ChunksDelivered(M: nat, es: seq<Attr>, cs: seq<seq<byte>>, total: nat, done: seq<Item>)
    requires M >= 16 && Encodes(M, es, cs) && AllFit(es) && CStrings(es)
    requires |done| + |es| <= total
    ensures UnpackFrom(AsAttrs(cs), total, done) == Verdict(done, Received(M, es), total)
    decreases |es|
  {
    if es == [] {
      assert done + [] == done;
    } else {
      var k, n, items := StepSize(M, es), StepChunks(M, es), StepItems(M, es);
      DeliveredStep(M, es, cs, total, done);
      ChunksDelivered(M, es[k..], cs[n..], total, done + items);
      VerdictStep(done, items, Received(M, es[k..]), total);
    }
  }

  lemma StepSome(M: nat, es: seq<Attr>, cs: seq<seq<byte>>)
    requires M > 2 && es != [] && Step(M, es, cs)
    ensures StepChunks(M, es) >= 1
  {
    if CutsNext(M, es) {
      PartsBounds(M, es[0]);
    }
  }

  lemma DeliveredStep(M: nat, es: seq<Attr>, cs: seq<seq<byte>>, total: nat, done: seq<Item>)
    requires M >= 16 && es != [] && Encodes(M, es, cs) && AllFit(es) && CStrings(es)
    requires |done| + |es| <= total
    ensures UnpackFrom(AsAttrs(cs), total, done) ==
      UnpackFrom(AsAttrs(cs[StepChunks(M, es)..]), total, done + StepItems(M, es))
  {
    hide Encodes;
    hide Step;
    hide TakeNext;
    hide UnpackFrom;
    hide AsAttrs;
    hide StepItems;
    var n := StepChunks(M, es);
    EncodesHead(M, es, cs);
    StepSome(M, es, cs[..n]);
    StepRead(M, es, cs, total - |done|);
    AsAttrsSlice(cs, n, |cs|);
    assert cs[n..|cs|] == cs[n..];
    Advance(AsAttrs(cs), AsAttrs(cs[n..]), total, done, n, StepItems(M, es));
  }

  lemma Headers()
    ensures Trunc(T_NAME) == T_NAME && Trunc(C_NAME) == C_NAME && Trunc(E_NAME) == E_NAME
  {
    TruncOf(T_NAME, []);
    TruncOf(C_NAME, []);
    TruncOf(E_NAME, []);
  }

  lemma PlainMessage(es: seq<Attr>, flags: u32)
    requires flags % 4 == 0
    ensures Unpack([IntAttr(T_NAME, flags)] + es) == Plain(es)
  {
    Headers();
    assert ([IntAttr(T_NAME, flags)] + es)[1..] == es;
  }

  lemma PackedMessage(cs: seq<seq<byte>>, count: nat, flags: u32, msg: seq<Attr>)
    requires flags % 4 != 0 && count > 0 && Announced(cs, count, flags, msg)
    ensures Unpack(msg) == Packed(UnpackFrom(AsAttrs(cs), count, []))
  {
    Headers();
    assert msg[3..] == AsAttrs(cs) && |msg| == 3 + |cs|;
  }

  lemma PackedDelivered(M: nat, es: seq<Attr>, cs: seq<seq<byte>>, flags: u32, msg: seq<Attr>)
    requires 16 <= M && es != [] && Encodes(M, es, cs) && AllFit(es) && CStrings(es)
    requires flags % 4 != 0 && Announced(cs, |es|, flags, msg)
    ensures Unpack(msg) == Packed(Verdict([], Received(M, es), |es|))
  {
    PackedMessage(cs, |es|, flags, msg);
    ChunksDelivered(M, es, cs, |es|, []);
  }

  // csDataUnPack after csDataPack, for all flags, chunk limits and attribute lists.
  lemma PackUnpack(M: nat, es: seq<Attr>, flags: u32, msg: seq<Attr>)
    requires 16 <= M && IsPacked(M, es, flags, msg) && InMemory(es) && CStrings(es)
    ensures AllFit(es)
    ensures flags % 4 == 0 || es == [] ==> Unpack(msg) == Plain(es)
    ensures flags % 4 != 0 && es != [] ==> Unpack(msg) == Packed(Verdict([], Received(M, es), |es|))
  {
    AllFits(es);
    if flags % 4 == 0 {
      PlainMessage(es, flags);
    } else if es == [] {
      PlainMessage([], 0);
      assert [IntAttr(T_NAME, 0)] + [] == [IntAttr(T_NAME, 0)];
    } else {
      var cs :| Encodes(M, es, cs) && Announced(cs, |es|, PackFlags(flags), msg);
      PackedDelivered(M, es, cs, PackFlags(flags), msg);
    }
  }
}
