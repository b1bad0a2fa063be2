// csDataUnPack as a function of the received attributes. Fault stands for reading or writing outside a
// buffer, which csDataUnPack does not check.
module ChunkUnpack {
  import opened Bytes
  import opened Bits
  import opened ChunkLayout

  // An unpacked element: its string value as a C string, and the length recorded for the value.
  datatype Item = Item(attr: Attr, valueSize: u32)

  datatype Outcome = Unpacked(items: seq<Item>) | Invalid | NoMemory | Fault

  predicate HasBit(h: nat, mask: nat)
    requires mask > 0
  {
    h / mask % 2 == 1
  }

  function Wrap32(n: int): u32 {
    n % 0x1_0000_0000
  }

  // strcmp( aAttr.attr_name, s ) == 0
  predicate Named(a: Attr, s: seq<byte>) {
    Trunc(a.name) == s
  }

  // The element at p of a Single or Multiple chunk. The Single branch measures the value from two bytes
  // further left (`extra`).
  function ItemAt(b: seq<byte>, p: nat, isString: bool, extra: nat): Option<Item> {
    if isString then
      if p + 2 > |b| then None else
      match CStr(b, p + U16(b, p))
      case None => None
      case Some(name) => Some(Item(StrAttr(name, Trunc(b[p + 2..])), Wrap32(U16(b, p) - 3 + extra)))
    else
      match CStr(b, p + 4)
      case None => None
      case Some(name) => Some(Item(IntAttr(name, U32(b, p)), 4))
  }

  // Elements j.. of a Multiple chunk of k elements.
  function ItemsFrom(b: seq<byte>, k: nat, j: nat): Option<seq<Item>>
    requires j <= k
    decreases k - j
  {
    if j == k then Some([])
    else if ShiftPos(k, j) + 2 > |b| then None
    else
      TableInside(k, j);
      match ItemAt(b, U16(b, ShiftPos(k, j)), Bit(U16(b, WordPos(j)), j % 16), 0)
      case None => None
      case Some(item) =>
        match ItemsFrom(b, k, j + 1)
        case None => None
        case Some(items) => Some([item] + items)
  }

  predicate IsChunk(a: Attr) {
    a.StrAttr? && |a.text| >= 2
  }

  predicate AllChunks(cs: seq<Attr>) {
    forall i :: 0 <= i < |cs| ==> IsChunk(cs[i])
  }

  datatype Search = Found(j: nat) | Missing | Broken

  // The first attribute from j on whose type word has the last-part bit.
  function FindLast(cs: seq<Attr>, j: nat): (r: Search)
    requires j <= |cs|
    ensures r.Found? ==> j <= r.j < |cs| && AllChunks(cs[j..r.j + 1])
    decreases |cs| - j
  {
    if j == |cs| then Missing
    else if !IsChunk(cs[j]) then Broken
    else if HasBit(U16(cs[j].text, 0), LAST_PART) then Found(j)
    else
      var r := FindLast(cs, j + 1);
      assert r.Found? ==> cs[j..r.j + 1] == [cs[j]] + cs[j + 1..r.j + 1];
      r
  }

  // The parts without their type words.
  function Joined(cs: seq<Attr>): seq<byte>
    requires AllChunks(cs)
  {
    if cs == [] then [] else cs[0].text[2..] + Joined(cs[1..])
  }

  function JoinedItem(b: seq<byte>, isString: bool): Option<Item> {
    if |b| < 4 then None else
    match CStr(b, if isString then U32(b, 0) else 4)
    case None => None
    case Some(name) =>
      if isString then Some(Item(StrAttr(name, Trunc(b[4..])), Wrap32(U32(b, 0) - 5)))
      else Some(Item(IntAttr(name, U32(b, 0)), 4))
  }

  // What one pass of the unpacking loop consumes and yields.
  datatype Pass = Took(chunks: nat, items: seq<Item>) | Stop(outcome: Outcome)

  function TakeSingle(b: seq<byte>, room: nat): Pass
    requires |b| >= 2
  {
    if room == 0 then Stop(Invalid) else
    match ItemAt(b, 2, HasBit(U16(b, 0), ELEMENT_TYPE), 2)
    case None => Stop(Fault)
    case Some(item) => Took(1, [item])
  }

  function TakeMultiple(b: seq<byte>, room: nat): Pass
    requires |b| >= 2
  {
    var k := U16(b, 0) % MAX_COUNT;
    if k > room then Stop(Invalid) else
    match ItemsFrom(b, k, 0)
    case None => Stop(Fault)
    case Some(items) => Took(1, items)
  }

  predicate AllNamed(cs: seq<Attr>, n: nat)
    requires n <= |cs|
  {
    forall i :: 0 <= i < n ==> Named(cs[i], C_NAME)
  }

  function TakeCut(cs: seq<Attr>, room: nat): Pass
    requires cs != [] && IsChunk(cs[0])
  {
    match FindLast(cs, 1)
    case Missing => Stop(Invalid)
    case Broken => Stop(Fault)
    case Found(j) =>
      if !AllNamed(cs, j + 1) then Stop(Invalid) else
      assert cs[..j + 1] == [cs[0]] + cs[1..j + 1];
      var element := Joined(cs[..j + 1]);
      if element == [] then Stop(NoMemory) else
      if room == 0 then Stop(Fault) else
      match JoinedItem(element, HasBit(U16(cs[0].text, 0), ELEMENT_TYPE))
      case None => Stop(Fault)
      case Some(item) => Took(j + 1, [item])
  }

  function TakeNext(cs: seq<Attr>, room: nat): (r: Pass)
    requires cs != []
    ensures r.Took? ==> 1 <= r.chunks <= |cs|
  {
    if !cs[0].StrAttr? || !Named(cs[0], C_NAME) || |cs[0].text| < 2 then Stop(Invalid) else
    var h := U16(cs[0].text, 0);
    if HasBit(h, FIRST_PART) && HasBit(h, LAST_PART) then TakeSingle(cs[0].text, room)
    else if HasBit(h, MULTIPLE) then TakeMultiple(cs[0].text, room)
    else if HasBit(h, FIRST_PART) then TakeCut(cs, room)
    else Stop(Invalid)
  }

  // The unpacking loop over the remaining chunks, with the elements produced so far.
  function UnpackFrom(cs: seq<Attr>, total: nat, done: seq<Item>): Outcome
    requires |done| <= total
    decreases |cs|
  {
    if cs == [] then
      if |done| == total then Unpacked(done) else Invalid
    else
      match TakeNext(cs, total - |done|)
      case Stop(outcome) => outcome
      case Took(n, items) =>
        if |done| + |items| > total then Fault else UnpackFrom(cs[n..], total, done + items)
  }

  // How an attribute that is not packed arrives.
  function Exact(e: Attr): Item
    requires Fits32(e)
  {
    Item(e, if e.StrAttr? then |e.text| else 4)
  }

  predicate IsHeader(a: Attr, name: seq<byte>) {
    a.IntAttr? && Named(a, name)
  }

  datatype Reply = Plain(attrs: seq<Attr>) | Packed(outcome: Outcome)

  function Unpack(msg: seq<Attr>): Reply {
    if |msg| < 1 || !IsHeader(msg[0], T_NAME) then Packed(Invalid)
    else if msg[0].value % 4 == 0 then Plain(msg[1..])
    else if |msg| < 3 || !IsHeader(msg[1], C_NAME) then Packed(Invalid)
    else if |msg| != Wrap32(3 + msg[1].value) || !IsHeader(msg[2], E_NAME) then Packed(Invalid)
    else if msg[2].value == 0 then Packed(NoMemory)
    else Packed(UnpackFrom(msg[3..], msg[2].value, []))
  }

  // ---- what any message can yield ----

  predicate CStringItems(items: seq<Item>) {
    forall i :: 0 <= i < |items| ==> items[i].attr.IsCString()
  }

  lemma ItemIsCString(b: seq<byte>, p: nat, isString: bool, extra: nat)
    requires ItemAt(b, p, isString, extra).Some?
    ensures ItemAt(b, p, isString, extra).value.attr.IsCString()
    ensures ItemAt(b, p, isString, extra).value.attr.StrAttr? == isString
  {
    hide U16;
    hide U32;
  }

  lemma {:induction false} ItemsAreCStrings(b: seq<byte>, k: nat, j: nat)
    requires j <= k && ItemsFrom(b, k, j).Some?
    ensures CStringItems(ItemsFrom(b, k, j).value) && |ItemsFrom(b, k, j).value| == k - j
    decreases k - j
  {
    hide ItemAt;
    hide U16;
    hide Bit;
    if j < k {
      TableInside(k, j);
      ItemIsCString(b, U16(b, ShiftPos(k, j)), Bit(U16(b, WordPos(j)), j % 16), 0);
      ItemsAreCStrings(b, k, j + 1);
    }
  }

  lemma PassIsCStrings(cs: seq<Attr>, room: nat)
    requires cs != [] && TakeNext(cs, room).Took?
    ensures CStringItems(TakeNext(cs, room).items) && |TakeNext(cs, room).items| <= room
  {
    hide ItemAt;
    hide ItemsFrom;
    hide U16;
    hide U32;
    hide HasBit;
    hide Joined;
    hide FindLast;
    var b := cs[0].text;
    var h := U16(b, 0);
    if HasBit(h, FIRST_PART) && HasBit(h, LAST_PART) {
      ItemIsCString(b, 2, HasBit(h, ELEMENT_TYPE), 2);
    } else if HasBit(h, MULTIPLE) {
      ItemsAreCStrings(b, h % MAX_COUNT, 0);
    }
  }

  lemma StopFails(cs: seq<Attr>, room: nat)
    requires cs != [] && TakeNext(cs, room).Stop?
    ensures !TakeNext(cs, room).outcome.Unpacked?
  {
    hide ItemAt;
    hide ItemsFrom;
    hide U16;
    hide U32;
    hide HasBit;
    hide Joined;
    hide FindLast;
  }

  lemma BothCStrings(a: seq<Item>, b: seq<Item>)
    requires CStringItems(a) && CStringItems(b)
    ensures CStringItems(a + b)
  {
  }

  lemma {:induction false} LoopYields(cs: seq<Attr>, total: nat, done: seq<Item>)
    requires |done| <= total && CStringItems(done) && UnpackFrom(cs, total, done).Unpacked?
    ensures var items := UnpackFrom(cs, total, done).items;
      |items| == total && done <= items && CStringItems(items)
    decreases |cs|
  {
    hide TakeNext;
    if cs != [] {
      var pass := TakeNext(cs, total - |done|);
      if pass.Stop? {
        StopFails(cs, total - |done|);
      }
      PassIsCStrings(cs, total - |done|);
      assert pass.Took? && |done| + |pass.items| <= total;
      BothCStrings(done, pass.items);
      LoopYields(cs[pass.chunks..], total, done + pass.items);
    }
  }

  // Whatever message arrives, well formed or not: elements come only out of one with its three announcements,
  // as many as announced, more than none, and with C strings as names and values.
  lemma YieldsAnnounced(msg: seq<Attr>)
    requires Unpack(msg).Packed? && Unpack(msg).outcome.Unpacked?
    ensures |msg| >= 3 && msg[0].IntAttr? && msg[1].IntAttr? && msg[2].IntAttr?
    ensures Trunc(msg[0].name) == [116] && Trunc(msg[1].name) == [99] && Trunc(msg[2].name) == [101]
    ensures msg[0].value % 4 != 0 && |msg| == (3 + msg[1].value) % 0x1_0000_0000
    ensures 0 < |Unpack(msg).outcome.items| == msg[2].value && CStringItems(Unpack(msg).outcome.items)
  {
    hide UnpackFrom;
    LoopYields(msg[3..], msg[2].value, []);
  }
}
