// What one insert stores, and what a read of a store answers.
module CacheStore {
  import opened Bytes
  import opened CacheKeys

  type Key = seq<byte>

  const PART := 1_000_000
  const MAX_KEY := 210
  // The largest size whose parts the loop of InsertData counts without overflow.
  const LARGEST := 4_294_000_000

  // A stored value and the flag of the extended protocol.
  datatype Record = Record(value: seq<byte>, extended: bool)

  type Store = map<Key, Record>

  function PartsOf(n: nat): (p: nat)
    ensures n < PART ==> p == 0
    ensures n >= PART ==> (p - 1) * PART < n <= p * PART
  {
    if n < PART then 0 else (n + PART - 1) / PART
  }

  // One call of InsertData, with the process and the second in which it runs.
  datatype Insert = Insert(key: Key, data: seq<byte>, pid: nat, time: nat)
  {
    predicate Legal() {
      |key| <= MAX_KEY && |data| <= LARGEST
    }

    function Base(): Key {
      BaseKey(key, pid, time)
    }

    function Parts(): nat {
      PartsOf(|data|)
    }

    function Part(i: nat): seq<byte>
      requires i < Parts()
    {
      data[i * PART..if (i + 1) * PART < |data| then (i + 1) * PART else |data|]
    }

    // The record written last, under the control key.
    function Control(): Record
      requires Legal()
    {
      if |data| < PART then Record(data, false)
      else Record(LE32(Parts()) + LE32(|data|) + Base(), true)
    }
  }

  // The control record of 1000001 bytes under the key "k": two parts, the size, and the base key. A value of
  // less than a million bytes is stored as it is.
  lemma ControlBytes(data: seq<byte>)
    ensures |data| == 1_000_001 ==>
      Insert([107], data, 12, 345).Control() ==
      Record([2, 0, 0, 0, 0x41, 0x42, 0x0F, 0] + [107, 45, 49, 50, 45, 51, 52, 53, 45], true)
    ensures |data| < 1_000_000 ==> Insert([107], data, 12, 345).Control() == Record(data, false)
    ensures |data| == 1_000_000 ==> Insert([107], data, 12, 345).Parts() == 1
  {
    KeyBytes();
    hide BaseKey;
    assert PartsOf(1_000_001) == 2;
  }

  lemma PartsBound(n: nat)
    requires n <= LARGEST
    ensures PartsOf(n) <= 4294
  {
  }

  // The loop over `part * 1000000` in 32 bits stops behind the last part exactly for sizes up to LARGEST.
  lemma LoopStops(size: nat)
    requires PART <= size < 0x1_0000_0000
    ensures PartsOf(size) * PART % 0x1_0000_0000 >= size <==> size <= LARGEST
    ensures forall part: nat :: part < PartsOf(size) ==> part * PART % 0x1_0000_0000 < size
  {
    forall part: nat | part < PartsOf(size)
      ensures part * PART % 0x1_0000_0000 < size
    {
      assert part * PART <= (PartsOf(size) - 1) * PART;
    }
  }

  // ---- reading ----

  datatype Reply = Found(data: seq<byte>) | NotFound | Corrupt | Overrun

  // A reader between two gets.
  datatype Stage =
    | Begin
    | Reading(parts: nat, size: nat, base: Key, i: nat, acc: seq<byte>)
    | Ended(reply: Reply)

  function Advance(s: Stage): Stage {
    if s.Reading? && s.i >= s.parts then Ended(if |s.acc| == s.size then Found(s.acc) else Corrupt) else s
  }

  // One get of GetData, and what it does up to the next.
  function Get(store: Store, key: Key, s: Stage): Stage {
    match s
    case Begin =>
      if CtlKey(key) !in store then Ended(NotFound) else
      var rec := store[CtlKey(key)];
      if !rec.extended then Ended(Found(rec.value))
      else if |rec.value| < 9 then Ended(Corrupt)
      else Advance(Reading(U32(rec.value, 0), U32(rec.value, 4), rec.value[8..], 0, []))
    case Reading(parts, size, base, i, acc) =>
      var k := PartKey(base, i);
      if k !in store then Ended(NotFound)
      else if |acc| + |store[k].value| > size then Ended(Overrun)
      else Advance(Reading(parts, size, base, i + 1, acc + store[k].value))
    case Ended(_) => s
  }

  function Finish(store: Store, key: Key, s: Stage): Reply
    decreases match s case Begin => 2 case Reading(parts, _, _, i, _) => 1 case Ended(_) => 0,
              if s.Reading? && s.i < s.parts then s.parts - s.i else 0
  {
    match s
    case Ended(reply) => reply
    case Begin => Finish(store, key, Get(store, key, s))
    case Reading(parts, _, _, i, _) =>
      if i >= parts then Corrupt else Finish(store, key, Get(store, key, s))
  }

  // What GetData answers when nobody else touches the store.
  function Answer(store: Store, key: Key): Reply {
    Finish(store, key, Begin)
  }

  // ---- writing ----

  // The store after the first n sets of the parts.
  function PartsSet(store: Store, ins: Insert, n: nat): Store
    requires n <= ins.Parts()
  {
    if n == 0 then store else PartsSet(store, ins, n - 1)[PartKey(ins.Base(), n - 1) := Record(ins.Part(n - 1), false)]
  }

  // The store after the whole insert.
  function Inserted(store: Store, ins: Insert): Store
    requires ins.Legal()
  {
    PartsSet(store, ins, ins.Parts())[CtlKey(ins.key) := ins.Control()]
  }

  // ---- one insert and its reading ----

  lemma PartEnds(ins: Insert, i: nat)
    requires i < ins.Parts()
    ensures i * PART < |ins.data|
    ensures i + 1 < ins.Parts() ==> (i + 1) * PART < |ins.data|
    ensures i + 1 == ins.Parts() ==> (i + 1) * PART >= |ins.data|
  {
  }

  // How far the data reaches with the first i parts.
  function Reach(ins: Insert, i: nat): nat
    requires i <= ins.Parts()
  {
    if i == ins.Parts() then |ins.data| else i * PART
  }

  lemma PartJoins(ins: Insert, i: nat)
    requires i < ins.Parts()
    ensures Reach(ins, i) <= |ins.data| && Reach(ins, i + 1) <= |ins.data|
    ensures ins.data[..Reach(ins, i)] + ins.Part(i) == ins.data[..Reach(ins, i + 1)]
  {
    PartEnds(ins, i);
  }

  // The reader that has the first i parts of an insert.
  function At(ins: Insert, i: nat): Stage
    requires i <= ins.Parts() && Reach(ins, i) <= |ins.data|
  {
    if i == ins.Parts() then Ended(Found(ins.data))
    else Reading(ins.Parts(), |ins.data|, ins.Base(), i, ins.data[..Reach(ins, i)])
  }

  lemma ControlHolds(ins: Insert)
    requires ins.Legal() && |ins.data| >= PART
    ensures var v := ins.Control().value;
      |v| >= 9 && U32(v, 0) == ins.Parts() && U32(v, 4) == |ins.data| && v[8..] == ins.Base()
  {
    var n, m, v := ins.Parts(), |ins.data|, ins.Control().value;
    PartsBound(m);
    assert Has(v, 0, LE32(n)) && Has(v, 4, LE32(m));
    U32OfLE32(v, 0, n);
    U32OfLE32(v, 4, m);
  }

  lemma ControlRead(store: Store, ins: Insert)
    requires ins.Legal() && CtlKey(ins.key) in store && store[CtlKey(ins.key)] == ins.Control()
    ensures Get(store, ins.key, Begin) == if |ins.data| < PART then Ended(Found(ins.data)) else At(ins, 0)
  {
    if |ins.data| >= PART {
      ControlHolds(ins);
      assert ins.data[..0] == [];
    }
  }

  lemma PartRead(store: Store, ins: Insert, i: nat)
    requires ins.Legal() && i < ins.Parts() && Reach(ins, i) <= |ins.data|
    requires PartKey(ins.Base(), i) in store && store[PartKey(ins.Base(), i)] == Record(ins.Part(i), false)
    ensures Reach(ins, i + 1) <= |ins.data| && Get(store, ins.key, At(ins, i)) == At(ins, i + 1)
  {
    hide PartsOf;
    PartEnds(ins, i);
    PartJoins(ins, i);
    assert ins.data[..|ins.data|] == ins.data;
    assert |ins.data[..Reach(ins, i)] + ins.Part(i)| == Reach(ins, i + 1);
  }

  lemma {:induction false} PartsRead(store: Store, ins: Insert, i: nat)
    requires ins.Legal() && i <= ins.Parts() && Reach(ins, i) <= |ins.data|
    requires forall j: nat :: i <= j < ins.Parts() ==> HasPart(store, ins, j)
    ensures Finish(store, ins.key, At(ins, i)) == Found(ins.data)
    decreases ins.Parts() - i
  {
    hide PartsOf;
    hide Get;
    hide PartKey;
    if i < ins.Parts() {
      assert HasPart(store, ins, i);
      PartRead(store, ins, i);
      PartsRead(store, ins, i + 1);
    }
  }

  predicate HasPart(store: Store, ins: Insert, j: nat)
    requires j < ins.Parts()
  {
    PartKey(ins.Base(), j) in store && store[PartKey(ins.Base(), j)] == Record(ins.Part(j), false)
  }

  // A store with the parts and the control record of an insert answers its data.
  lemma CompleteRead(store: Store, ins: Insert)
    requires ins.Legal() && CtlKey(ins.key) in store && store[CtlKey(ins.key)] == ins.Control()
    requires forall j: nat :: j < ins.Parts() ==> HasPart(store, ins, j)
    ensures Answer(store, ins.key) == Found(ins.data)
  {
    hide PartsOf;
    ControlRead(store, ins);
    if |ins.data| >= PART {
      PartsRead(store, ins, 0);
    }
  }

  lemma {:induction false} PartsSetHas(store: Store, ins: Insert, n: nat, j: nat)
    requires j < n <= ins.Parts()
    ensures HasPart(PartsSet(store, ins, n), ins, j)
  {
    hide PartsOf;
    IsBaseKey(ins);
    if j < n - 1 {
      PartsSetHas(store, ins, n - 1, j);
      if PartKey(ins.Base(), n - 1) == PartKey(ins.Base(), j) {
        PartKeysDiffer(ins.Base(), n - 1, ins.Base(), j);
      }
    }
  }

  lemma IsBaseKey(ins: Insert)
    ensures IsBase(ins.Base())
  {
  }

  // Whatever the store held before, an undisturbed insert is answered with its data.
  lemma InsertAnswered(store: Store, ins: Insert)
    requires ins.Legal()
    ensures Answer(Inserted(store, ins), ins.key) == Found(ins.data)
  {
    hide PartsOf;
    hide Answer;
    var after := Inserted(store, ins);
    forall j: nat | j < ins.Parts()
      ensures HasPart(after, ins, j)
    {
      PartsSetHas(store, ins, ins.Parts(), j);
      PartIsNotCtl(ins.Base(), j, ins.key);
    }
    CompleteRead(after, ins);
  }

  // ---- what an answer depends on ----

  // The reading of parts depends on the parts of that base key only.
  lemma {:induction false} FinishAgrees(a: Store, b: Store, key: Key, s: Stage)
    requires s.Reading? && forall i :: SameAt(a, b, PartKey(s.base, i))
    ensures Finish(a, key, s) == Finish(b, key, s)
    decreases if s.i < s.parts then s.parts - s.i else 0
  {
    if s.i < s.parts {
      assert SameAt(a, b, PartKey(s.base, s.i));
      var t := Get(a, key, s);
      if t.Reading? {
        FinishAgrees(a, b, key, t);
      }
    }
  }

  predicate SameAt(a: Store, b: Store, k: Key) {
    (k in a <==> k in b) && (k in a ==> a[k] == b[k])
  }

  lemma AnswerAgrees(a: Store, b: Store, key: Key)
    requires SameAt(a, b, CtlKey(key))
    requires Get(a, key, Begin).Reading? ==> forall i :: SameAt(a, b, PartKey(Get(a, key, Begin).base, i))
    ensures Answer(a, key) == Answer(b, key)
  {
    var t := Get(a, key, Begin);
    assert t == Get(b, key, Begin);
    if t.Reading? {
      FinishAgrees(a, b, key, t);
    }
  }

  // The control record of one key matters to no other key.
  lemma OnlyControl(a: Store, b: Store, key: Key, other: Key)
    requires other != key && forall k :: k != CtlKey(key) ==> SameAt(a, b, k)
    ensures Answer(a, other) == Answer(b, other)
  {
    if CtlKey(other) == CtlKey(key) {
      CtlKeysDiffer(other, key);
    }
    var t := Get(a, other, Begin);
    if t.Reading? {
      forall i
        ensures SameAt(a, b, PartKey(t.base, i))
      {
        PartIsNotCtl(t.base, i, key);
      }
    }
    AnswerAgrees(a, b, other);
  }
}
