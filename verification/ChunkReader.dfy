// csDataUnPack: the loops that fill the element array, proved against the functions of ChunkUnpack.
module ChunkReader {
  import opened Bytes
  import opened Bits
  import opened ChunkLayout
  import opened ChunkUnpack

  // Elements j.. put behind the elements already read.
  function Behind(items: seq<Item>, rest: Option<seq<Item>>): Option<seq<Item>> {
    if rest.Some? then Some(items + rest.value) else None
  }

  // The element loop of a Multiple chunk.
  method ReadItems(b: seq<byte>, k: nat, elements: array<Item>, start: nat) returns (ok: bool)
    requires start + k <= elements.Length
    modifies elements
    ensures ok == ItemsFrom(b, k, 0).Some?
    ensures ok ==> elements[..start + k] == old(elements[..start]) + ItemsFrom(b, k, 0).value
  {
    hide ItemAt;
    hide U16;
    hide Bit;
    ghost var before := elements[..start];
    var j := 0;
    assert elements[start..start] == [];
    assert Behind([], ItemsFrom(b, k, 0)) == ItemsFrom(b, k, 0) by {
      if ItemsFrom(b, k, 0).Some? {
        assert [] + ItemsFrom(b, k, 0).value == ItemsFrom(b, k, 0).value;
      }
    }
    while j < k
      invariant j <= k && elements[..start] == before
      invariant ItemsFrom(b, k, 0) == Behind(elements[start..start + j], ItemsFrom(b, k, j))
    {
      if ShiftPos(k, j) + 2 > |b| {
        return false;
      }
      TableInside(k, j);
      var item := ItemAt(b, U16(b, ShiftPos(k, j)), Bit(U16(b, WordPos(j)), j % 16), 0);
      if item.None? {
        return false;
      }
      ghost var sofar := elements[start..start + j];
      elements[start + j] := item.value;
      BehindOne(sofar, item.value, ItemsFrom(b, k, j + 1));
      assert elements[start..start + j + 1] == sofar + [item.value];
      j := j + 1;
    }
    ok := true;
    assert elements[..start + k] == elements[..start] + elements[start..start + k];
  }

  lemma BehindOne(items: seq<Item>, item: Item, rest: Option<seq<Item>>)
    ensures Behind(items, if rest.None? then None else Some([item] + rest.value)) == Behind(items + [item], rest)
  {
    if rest.Some? {
      assert items + ([item] + rest.value) == items + [item] + rest.value;
    }
  }

  // The search for the last part of a cut element.
  method SearchLast(cs: seq<Attr>) returns (r: Search)
    requires cs != []
    ensures r == FindLast(cs, 1)
  {
    var j := 1;
    while j < |cs|
      invariant 1 <= j <= |cs|
      invariant FindLast(cs, j) == FindLast(cs, 1)
    {
      if !IsChunk(cs[j]) {
        return Broken;
      }
      if HasBit(U16(cs[j].text, 0), LAST_PART) {
        return Found(j);
      }
      j := j + 1;
    }
    r := Missing;
  }

  // The pass over the parts that checks their names and adds up their sizes.
  method CheckParts(cs: seq<Attr>) returns (named: bool, memory: nat)
    requires AllChunks(cs)
    ensures named == AllNamed(cs, |cs|)
    ensures named ==> memory == |Joined(cs)|
  {
    memory := 0;
    var k := 0;
    while k < |cs|
      invariant k <= |cs| && AllNamed(cs, k)
      invariant memory + |Joined(cs[k..])| == |Joined(cs)|
    {
      if !Named(cs[k], C_NAME) {
        return false, 0;
      }
      JoinedStep(cs, k);
      memory := memory + |cs[k].text| - 2;
      k := k + 1;
    }
    named := true;
  }

  // The pass that copies them.
  method CopyParts(cs: seq<Attr>, memory: nat) returns (element: seq<byte>)
    requires AllChunks(cs) && memory == |Joined(cs)|
    ensures element == Joined(cs)
  {
    var a := new byte[memory];
    var ptr: nat := 0;
    var k := 0;
    while k < |cs|
      invariant k <= |cs| && ptr <= a.Length && ptr + |Joined(cs[k..])| == a.Length
      invariant a[..ptr] + Joined(cs[k..]) == Joined(cs)
    {
      JoinedStep(cs, k);
      ptr := CopyPart(a, ptr, cs[k].text[2..], Joined(cs[k + 1..]), Joined(cs));
      k := k + 1;
    }
    element := a[..];
    assert cs[|cs|..] == [];
  }

  method CopyPart(a: array<byte>, ptr: nat, part: seq<byte>, ghost rest: seq<byte>, ghost all: seq<byte>)
      returns (next: nat)
    requires ptr + |part| <= a.Length && a[..ptr] + (part + rest) == all
    modifies a
    ensures next == ptr + |part| && a[..next] + rest == all
  {
    ghost var done := a[..ptr];
    Store(a, ptr, part);
    next := ptr + |part|;
    assert a[..next] == done + part;
    assert done + part + rest == done + (part + rest);
  }

  lemma JoinedStep(cs: seq<Attr>, k: nat)
    requires AllChunks(cs) && k < |cs|
    ensures Joined(cs[k..]) == cs[k].text[2..] + Joined(cs[k + 1..])
  {
    assert cs[k..][1..] == cs[k + 1..];
  }

  // One pass of the unpacking loop: the number of chunks it took, or the reason to stop.
  method ReadNext(cs: seq<Attr>, elements: array<Item>, ind: nat) returns (pass: Pass)
    requires cs != [] && ind <= elements.Length
    modifies elements
    ensures pass == TakeNext(cs, elements.Length - ind)
    ensures pass.Took? && ind + |pass.items| <= elements.Length ==>
      elements[..ind + |pass.items|] == old(elements[..ind]) + pass.items
  {
    var room := elements.Length - ind;
    if !cs[0].StrAttr? || !Named(cs[0], C_NAME) || |cs[0].text| < 2 {
      return Stop(Invalid);
    }
    var b := cs[0].text;
    var h := U16(b, 0);
    if HasBit(h, FIRST_PART) && HasBit(h, LAST_PART) {
      pass := ReadSingle(b, elements, ind);
    } else if HasBit(h, MULTIPLE) {
      pass := ReadMultiple(b, elements, ind);
    } else if HasBit(h, FIRST_PART) {
      pass := ReadCut(cs, elements, ind);
    } else {
      pass := Stop(Invalid);
    }
  }

  method ReadSingle(b: seq<byte>, elements: array<Item>, ind: nat) returns (pass: Pass)
    requires |b| >= 2 && ind <= elements.Length
    modifies elements
    ensures pass == TakeSingle(b, elements.Length - ind)
    ensures pass.Took? ==> elements[..ind + |pass.items|] == old(elements[..ind]) + pass.items
  {
    if ind >= elements.Length {
      return Stop(Invalid);
    }
    var item := ItemAt(b, 2, HasBit(U16(b, 0), ELEMENT_TYPE), 2);
    if item.None? {
      return Stop(Fault);
    }
    elements[ind] := item.value;
    pass := Took(1, [item.value]);
  }

  method ReadMultiple(b: seq<byte>, elements: array<Item>, ind: nat) returns (pass: Pass)
    requires |b| >= 2 && ind <= elements.Length
    modifies elements
    ensures pass == TakeMultiple(b, elements.Length - ind)
    ensures pass.Took? ==> |pass.items| <= elements.Length - ind
    ensures pass.Took? ==> elements[..ind + |pass.items|] == old(elements[..ind]) + pass.items
  {
    var number := U16(b, 0) % MAX_COUNT;
    if ind + number > elements.Length {
      return Stop(Invalid);
    }
    ItemsCount(b, number, 0);
    var ok := ReadItems(b, number, elements, ind);
    if !ok {
      return Stop(Fault);
    }
    pass := Took(1, elements[ind..ind + number]);
    assert elements[ind..ind + number] == elements[..ind + number][ind..];
  }

  lemma {:induction false} ItemsCount(b: seq<byte>, k: nat, j: nat)
    requires j <= k
    ensures ItemsFrom(b, k, j).Some? ==> |ItemsFrom(b, k, j).value| == k - j
    decreases k - j
  {
    hide ItemAt;
    hide U16;
    hide Bit;
    hide ShiftPos;
    hide WordPos;
    if j < k {
      ItemsCount(b, k, j + 1);
    }
  }

  method ReadCut(cs: seq<Attr>, elements: array<Item>, ind: nat) returns (pass: Pass)
    requires cs != [] && IsChunk(cs[0]) && ind <= elements.Length
    modifies elements
    ensures pass == TakeCut(cs, elements.Length - ind)
    ensures pass.Took? ==> elements[..ind + |pass.items|] == old(elements[..ind]) + pass.items
  {
    var r := SearchLast(cs);
    match r
    case Missing => pass := Stop(Invalid);
    case Broken => pass := Stop(Fault);
    case Found(j) =>
      var parts := cs[..j + 1];
      assert parts == [cs[0]] + cs[1..j + 1];
      var named, memory := CheckParts(parts);
      if !named {
        return Stop(Invalid);
      }
      if memory == 0 {
        return Stop(NoMemory);
      }
      var element := CopyParts(parts, memory);
      if ind >= elements.Length {
        return Stop(Fault);
      }
      var item := JoinedItem(element, HasBit(U16(cs[0].text, 0), ELEMENT_TYPE));
      if item.None? {
        return Stop(Fault);
      }
      elements[ind] := item.value;
      pass := Took(j + 1, [item.value]);
  }

  method csDataUnPack(msg: seq<Attr>) returns (reply: Reply)
    ensures reply == Unpack(msg)
  {
    if |msg| < 1 || !IsHeader(msg[0], T_NAME) {
      return Packed(Invalid);
    }
    if msg[0].value % 4 == 0 {
      return Plain(msg[1..]);
    }
    if |msg| < 3 || !IsHeader(msg[1], C_NAME) {
      return Packed(Invalid);
    }
    if |msg| != Wrap32(3 + msg[1].value) || !IsHeader(msg[2], E_NAME) {
      return Packed(Invalid);
    }
    if msg[2].value == 0 {
      return Packed(NoMemory);
    }
    var outcome := ReadChunks(msg[3..], msg[2].value);
    reply := Packed(outcome);
  }

  lemma UnpackStep(cs: seq<Attr>, i: nat, total: nat, done: seq<Item>)
    requires i < |cs| && |done| <= total
    ensures match TakeNext(cs[i..], total - |done|)
      case Stop(outcome) => UnpackFrom(cs[i..], total, done) == outcome
      case Took(n, items) =>
        if |done| + |items| > total then UnpackFrom(cs[i..], total, done) == Fault
        else i + n <= |cs| && UnpackFrom(cs[i..], total, done) == UnpackFrom(cs[i + n..], total, done + items)
  {
    var pass := TakeNext(cs[i..], total - |done|);
    if pass.Took? {
      assert cs[i..][pass.chunks..] == cs[i + pass.chunks..];
    }
  }

  lemma UnpackEnds(cs: seq<Attr>, total: nat, done: seq<Item>)
    requires cs == [] && |done| <= total
    ensures UnpackFrom(cs, total, done) == if |done| == total then Unpacked(done) else Invalid
  {
  }

  // The body of the unpacking loop. `goal` is what the whole loop is to return.
  method ReadPass(cs: seq<Attr>, i: nat, elements: array<Item>, ind: nat, ghost goal: Outcome)
      returns (stop: bool, outcome: Outcome, i': nat, ind': nat)
    requires i < |cs| && ind <= elements.Length
    requires UnpackFrom(cs[i..], elements.Length, elements[..ind]) == goal
    modifies elements
    ensures stop ==> outcome == goal
    ensures !stop ==> i < i' <= |cs| && ind' <= elements.Length
    ensures !stop ==> UnpackFrom(cs[i'..], elements.Length, elements[..ind']) == goal
  {
    hide TakeNext;
    hide UnpackFrom;
    ghost var done := elements[..ind];
    UnpackStep(cs, i, elements.Length, done);
    var pass := ReadNext(cs[i..], elements, ind);
    stop, outcome, i', ind' := true, Fault, i, ind;
    if pass.Stop? {
      outcome := pass.outcome;
    } else if ind + |pass.items| <= elements.Length {
      stop, i', ind' := false, i + pass.chunks, ind + |pass.items|;
      assert elements[..ind'] == done + pass.items;
    }
  }

  method ReadChunks(cs: seq<Attr>, total: nat) returns (outcome: Outcome)
    ensures outcome == UnpackFrom(cs, total, [])
  {
    ghost var goal := UnpackFrom(cs, total, []);
    var elements := new Item[total];
    var ind: nat, i: nat := 0, 0;
    assert cs[0..] == cs && elements[..0] == [];
    while i < |cs|
      invariant i <= |cs| && ind <= total
      invariant UnpackFrom(cs[i..], total, elements[..ind]) == goal
      decreases |cs| - i
    {
      var stop, o, i', ind' := ReadPass(cs, i, elements, ind, goal);
      if stop {
        return o;
      }
      i, ind := i', ind';
    }
    UnpackEnds(cs[i..], total, elements[..ind]);
    outcome := if ind == total then Unpacked(elements[..]) else Invalid;
    assert elements[..total] == elements[..];
  }
}
