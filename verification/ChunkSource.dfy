// The attributes a caller hands to csDataPack, and csVerifyStructure, which completes their sizes.
module ChunkSource {
  import opened Bytes
  import opened AttrSlots
  import opened ChunkLayout

  // A csdata_attr_t: an absent buffer is a null pointer, a size of zero asks for strlen.
  datatype RawAttr = RawAttr(isString: bool, name: Option<seq<byte>>, nameSize: nat,
                             text: Option<seq<byte>>, number: u32, valueSize: nat)
  {
    // A recorded size does not reach past its buffer.
    predicate InBounds() {
      && (name.Some? ==> nameSize <= |name.value|)
      && (isString && text.Some? ==> valueSize <= |text.value|)
    }

    function Verified(): RawAttr {
      var v :=
        if !isString then 4
        else if text.None? then 0
        else if valueSize == 0 then |Trunc(text.value)| else valueSize;
      var n := if name.None? then 0 else if nameSize == 0 then |Trunc(name.value)| else nameSize;
      this.(valueSize := v, nameSize := n)
    }

    // The bytes that are sent.
    function Content(): Attr
      requires InBounds()
    {
      var n := Sized(name, nameSize);
      if isString then StrAttr(n, Sized(text, valueSize)) else IntAttr(n, number)
    }
  }

  function Sized(buffer: Option<seq<byte>>, size: nat): (s: seq<byte>)
    requires buffer.Some? ==> size <= |buffer.value|
    ensures buffer.Some? ==> s <= buffer.value && |s| == if size == 0 then |Trunc(buffer.value)| else size
    ensures buffer.None? ==> s == []
  {
    if buffer.None? then [] else if size == 0 then Trunc(buffer.value) else buffer.value[..size]
  }

  function Contents(list: seq<RawAttr>): (es: seq<Attr>)
    requires forall i :: 0 <= i < |list| ==> list[i].InBounds()
    ensures |es| == |list|
    ensures forall i :: 0 <= i < |list| ==> es[i] == list[i].Content()
  {
    if list == [] then [] else assert list[0].InBounds(); [list[0].Content()] + Contents(list[1..])
  }

  // t is what a buffer holds: as many bytes as recorded, or those up to the first NUL when no size is recorded.
  predicate Holds(buffer: Option<seq<byte>>, size: nat, t: seq<byte>) {
    match buffer
    case None => t == []
    case Some(b) =>
      t <= b
      && (size > 0 ==> |t| == size)
      && (size == 0 ==> (forall k :: 0 <= k < |t| ==> b[k] != 0) && (|t| == |b| || b[|t|] == 0))
  }

  // The attribute as the caller filled its buffers.
  predicate FilledAs(a: RawAttr, e: Attr) {
    && e.StrAttr? == a.isString
    && Holds(a.name, a.nameSize, e.name)
    && (a.isString ==> Holds(a.text, a.valueSize, e.text))
    && (!a.isString ==> e.value == a.number)
  }

  predicate AllFilledAs(list: seq<RawAttr>, es: seq<Attr>) {
    |es| == |list| && forall i :: 0 <= i < |list| ==> FilledAs(list[i], es[i])
  }

  lemma HoldsOnce(buffer: Option<seq<byte>>, size: nat, s: seq<byte>, t: seq<byte>)
    requires Holds(buffer, size, s) && Holds(buffer, size, t)
    ensures s == t
  {
    if buffer.Some? {
      var b := buffer.value;
      if size == 0 && |s| != |t| {
        assert false;
      }
      assert s == b[..|s|] && t == b[..|t|];
    }
  }

  lemma SizedHolds(buffer: Option<seq<byte>>, size: nat)
    requires buffer.Some? ==> size <= |buffer.value|
    ensures Holds(buffer, size, Sized(buffer, size))
  {
  }

  // The buffers determine what is packed.
  lemma FilledOnce(list: seq<RawAttr>, es: seq<Attr>)
    requires forall i :: 0 <= i < |list| ==> list[i].InBounds()
    ensures AllFilledAs(list, es) <==> es == Contents(list)
  {
    hide Holds;
    hide Sized;
    var cs := Contents(list);
    forall i | 0 <= i < |list| ensures FilledAs(list[i], cs[i]) {
      SizedHolds(list[i].name, list[i].nameSize);
      if list[i].isString {
        SizedHolds(list[i].text, list[i].valueSize);
      }
    }
    if AllFilledAs(list, es) {
      forall i | 0 <= i < |list| ensures es[i] == cs[i] {
        assert FilledAs(list[i], es[i]) && FilledAs(list[i], cs[i]);
        HoldsOnce(list[i].name, list[i].nameSize, es[i].name, cs[i].name);
        if list[i].isString {
          HoldsOnce(list[i].text, list[i].valueSize, es[i].text, cs[i].text);
        }
      }
    }
  }

  lemma FilledAlone(list: seq<RawAttr>)
    requires forall i :: 0 <= i < |list| ==> list[i].InBounds()
    ensures AllFilledAs(list, Contents(list))
    ensures forall es :: AllFilledAs(list, es) ==> es == Contents(list)
  {
    hide AllFilledAs;
    hide Contents;
    FilledOnce(list, Contents(list));
    forall es | AllFilledAs(list, es)
      ensures es == Contents(list)
    {
      FilledOnce(list, es);
    }
  }

  // How many of the first i attributes have a name.
  function NamesBefore(list: seq<RawAttr>, i: nat): nat
    requires i <= |list|
  {
    |set k | 0 <= k < i && list[k].name.Some?|
  }

  lemma NamesNext(list: seq<RawAttr>, i: nat)
    requires i < |list|
    ensures NamesBefore(list, i + 1) == NamesBefore(list, i) + if list[i].name.Some? then 1 else 0
  {
    var s := set k | 0 <= k < i && list[k].name.Some?;
    var t := set k | 0 <= k < i + 1 && list[k].name.Some?;
    assert t == if list[i].name.Some? then s + {i} else s;
  }

  // The attributes with a name, in order.
  predicate NamedFrom(list: seq<RawAttr>, es: seq<Attr>) {
    |es| == NamesBefore(list, |list|)
    && forall i :: 0 <= i < |list| && list[i].name.Some? ==>
         NamesBefore(list, i) < |es| && FilledAs(list[i], es[NamesBefore(list, i)])
  }

  lemma {:induction false} NamedSlots(list: seq<RawAttr>, slots: seq<Slot>, n: nat)
    requires n <= |list| && SlotsOf(list, slots)
    ensures |WithNames(slots[..n])| == NamesBefore(list, n)
    ensures forall i :: 0 <= i < n && list[i].name.Some? ==>
      NamesBefore(list, i) < NamesBefore(list, n) && FilledAs(list[i], WithNames(slots[..n])[NamesBefore(list, i)])
  {
    hide WithNames;
    hide FilledAs;
    hide NamesBefore;
    if n > 0 {
      NamedSlots(list, slots, n - 1);
      NamedNext(slots, n - 1);
      NamesNext(list, n - 1);
    } else {
      NoneNamed(list, slots);
    }
  }

  lemma NoneNamed(list: seq<RawAttr>, slots: seq<Slot>)
    ensures WithNames(slots[..0]) == [] && NamesBefore(list, 0) == 0
  {
  }

  // The attributes as they are sent unpacked: one without a name stays one without a name.
  function Slots(list: seq<RawAttr>): (slots: seq<Slot>)
    requires forall i :: 0 <= i < |list| ==> list[i].InBounds()
    ensures |slots| == |list|
    ensures forall i :: 0 <= i < |list| ==> slots[i] == Slot(list[i].Content(), list[i].name.Some?)
  {
    seq(|list|, i requires 0 <= i < |list| => Slot(list[i].Content(), list[i].name.Some?))
  }

  // Attribute by attribute, a missing name is still missing.
  predicate SlotsOf(list: seq<RawAttr>, slots: seq<Slot>) {
    |slots| == |list|
    && forall i :: 0 <= i < |list| ==> slots[i].named == list[i].name.Some? && FilledAs(list[i], slots[i].attr)
  }

  lemma SlotsFilled(list: seq<RawAttr>)
    requires forall i :: 0 <= i < |list| ==> list[i].InBounds()
    ensures SlotsOf(list, Slots(list))
  {
    hide FilledAs;
    FilledAlone(list);
    var slots := Slots(list);
    forall i | 0 <= i < |list|
      ensures FilledAs(list[i], slots[i].attr)
    {
      assert Contents(list)[i] == list[i].Content();
    }
  }

  // Completing the sizes keeps the content, and doing it again changes nothing.
  lemma VerifiedSame(a: RawAttr)
    requires a.InBounds()
    ensures a.Verified().InBounds() && a.Verified().Content() == a.Content()
    ensures a.Verified().Verified() == a.Verified()
    ensures forall e :: FilledAs(a, e) ==>
      a.Verified().nameSize == |e.name| && a.Verified().valueSize == if e.StrAttr? then |e.text| else 4
  {
    var v := a.Verified();
    assert Sized(v.name, v.nameSize) == Sized(a.name, a.nameSize);
    if a.isString {
      assert Sized(v.text, v.valueSize) == Sized(a.text, a.valueSize);
    }
    forall e | FilledAs(a, e)
      ensures v.nameSize == |e.name| && v.valueSize == if e.StrAttr? then |e.text| else 4
    {
      SizedHolds(a.name, a.nameSize);
      HoldsOnce(a.name, a.nameSize, Sized(a.name, a.nameSize), e.name);
      if a.isString {
        SizedHolds(a.text, a.valueSize);
        HoldsOnce(a.text, a.valueSize, Sized(a.text, a.valueSize), e.text);
      }
    }
  }

  lemma ContentsVerified(before: seq<RawAttr>, after: seq<RawAttr>)
    requires |before| == |after|
    requires forall i :: 0 <= i < |before| ==> before[i].InBounds() && after[i] == before[i].Verified()
    ensures forall i :: 0 <= i < |after| ==> after[i].InBounds()
    ensures Contents(after) == Contents(before) && Slots(after) == Slots(before)
  {
    forall i | 0 <= i < |after| ensures after[i].InBounds() && after[i].Content() == before[i].Content() {
      VerifiedSame(before[i]);
    }
  }

  method csVerifyStructure(list: array<RawAttr>)
    modifies list
    ensures forall i :: 0 <= i < list.Length ==> list[i] == old(list[i]).Verified()
  {
    for i := 0 to list.Length
      invariant forall j :: 0 <= j < i ==> list[j] == old(list[j]).Verified()
      invariant forall j :: i <= j < list.Length ==> list[j] == old(list[j])
    {
      var attr := list[i];
      if attr.isString {
        if attr.text.None? && attr.valueSize != 0 {
          attr := attr.(valueSize := 0);
        } else if attr.text.Some? && attr.valueSize == 0 {
          attr := attr.(valueSize := |Trunc(attr.text.value)|);
        }
      } else if attr.valueSize != 4 {
        attr := attr.(valueSize := 4);
      }
      if attr.name.None? && attr.nameSize != 0 {
        attr := attr.(nameSize := 0);
      } else if attr.name.Some? && attr.nameSize == 0 {
        attr := attr.(nameSize := |Trunc(attr.name.value)|);
      }
      list[i] := attr;
    }
  }
}
