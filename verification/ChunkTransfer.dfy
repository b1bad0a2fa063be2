// A request end to end: packed, sent, received and unpacked.
module ChunkTransfer {
  import opened Bytes
  import opened AttrSlots
  import opened ChunkLayout
  import opened ChunkSource
  import opened ChunkUnpack
  import opened ChunkRoundTrip
  import opened ChunkFidelity
  import ChunkPack
  import ChunkReader
  import opened Wire

  // ---- chunk sizes ----

  // Within the limit, or the last part of a cut element and at most two bytes over it.
  predicate SizeKept(M: nat, b: seq<byte>) {
    2 <= |b| && (|b| <= M || (|b| <= M + 2 && HasBit(U16(b, 0), LAST_PART) && !HasBit(U16(b, 0), FIRST_PART)))
  }

  predicate SizesKept(M: nat, cs: seq<seq<byte>>) {
    forall i :: 0 <= i < |cs| ==> SizeKept(M, cs[i])
  }

  lemma CutSizes(M: nat, e: Attr, cs: seq<seq<byte>>)
    requires IsCut(cs, M, e)
    ensures SizesKept(M, cs)
  {
    PartsBounds(M, e);
    forall i | 0 <= i < |cs| ensures SizeKept(M, cs[i]) {
      assert IsPart(cs[i], M, e, i);
      PartLength(M, e, i);
      PartBits(|cs|, i, e);
    }
  }

  lemma StepSizes(M: nat, es: seq<Attr>, cs: seq<seq<byte>>)
    requires M >= 16 && es != [] && Step(M, es, cs)
    ensures SizesKept(M, cs)
  {
    if CutsNext(M, es) {
      CutSizes(M, es[0], cs);
    } else if Group(M, es) <= 1 {
      StepFits(M, es, 0);
    } else {
      FitFits(M, es, 0);
    }
  }

  // Every chunk csDataPack makes keeps to the limit it was given.
  lemma {:induction false} ChunkSizes(M: nat, es: seq<Attr>, cs: seq<seq<byte>>)
    requires M >= 16 && Encodes(M, es, cs)
    ensures SizesKept(M, cs)
    decreases |es|
  {
    hide SizesKept;
    hide StepSize;
    hide StepChunks;
    if es != [] {
      var n := StepChunks(M, es);
      EncodesHead(M, es, cs);
      hide Encodes;
      hide Step;
      StepSizes(M, es, cs[..n]);
      ChunkSizes(M, es[StepSize(M, es)..], cs[n..]);
      SizesJoin(M, cs, n);
    } else {
      NoSizes(M);
    }
  }

  lemma NoSizes(M: nat)
    ensures SizesKept(M, [])
  {
  }

  lemma SizesJoin(M: nat, cs: seq<seq<byte>>, n: nat)
    requires n <= |cs| && SizesKept(M, cs[..n]) && SizesKept(M, cs[n..])
    ensures SizesKept(M, cs)
  {
    hide SizeKept;
    forall i | 0 <= i < |cs| ensures SizeKept(M, cs[i]) {
      if i < n {
        assert cs[i] == cs[..n][i];
      } else {
        assert cs[i] == cs[n..][i - n];
      }
    }
  }

  // The last part takes up to four bytes more than its share, so it is too long when the element fills all
  // parts, or all but one byte of them.
  predicate LastTooLong(M: nat, e: Attr)
    requires M > 2
  {
    2 + BlockSize(e) > M && (BlockSize(e) % (M - 2) == 0 || BlockSize(e) % (M - 2) == M - 3)
  }

  lemma LastPartSize(M: nat, e: Attr)
    requires M >= 16 && 2 + BlockSize(e) > M && Fits32(e)
    ensures PartSize(M, e, PartsNum(M, e) - 1) > M <==> LastTooLong(M, e)
  {
    var n, p, t := PartsNum(M, e), M - 2, BlockSize(e);
    PartsBounds(M, e);
    var rest := t - Done(M, n - 1);
    if rest == p {
      DoneNext(M, n - 1);
      Remainder(t, p, n, 0);
    } else {
      Remainder(t, p, n - 1, rest);
    }
  }

  lemma Remainder(t: nat, p: nat, q: nat, r: nat)
    requires p > 0 && t == q * p + r && r < p
    ensures t % p == r
  {
    Quotient(t, p, q, r);
    assert t == t / p * p + t % p;
  }

  predicate Exceeds(M: nat, cs: seq<seq<byte>>) {
    exists i :: 0 <= i < |cs| && |cs[i]| > M
  }

  predicate SomeTooLong(M: nat, es: seq<Attr>)
    requires M > 2
  {
    exists i :: 0 <= i < |es| && LastTooLong(M, es[i])
  }

  lemma CutExceeds(M: nat, e: Attr, cs: seq<seq<byte>>)
    requires IsCut(cs, M, e)
    ensures Exceeds(M, cs) <==> LastTooLong(M, e)
  {
    hide LastTooLong;
    PartsBounds(M, e);
    LastPartSize(M, e);
    forall i | 0 <= i < |cs|
      ensures |cs[i]| == PartSize(M, e, i)
    {
      assert IsPart(cs[i], M, e, i);
    }
    assert |cs[|cs| - 1]| == PartSize(M, e, PartsNum(M, e) - 1);
  }

  lemma StepExceeds(M: nat, es: seq<Attr>, cs: seq<seq<byte>>)
    requires M >= 16 && es != [] && Step(M, es, cs)
    ensures Exceeds(M, cs) <==> SomeTooLong(M, es[..StepSize(M, es)])
  {
    var head := es[..StepSize(M, es)];
    if CutsNext(M, es) {
      CutExceeds(M, es[0], cs);
      assert head == [es[0]];
    } else {
      StepSizes(M, es, cs);
      forall i | 0 <= i < |head|
        ensures !LastTooLong(M, head[i])
      {
        StepFits(M, es, i);
      }
      if Group(M, es) <= 1 {
        StepFits(M, es, 0);
      } else {
        FitFits(M, es, 0);
      }
    }
  }

  lemma TooLongSplit(M: nat, es: seq<Attr>, k: nat)
    requires M > 2 && k <= |es|
    ensures SomeTooLong(M, es) <==> SomeTooLong(M, es[..k]) || SomeTooLong(M, es[k..])
  {
    hide LastTooLong;
    if i :| 0 <= i < |es| && LastTooLong(M, es[i]) {
      if i < k {
        assert es[..k][i] == es[i];
      } else {
        assert es[k..][i - k] == es[i];
      }
    }
  }

  lemma ExceedsSplit(M: nat, cs: seq<seq<byte>>, n: nat)
    requires n <= |cs|
    ensures Exceeds(M, cs) <==> Exceeds(M, cs[..n]) || Exceeds(M, cs[n..])
  {
    if i :| 0 <= i < |cs| && |cs[i]| > M {
      if i < n {
        assert cs[..n][i] == cs[i];
      } else {
        assert cs[n..][i - n] == cs[i];
      }
    }
  }

  // A packed list has a chunk over the limit exactly when one of its elements is cut with such a last part.
  lemma {:induction false} ExceedsExactly(M: nat, es: seq<Attr>, cs: seq<seq<byte>>)
    requires M >= 16 && Encodes(M, es, cs)
    ensures Exceeds(M, cs) <==> SomeTooLong(M, es)
    decreases |es|
  {
    hide SomeTooLong;
    hide Exceeds;
    if es != [] {
      var k, n := StepSize(M, es), StepChunks(M, es);
      StepExceeds(M, es, cs[..n]);
      ExceedsExactly(M, es[k..], cs[n..]);
      TooLongSplit(M, es, k);
      ExceedsSplit(M, cs, n);
    } else {
      NoneExceeds(M);
    }
  }

  lemma NoneExceeds(M: nat)
    requires M > 2
    ensures !Exceeds(M, []) && !SomeTooLong(M, [])
  {
  }

  // A string of 24 bytes without a name, cut at the limit 16, ends in a part of 18 bytes.
  lemma TooLongExample(text: seq<byte>, cs: seq<seq<byte>>)
    requires |text| == 24 && Encodes(16, [StrAttr([], text)], cs)
    ensures Exceeds(16, cs) && PartSize(16, StrAttr([], text), PartsNum(16, StrAttr([], text)) - 1) == 18
  {
    var es := [StrAttr([], text)];
    ExceedsExactly(16, es, cs);
    assert LastTooLong(16, es[0]);
  }

  // ---- what is packed can be sent ----

  lemma SourceSendable(es: seq<Attr>, i: nat)
    requires InMemory(es) && i < |es|
    ensures SendableAttr(es[i])
  {
    EachFits(es, i);
  }

  lemma ChunksSendable(M: nat, es: seq<Attr>, cs: seq<seq<byte>>, flags: u32, msg: seq<Attr>)
    requires 16 <= M <= 0x1_0000 && Encodes(M, es, cs) && Announced(cs, |es|, flags, msg)
    ensures Sendable(Message(msg, None))
  {
    hide Encodes;
    ChunkSizes(M, es, cs);
    forall i | 0 <= i < |msg| ensures SendableAttr(msg[i]) {
      if i >= 3 {
        assert SizeKept(M, cs[i - 3]);
        assert msg[i] == StrAttr(C_NAME, cs[i - 3]);
      }
    }
  }

  lemma PackedSendable(M: nat, es: seq<Attr>, flags: u32, msg: seq<Attr>)
    requires 16 <= M <= 0x1_0000 && InMemory(es) && IsPacked(M, es, flags, msg)
    ensures Sendable(Message(msg, None))
  {
    hide Blocks;
    hide StepSize;
    hide StepChunks;
    hide Step;
    if flags % 4 == 0 {
      forall i | 0 <= i < |es| ensures SendableAttr(es[i]) {
        SourceSendable(es, i);
      }
    } else if es != [] {
      var cs :| Encodes(M, es, cs) && Announced(cs, |es|, PackFlags(flags), msg);
      ChunksSendable(M, es, cs, PackFlags(flags), msg);
    }
  }

  // ---- end to end ----

  // Whatever follows on the stream, the receiver unpacks what was packed, under exactly the conditions of
  // RoundTripExactly.
  lemma Delivered(M: nat, es: seq<Attr>, flags: u32, msg: seq<Attr>, rest: seq<byte>)
    requires 16 <= M <= 0x1_0000 && InMemory(es) && CStrings(es) && IsPacked(M, es, flags, msg)
    ensures Sendable(Message(msg, None))
    ensures DecodeMessage(EncodeMessage(Message(msg, None)) + rest) == Some((Message(msg, None), rest))
    ensures flags % 4 == 0 || es == [] ==> Unpack(msg) == Plain(es)
    ensures flags % 4 != 0 && es != [] ==>
      (GivesBack(Unpack(msg), es) <==> !CutsInteger(M, es) && !Overfull(M, es))
  {
    PackedSendable(M, es, flags, msg);
    MessageBack(Message(msg, None), rest);
    if flags % 4 == 0 || es == [] {
      PackUnpack(M, es, flags, msg);
    } else {
      RoundTripExactly(M, es, flags, msg);
    }
  }

  // Without packing, the attributes that have a name arrive, and nothing else.
  lemma PlainDelivered(M: nat, slots: seq<Slot>, flags: u32, rest: seq<byte>)
    requires 16 <= M <= 0x1_0000 && InMemory(Attrs(slots)) && CStrings(Attrs(slots)) && flags % 4 == 0
    ensures var m := Message(WithNames([Slot(IntAttr(T_NAME, flags), true)] + slots), None);
      && Sendable(m)
      && DecodeMessage(EncodeMessage(m) + rest) == Some((m, rest))
      && Unpack(m.attrs) == Plain(WithNames(slots))
    ensures WithNames(slots) == Attrs(slots) <==> AllHaveNames(slots)
  {
    hide WithNames;
    hide Blocks;
    NamedTail(Slot(IntAttr(T_NAME, flags), true), slots);
    NamedSmaller(slots);
    NamedCStrings(slots);
    NamedExactly(slots);
    Delivered(M, WithNames(slots), flags, [IntAttr(T_NAME, flags)] + WithNames(slots), rest);
  }

  // An unpacked string with a name is sent from its buffer, so there must be one.
  predicate HasBuffers(list: seq<RawAttr>) {
    forall i :: 0 <= i < |list| ==> list[i].isString && list[i].name.Some? ==> list[i].text.Some?
  }

  // The attributes unpacked are those of the caller's buffers, in number, order, kind, name and value.
  predicate ComesBack(reply: Reply, list: seq<RawAttr>) {
    reply.Packed? && reply.outcome.Unpacked?
    && |reply.outcome.items| == |list|
    && forall i :: 0 <= i < |list| ==> FilledAs(list[i], reply.outcome.items[i].attr)
  }

  lemma ComesBackOnce(reply: Reply, list: seq<RawAttr>)
    requires forall i :: 0 <= i < |list| ==> list[i].InBounds()
    ensures ComesBack(reply, list) <==> GivesBack(reply, Contents(list))
  {
    hide FilledAs;
    if reply.Packed? && reply.outcome.Unpacked? {
      var items := reply.outcome.items;
      var es := seq(|items|, i requires 0 <= i < |items| => items[i].attr);
      FilledOnce(list, es);
    }
  }

  lemma NamedSent(list: seq<RawAttr>, slots: seq<Slot>)
    requires SlotsOf(list, slots)
    ensures NamedFrom(list, WithNames(slots))
    ensures AllHaveNames(slots) <==> forall i :: 0 <= i < |list| ==> list[i].name.Some?
  {
    hide WithNames;
    hide NamesBefore;
    hide FilledAs;
    NamedSlots(list, slots, |list|);
    assert slots[..|list|] == slots;
  }

  // The calls of both sides in a row.
  method Request(list: array<RawAttr>, aNewMaxChunkSize: nat, flags: u32, channel: Channel) returns (reply: Reply)
    requires forall i :: 0 <= i < list.Length ==> list[i].InBounds()
    requires forall es :: AllFilledAs(list[..], es) ==> InMemory(es) && CStrings(es)
    requires flags % 4 == 0 ==> HasBuffers(list[..])
    requires channel.bytes == []
    modifies channel, list
    ensures channel.bytes == []
    ensures flags % 4 == 0 ==> reply.Plain? && NamedFrom(old(list[..]), reply.attrs)
    ensures flags % 4 == 0 ==>
      (AllFilledAs(old(list[..]), reply.attrs) <==> forall i :: 0 <= i < list.Length ==> old(list[i]).name.Some?)
    ensures flags % 4 != 0 && list.Length == 0 ==> reply == Plain([])
    ensures flags % 4 != 0 && list.Length > 0 ==>
      forall es :: AllFilledAs(old(list[..]), es) ==>
        var M := ChunkPack.ChunkLimit(aNewMaxChunkSize);
        ComesBack(reply, old(list[..])) <==> !CutsInteger(M, es) && !Overfull(M, es)
  {
    hide InMemory;
    hide CStrings;
    hide Contents;
    hide Unpack;
    hide IsPacked;
    hide WithNames;
    hide DecodeMessage;
    hide EncodeMessage;
    hide Sendable;
    hide GivesBack;
    hide CutsInteger;
    hide Overfull;
    hide AllFilledAs;
    hide FilledAs;
    hide SlotsOf;
    hide NamedFrom;
    hide ComesBack;
    ghost var before, M := list[..], ChunkPack.ChunkLimit(aNewMaxChunkSize);
    ghost var es, slots := Contents(before), Slots(before);
    assert Attrs(slots) == es;
    FilledAlone(before);
    SlotsFilled(before);
    NamedSent(before, slots);
    var msg := ChunkPack.csDataPack(list, aNewMaxChunkSize, flags);
    if flags % 4 == 0 {
      SlotsOnce(before, slots, msg[1..]);
      assert msg == [msg[0]] + msg[1..];
    }
    Sent(M, es, slots, flags, msg);
    channel.SendData(msg, None);
    var received := channel.RecvData();
    reply := ChunkReader.csDataUnPack(received.value.attrs);
    ComesBackOnce(reply, before);
    if flags % 4 == 0 {
      FilledOnce(before, reply.attrs);
    }
  }

  lemma SlotsOnce(list: seq<RawAttr>, a: seq<Slot>, b: seq<Slot>)
    requires forall i :: 0 <= i < |list| ==> list[i].InBounds()
    requires SlotsOf(list, a) && SlotsOf(list, b)
    ensures a == b
  {
    hide FilledAs;
    FilledOnce(list, Attrs(a));
    FilledOnce(list, Attrs(b));
    forall i | 0 <= i < |list| ensures a[i] == b[i] {
      assert Attrs(a)[i] == Attrs(b)[i];
    }
  }

  lemma Sent(M: nat, es: seq<Attr>, slots: seq<Slot>, flags: u32, msg: seq<Slot>)
    requires 16 <= M <= 0x1_0000 && InMemory(es) && CStrings(es) && Attrs(slots) == es
    requires flags % 4 != 0 ==> AllHaveNames(msg) && IsPacked(M, es, flags, Attrs(msg))
    requires flags % 4 == 0 ==> msg == [Slot(IntAttr(T_NAME, flags), true)] + slots
    ensures var m := Message(WithNames(msg), None);
      Sendable(m) && DecodeMessage([] + EncodeMessage(m)) == Some((m, []))
    ensures flags % 4 == 0 ==> Unpack(WithNames(msg)) == Plain(WithNames(slots)) && (WithNames(slots) == es <==> AllHaveNames(slots))
    ensures flags % 4 != 0 && es == [] ==> Unpack(WithNames(msg)) == Plain([])
    ensures flags % 4 != 0 && es != [] ==>
      (GivesBack(Unpack(WithNames(msg)), es) <==> !CutsInteger(M, es) && !Overfull(M, es))
  {
    hide WithNames;
    hide IsPacked;
    hide Unpack;
    hide Sendable;
    hide EncodeMessage;
    hide DecodeMessage;
    hide GivesBack;
    if flags % 4 == 0 {
      PlainDelivered(M, slots, flags, []);
    } else {
      NamedExactly(msg);
      Delivered(M, es, flags, Attrs(msg), []);
    }
    var sent := EncodeMessage(Message(WithNames(msg), None));
    assert [] + sent == sent + [];
  }
}
