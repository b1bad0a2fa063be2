// Exactly when packing and unpacking gives the attributes back: never when an integer has to be cut, nor
// when a chunk takes so many elements that its count field wraps to zero; always otherwise.
module ChunkFidelity {
  import opened ChunkLayout
  import opened ChunkUnpack
  import opened ChunkRoundTrip

  predicate SameAttrs(items: seq<Item>, es: seq<Attr>) {
    && |items| == |es|
    && forall i :: 0 <= i < |es| ==> items[i].attr == es[i]
  }

  // Some integer is too long, with its name, for a Single chunk.
  predicate CutsInteger(M: nat, es: seq<Attr>) {
    exists i :: 0 <= i < |es| && es[i].IntAttr? && 2 + BlockSize(es[i]) > M
  }

  // In some pass of the packing loop as many elements fit as the count field has values.
  predicate Overfull(M: nat, es: seq<Attr>)
    decreases |es|
  {
    es != [] && (Group(M, es) >= MAX_COUNT || Overfull(M, es[StepSize(M, es)..]))
  }

  predicate GivesBack(reply: Reply, es: seq<Attr>) {
    reply.Packed? && reply.outcome.Unpacked? && SameAttrs(reply.outcome.items, es)
  }

  // ---- one step ----

  lemma {:induction false} SameExacts(es: seq<Attr>)
    requires AllFit(es)
    ensures SameAttrs(Exacts(es), es)
  {
    if es != [] {
      SameExacts(es[1..]);
    }
  }

  lemma GroupMembersFit(M: nat, es: seq<Attr>, i: nat)
    requires i < Group(M, es)
    ensures 2 + BlockSize(es[i]) <= M
  {
    var g := Group(M, es);
    FitFits(M, es, 0);
    BlocksMonotone(es, i, g);
  }

  lemma StepFits(M: nat, es: seq<Attr>, i: nat)
    requires es != [] && !CutsNext(M, es) && i < StepSize(M, es)
    ensures 2 + BlockSize(es[i]) <= M
  {
    if Group(M, es) > 0 {
      GroupMembersFit(M, es, i);
    }
  }

  lemma StepCuts(M: nat, es: seq<Attr>)
    requires es != []
    ensures CutsInteger(M, es[..StepSize(M, es)]) <==> CutsNext(M, es) && es[0].IntAttr?
  {
    var head := es[..StepSize(M, es)];
    if CutsNext(M, es) {
      assert head == [es[0]];
    } else {
      forall i | 0 <= i < |head| ensures 2 + BlockSize(head[i]) <= M {
        StepFits(M, es, i);
      }
    }
  }

  lemma StepSame(M: nat, es: seq<Attr>)
    requires M >= 16 && es != [] && AllFit(es) && Group(M, es) < MAX_COUNT
    ensures |StepItems(M, es)| == StepSize(M, es)
    ensures SameAttrs(StepItems(M, es), es[..StepSize(M, es)]) <==> !(CutsNext(M, es) && es[0].IntAttr?)
  {
    if CutsNext(M, es) {
      CutName(M, es[0]);
    } else if Group(M, es) > 1 {
      SameExacts(es[..StepSize(M, es)]);
    }
  }

  // An integer is only ever cut because of its name.
  lemma CutName(M: nat, e: Attr)
    requires M >= 16 && 2 + BlockSize(e) > M && Fits32(e)
    ensures Rejoined(e).attr == e <==> e.StrAttr?
  {
  }

  // ---- the whole list ----

  lemma CutsSplit(M: nat, es: seq<Attr>, k: nat)
    requires k <= |es|
    ensures CutsInteger(M, es) <==> CutsInteger(M, es[..k]) || CutsInteger(M, es[k..])
  {
    if i :| 0 <= i < |es| && es[i].IntAttr? && 2 + BlockSize(es[i]) > M {
      if i < k {
        assert es[..k][i] == es[i];
      } else {
        assert es[k..][i - k] == es[i];
      }
    }
  }

  lemma SameSplit(a: seq<Item>, b: seq<Item>, es: seq<Attr>)
    requires |a| <= |es| && |b| == |es| - |a|
    ensures SameAttrs(a + b, es) <==> SameAttrs(a, es[..|a|]) && SameAttrs(b, es[|a|..])
  {
    if SameAttrs(a + b, es) {
      assert forall i :: 0 <= i < |a| ==> (a + b)[i] == a[i];
      assert forall i :: 0 <= i < |b| ==> (a + b)[|a| + i] == b[i];
    }
  }

  lemma {:induction false} ReceivedFaithful(M: nat, es: seq<Attr>)
    requires M >= 16 && AllFit(es)
    ensures |Received(M, es)| == |es| <==> !Overfull(M, es)
    ensures SameAttrs(Received(M, es), es) <==> !CutsInteger(M, es) && !Overfull(M, es)
    decreases |es|
  {
    if es != [] {
      var k := StepSize(M, es);
      ReceivedFaithful(M, es[k..]);
      CutsSplit(M, es, k);
      StepCuts(M, es);
      if Group(M, es) < MAX_COUNT {
        StepSame(M, es);
        if !Overfull(M, es[k..]) {
          SameSplit(StepItems(M, es), Received(M, es[k..]), es);
        }
      }
    }
  }

  // The round trip of csDataPack and csDataUnPack, for every chunk limit and every attribute list.
  lemma RoundTripExactly(M: nat, es: seq<Attr>, flags: u32, msg: seq<Attr>)
    requires 16 <= M && IsPacked(M, es, flags, msg) && InMemory(es) && CStrings(es)
    requires flags % 4 != 0 && es != []
    ensures GivesBack(Unpack(msg), es) <==> !CutsInteger(M, es) && !Overfull(M, es)
    ensures Overfull(M, es) ==> Unpack(msg) == Packed(Invalid)
  {
    PackUnpack(M, es, flags, msg);
    ReceivedFaithful(M, es);
    assert [] + Received(M, es) == Received(M, es);
  }

  lemma ManyTakeSpace(es: seq<Attr>)
    requires |es| >= MAX_COUNT
    ensures Mem(es) >= 25090
  {
    assert (|es| + 15) / 16 >= 256;
  }

  // A limit below 25090, such as the default 4096, never lets a chunk take that many elements.
  lemma {:induction false} SmallLimitNeverOverfull(M: nat, es: seq<Attr>)
    requires M < 25090
    ensures !Overfull(M, es)
    decreases |es|
  {
    if es != [] {
      var g := Group(M, es);
      FitFits(M, es, 0);
      if g >= MAX_COUNT {
        ManyTakeSpace(es[..g]);
      }
      SmallLimitNeverOverfull(M, es[StepSize(M, es)..]);
    }
  }

  // The bound is sharp: 4096 empty strings fill one chunk of 25090 bytes.
  lemma {:induction false} EmptyStringsFit(es: seq<Attr>, k: nat)
    requires k <= |es| == MAX_COUNT
    requires forall i :: 0 <= i < |es| ==> es[i] == StrAttr([], [])
    ensures Blocks(es[..k]) == 4 * k
    ensures Fit(25090, es, k) == MAX_COUNT
    decreases MAX_COUNT - k
  {
    EmptyBlocks(es, k);
    if k < MAX_COUNT {
      EmptyBlocks(es, k + 1);
      assert |es[..k + 1]| == k + 1;
      EmptyStringsFit(es, k + 1);
    }
  }

  lemma {:induction false} EmptyBlocks(es: seq<Attr>, k: nat)
    requires k <= |es| && forall i :: 0 <= i < |es| ==> es[i] == StrAttr([], [])
    ensures Blocks(es[..k]) == 4 * k
  {
    if k > 0 {
      EmptyBlocks(es, k - 1);
      BlocksNext(es, k - 1);
    }
  }

  lemma OverfullExample(es: seq<Attr>)
    requires |es| == MAX_COUNT && forall i :: 0 <= i < |es| ==> es[i] == StrAttr([], [])
    ensures Overfull(25090, es) && InMemory(es) && CStrings(es)
  {
    EmptyStringsFit(es, 0);
    EmptyBlocks(es, MAX_COUNT);
    assert es[..MAX_COUNT] == es;
  }

  lemma AloneIsCut(M: nat, es: seq<Attr>)
    requires |es| == 1 && M >= 16 && 2 + BlockSize(es[0]) > M && AllFit(es)
    ensures Received(M, es) == [Rejoined(es[0])]
  {
    BlocksFirst(es);
    assert es[..1] == es && es[1..] == [];
    assert CutsNext(M, es);
  }

  // An integer that is cut always arrives without its name.
  lemma CutIntegerReceived(M: nat, es: seq<Attr>)
    requires 16 <= M && |es| == 1 && es[0].IntAttr? && 2 + BlockSize(es[0]) > M && AllFit(es)
    ensures Received(M, es) == [Item(IntAttr([], es[0].value), 4)]
    ensures es[0].name != []
  {
    AloneIsCut(M, es);
  }
}
