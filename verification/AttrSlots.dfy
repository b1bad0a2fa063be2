// Attributes whose name pointer may be null: csdata_send_data leaves them out.
module AttrSlots {
  import opened ChunkLayout

  // An attribute of a message; the name pointer of one that is not named is null.
  datatype Slot = Slot(attr: Attr, named: bool)

  function WithNames(slots: seq<Slot>): (es: seq<Attr>) {
    if slots == [] then [] else
    var n := |slots| - 1;
    WithNames(slots[..n]) + if slots[n].named then [slots[n].attr] else []
  }

  predicate AllHaveNames(slots: seq<Slot>) {
    forall i :: 0 <= i < |slots| ==> slots[i].named
  }

  function Attrs(slots: seq<Slot>): (es: seq<Attr>)
    ensures |es| == |slots| && forall i :: 0 <= i < |es| ==> es[i] == slots[i].attr
  {
    seq(|slots|, i requires 0 <= i < |slots| => slots[i].attr)
  }

  function AsSlots(es: seq<Attr>): (slots: seq<Slot>)
    ensures AllHaveNames(slots) && Attrs(slots) == es
  {
    seq(|es|, i requires 0 <= i < |es| => Slot(es[i], true))
  }

  lemma NamedNext(slots: seq<Slot>, k: nat)
    requires k < |slots|
    ensures WithNames(slots[..k + 1]) == WithNames(slots[..k]) + if slots[k].named then [slots[k].attr] else []
  {
    var f := slots[..k + 1];
    assert f[..|f| - 1] == slots[..k] && f[|f| - 1] == slots[k];
  }

  // Leaving out the attributes without a name changes the list exactly when there are such attributes.
  lemma {:induction false} NamedExactly(slots: seq<Slot>)
    ensures |WithNames(slots)| <= |slots|
    ensures WithNames(slots) == Attrs(slots) <==> AllHaveNames(slots)
  {
    if slots != [] {
      var n := |slots| - 1;
      NamedExactly(slots[..n]);
      assert Attrs(slots) == Attrs(slots[..n]) + [slots[n].attr];
    }
  }

  lemma {:induction false} NamedTail(slot: Slot, slots: seq<Slot>)
    requires slot.named
    ensures WithNames([slot] + slots) == [slot.attr] + WithNames(slots)
  {
    var s := [slot] + slots;
    if slots == [] {
      assert s[..0] == [] && WithNames(s) == WithNames(s[..0]) + [slot.attr];
    } else {
      var n := |slots| - 1;
      NamedTail(slot, slots[..n]);
      assert s[..|s| - 1] == [slot] + slots[..n] && s[|s| - 1] == slots[n];
      assert WithNames(s) == WithNames(s[..|s| - 1]) + if slots[n].named then [slots[n].attr] else [];
    }
  }

  // What is left out makes nothing larger, and strings stay C strings.
  lemma {:induction false} NamedSmaller(slots: seq<Slot>)
    ensures Blocks(WithNames(slots)) <= Blocks(Attrs(slots))
  {
    if slots != [] {
      var n := |slots| - 1;
      var front, es, all := WithNames(slots[..n]), Attrs(slots), WithNames(slots);
      NamedSmaller(slots[..n]);
      assert es[..n] == Attrs(slots[..n]);
      if slots[n].named {
        assert all[..|all| - 1] == front && all[|all| - 1] == es[n];
      } else {
        assert all == front;
      }
    }
  }

  lemma {:induction false} NamedCStrings(slots: seq<Slot>)
    requires CStrings(Attrs(slots))
    ensures CStrings(WithNames(slots))
  {
    if slots != [] {
      var front := slots[..|slots| - 1];
      forall i | 0 <= i < |front| ensures Attrs(front)[i].IsCString() {
        assert Attrs(slots)[i] == Attrs(front)[i];
      }
      NamedCStrings(front);
    }
  }
}
