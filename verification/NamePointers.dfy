// What Load keeps of the buffer: the names of a loaded index are pointers into it.
module NamePointers {
  import opened Bytes
  import opened NameOrder
  import opened NameImage

  // A niName as Load fills it: hash and id are copied, the name is not.
  datatype Loaded = Loaded(pos: nat, len: nat, hash: nat, id: nat)
  {
    predicate Inside(b: seq<byte>) {
      pos + len <= |b|
    }

    // The name as the index sees it now.
    function Name(b: seq<byte>): Name
      requires Inside(b)
    {
      b[pos..pos + len]
    }

    predicate Covers(q: nat) {
      pos <= q < pos + len
    }
  }

  // The pointer shows entry i.
  predicate Points(x: Loaded, b: seq<byte>, e: Entry, i: nat) {
    x.Inside(b) && x.Name(b) == e.name && x.hash == e.hash && x.id == e.id
    && PosFits(b, i) && x.pos == ElementByPos(b, i) + 8
  }

  lemma PointsAt(b: seq<byte>, index: seq<Entry>, i: nat)
    requires Shows(b, index) && i < |index|
    ensures PosFits(b, i)
    ensures var e := ElementByPos(b, i);
      Points(Loaded(e + 8, RONameLength(b, e), ROHashByPos(b, i), ROID(b, e)), b, index[i], i)
  {
    assert View(b)[i] == EntryAt(b, i);
  }

  // The loop of Load: at first the pointers show the names of the saved index.
  method LoadPointers(a: array<byte>, ghost index: seq<Entry>) returns (names: seq<Loaded>)
    requires Shows(a[..], index)
    ensures |names| == |index|
    ensures forall i :: 0 <= i < |names| ==> Points(names[i], a[..], index[i], i)
  {
    hide Points;
    hide Shows;
    names := [];
    for i := 0 to SizeShown(a[..], index)
      invariant |names| == i
      invariant forall j :: 0 <= j < i ==> Points(names[j], a[..], index[j], j)
    {
      PointsAt(a[..], index, i);
      var e := ElementByPos(a[..], i);
      names := names + [Loaded(e + 8, RONameLength(a[..], e), ROHashByPos(a[..], i), ROID(a[..], e))];
    }
  }

  // A later write into the buffer changes a name exactly when it hits a byte of that name with another value.
  lemma WriteChanges(b: seq<byte>, x: Loaded, q: nat, v: byte)
    requires x.Inside(b) && q < |b|
    ensures x.Name(b[q := v]) != x.Name(b) <==> x.Covers(q) && v != b[q]
  {
    var c := b[q := v];
    if x.Covers(q) {
      assert c[x.pos..x.pos + x.len][q - x.pos] == v && b[x.pos..x.pos + x.len][q - x.pos] == b[q];
    } else {
      assert c[x.pos..x.pos + x.len] == b[x.pos..x.pos + x.len];
    }
    if x.Covers(q) && v == b[q] {
      assert c == b;
    }
  }

  // The whole index after the write: the names that changed are those that cover the byte.
  method Overwrite(a: array<byte>, q: nat, v: byte, names: seq<Loaded>)
    requires q < a.Length && forall i :: 0 <= i < |names| ==> names[i].Inside(a[..])
    modifies a
    ensures forall i :: 0 <= i < |names| ==>
      names[i].Inside(a[..])
      && (names[i].Name(a[..]) != old(names[i].Name(a[..])) <==> names[i].Covers(q) && v != old(a[q]))
  {
    ghost var b := a[..];
    a[q] := v;
    assert a[..] == b[q := v];
    forall i | 0 <= i < |names|
      ensures names[i].Inside(a[..]) && (names[i].Name(a[..]) != names[i].Name(b) <==> names[i].Covers(q) && v != b[q])
    {
      WriteChanges(b, names[i], q, v);
    }
  }

  // In a saved image no byte belongs to two names, and none in front of the records to any.
  lemma CoversOnce(index: seq<Entry>, i: nat, j: nat, q: nat)
    requires i < j < |index|
    requires Off(index, i) + 8 <= q < Off(index, i) + 8 + |index[i].name|
    ensures q < Off(index, j) + 8 && 104 + 12 * |index| <= q
  {
    OffOrder(index, i, j);
  }

  // The pointers into a saved image.
  lemma LoadedAt(b: seq<byte>, md5: Digest, index: seq<Entry>, reverse: seq<Entry>, i: nat)
    requires SavedAs(b, md5, index) && Inverse(index, reverse) && i < |index|
    ensures PosFits(b, i) && ElementByPos(b, i) == Off(index, i)
  {
    SavedReads(b, md5, index, reverse);
    assert HasElement(b, index, i);
    Read32(b, 108 + 8 * i, Off(index, i));
  }

  // A byte of a name that is changed changes the hash of the name, but not the hash that was loaded, so the
  // entry is in the index under a hash that is not its own.
  lemma {:induction false} HashChanges(s: Name, k: nat, v: byte)
    requires k < |s| && v != s[k]
    ensures Hash(s[k := v]) != Hash(s)
  {
    XorChanges(s, k, v);
  }

  // The key under which the searches find an entry: the hash as loaded, the name as it is now.
  function Filed(e: Entry): Key {
    Key(e.hash, Trunc(e.name))
  }

  // An entry with a changed byte in its name, which GetName shows, is not found under that name; it is still
  // found under the old one exactly if the byte lies behind a NUL.
  lemma Misfiled(e: Entry, k: nat, v: byte)
    requires e.Good() && k < |e.name| && v != e.name[k]
    ensures Filed(e) == KeyOf(e.name)
    ensures var f := Entry(e.name[k := v], e.hash, e.id);
      && Filed(f) != KeyOf(f.name)
      && (Filed(f) == KeyOf(e.name) <==> !NoNul(e.name[..k]))
  {
    hide Hash;
    hide Trunc;
    HashChanges(e.name, k, v);
    TruncChanges(e.name, k, v);
  }

  lemma TruncHead(s: Name)
    requires s != []
    ensures Trunc(s) == if s[0] == 0 then [] else [s[0]] + Trunc(s[1..])
  {
  }

  lemma SameTail(c: byte, a: Name, b: Name)
    ensures [c] + a == [c] + b <==> a == b
  {
    assert ([c] + a)[1..] == a && ([c] + b)[1..] == b;
  }

  lemma {:induction false} TruncChanges(s: Name, k: nat, v: byte)
    requires k < |s| && v != s[k]
    ensures Trunc(s[k := v]) == Trunc(s) <==> !NoNul(s[..k])
  {
    hide Trunc;
    hide NoNul;
    var t := s[k := v];
    TruncHead(s);
    TruncHead(t);
    if k == 0 {
      NoNulHead(s, k);
    } else {
      assert t[1..] == s[1..][k - 1 := v];
      TruncChanges(s[1..], k - 1, v);
      NoNulHead(s, k);
      SameTail(s[0], Trunc(t[1..]), Trunc(s[1..]));
    }
  }

  lemma NoNulHead(s: Name, k: nat)
    requires k <= |s| && s != []
    ensures k == 0 ==> NoNul(s[..k])
    ensures k > 0 ==> (NoNul(s[..k]) <==> s[0] != 0 && NoNul(s[1..][..k - 1]))
  {
    if k > 0 {
      var a, b := s[..k], s[1..][..k - 1];
      assert a == [s[0]] + b;
    }
  }

  lemma {:induction false} XorChanges(s: Name, k: nat, v: byte)
    requires k < |s| && v != s[k]
    ensures XorAll(s[k := v]) != XorAll(s)
  {
    var n := |s| - 1;
    var t := s[k := v];
    if k == n {
      assert t[..n] == s[..n];
      if XorAll(t) == XorAll(s) {
        XorApart(XorAll(s[..n]), v, s[n]);
      }
    } else {
      assert t[..n] == s[..n][k := v];
      XorChanges(s[..n], k, v);
      if XorAll(t) == XorAll(s) {
        XorApart(s[n], XorAll(t[..n]), XorAll(s[..n]));
      }
    }
  }
}
