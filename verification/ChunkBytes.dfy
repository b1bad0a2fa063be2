// The chunk format byte by byte, on small elements.
module ChunkBytes {
  import opened Bytes
  import opened Bits
  import opened ChunkLayout

  // The string "b" under the name "a", and the integer 1 under the name "i".
  const STRING_B := StrAttr([97], [98])
  const ONE_I := IntAttr([105], 1)

  lemma WordBytes(b: seq<byte>, i: nat, n: nat)
    requires i + 2 <= |b| && U16(b, i) == n
    ensures b[i] == n % 256 && b[i + 1] == n / 256
  {
  }

  lemma EncodedBytes()
    ensures Enc(STRING_B) == [4, 0, 98, 0, 97, 0] && Enc(ONE_I) == [1, 0, 0, 0, 105, 0]
    ensures BlockSize(STRING_B) == 6 && BlockSize(ONE_I) == 6
  {
  }

  lemma SingleBytes(b: seq<byte>, c: seq<byte>)
    requires IsSingle(b, STRING_B) && IsSingle(c, ONE_I)
    ensures b == [0, 0x70, 4, 0, 98, 0, 97, 0] && c == [0, 0x60, 1, 0, 0, 0, 105, 0]
  {
    EncodedBytes();
    hide Enc;
    hide BlockSize;
    hide U16;
    SingleOf(b, STRING_B);
    SingleOf(c, ONE_I);
  }

  lemma SingleOf(b: seq<byte>, e: Attr)
    requires IsSingle(b, e) && |Enc(e)| == BlockSize(e)
    ensures b == [U16(b, 0) % 256, U16(b, 0) / 256] + Enc(e)
    ensures U16(b, 0) == if e.StrAttr? then 0x7000 else 0x6000
  {
    hide Enc;
    hide BlockSize;
    WordBytes(b, 0, U16(b, 0));
    HeldBytes(b, 2, e);
    assert b == [b[0], b[1]] + b[2..2 + |Enc(e)|];
  }

  lemma HeldBytes(b: seq<byte>, p: nat, e: Attr)
    requires HoldsAt(b, p, e) && |b| >= p + |Enc(e)|
    ensures b[p..p + |Enc(e)|] == Enc(e)
  {
    hide Enc;
  }

  // Both elements in one chunk: two elements, the type bit of the first, their offsets, and themselves.
  lemma MultipleBytes(b: seq<byte>)
    requires IsMultiple(b, [STRING_B, ONE_I]) && |b| == Mem([STRING_B, ONE_I])
    ensures |b| == 20 && b[..2] == [2, 0x80]
    ensures b[2] % 4 == 1
    ensures b[4..] == [8, 0, 14, 0, 4, 0, 98, 0, 97, 0, 1, 0, 0, 0, 105, 0]
  {
    var es := [STRING_B, ONE_I];
    TwoSizes();
    EncodedBytes();
    hide Enc;
    hide Blocks;
    assert Placed(b, es, 0) && Placed(b, es, 1);
    assert b[0] == 2 && b[1] == 0x80 by {
      WordBytes(b, 0, 0x8002);
    }
    WordBytes(b, 4, 8);
    WordBytes(b, 6, 14);
    HeldBytes(b, 8, STRING_B);
    HeldBytes(b, 14, ONE_I);
    LowTypes(U16(b, 2));
    assert b[4..] == b[4..8] + b[8..14] + b[14..20];
  }

  lemma TwoSizes()
    ensures Mem([STRING_B, ONE_I]) == 20
    ensures Off([STRING_B, ONE_I], 0) == 8 && Off([STRING_B, ONE_I], 1) == 14
  {
    var es := [STRING_B, ONE_I];
    assert es[..0] == [] && es[..1] == [STRING_B] && es[..2] == es;
    assert Blocks(es[..0]) == 0;
    BlocksNext(es, 0);
    BlocksNext(es, 1);
  }

  lemma LowTypes(w: nat)
    requires Bit(w, 0) && !Bit(w, 1)
    ensures w % 4 == 1
  {
    assert Bit(w, 1) == Bit(w / 2, 0);
  }

  // The type words of the parts of a cut element: the kind in the first one, the number in the others.
  lemma PartWords(n: nat, j: nat, e: Attr)
    requires j < n
    ensures j == 0 ==> PartHeader(n, j, e) == if e.StrAttr? then 0x5000 else 0x4000
    ensures 0 < j < n - 1 && j < 0x1000 ==> PartHeader(n, j, e) == j
    ensures 0 < j == n - 1 && j < 0x1000 ==> PartHeader(n, j, e) == 0x2000 + j
  {
  }

  // What is cut: a string with a link to its name in front, both with a NUL.
  lemma LongBytes()
    ensures Long(STRING_B) == [6, 0, 0, 0, 98, 0, 97, 0] && Long(ONE_I) == [1, 0, 0, 0, 0, 105, 0]
  {
  }

  // The attributes in front of the chunks: flags, number of chunks, number of elements.
  lemma AnnouncedBytes(cs: seq<seq<byte>>, count: nat, flags: u32, msg: seq<Attr>)
    requires Announced(cs, count, flags, msg)
    ensures |msg| == 3 + |cs|
    ensures msg[..3] == [IntAttr([116], flags), IntAttr([99], |cs|), IntAttr([101], count)]
    ensures forall i :: 0 <= i < |cs| ==> msg[3 + i] == StrAttr([99], cs[i])
  {
    hide AsAttrs;
  }
}
