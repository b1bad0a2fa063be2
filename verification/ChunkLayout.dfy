// The byte layout of the chunks csDataPack produces: one element (Single), several elements behind a
// type bitmap and an offset table (Multiple), and one long element cut over several chunks.
// Bytes no layout mentions (alignment pads, unused bitmap bits) are unconstrained.
module ChunkLayout {
  import opened Bytes
  import opened Bits

  type u32 = n: nat | n < 0x1_0000_0000

  // An attribute after csVerifyStructure: `text` and `name` are the bytes the recorded sizes cover.
  datatype Attr =
    | IntAttr(name: seq<byte>, value: u32)
    | StrAttr(name: seq<byte>, text: seq<byte>)
  {
    // strlen can be applied to the name and to a string value.
    predicate IsCString() {
      NoNul(name) && (StrAttr? ==> NoNul(text))
    }
  }

  predicate CStrings(es: seq<Attr>) {
    forall i :: 0 <= i < |es| ==> es[i].IsCString()
  }

  // ---- sizes ----

  function ContentSize(e: Attr): nat {
    if e.StrAttr? then 2 + |e.text| + 1 + |e.name| + 1 else 4 + |e.name| + 1
  }

  // CalculateBlockSize: the content rounded up to an even number of bytes.
  function BlockSize(e: Attr): (n: nat)
    ensures n % 2 == 0 && ContentSize(e) <= n <= ContentSize(e) + 1
  {
    ContentSize(e) + ContentSize(e) % 2
  }

  function {:induction false} Blocks(es: seq<Attr>): (n: nat)
    ensures n % 2 == 0
    ensures n >= 4 * |es|
  {
    if es == [] then 0 else Blocks(es[..|es| - 1]) + BlockSize(es[|es| - 1])
  }

  // Header, type bitmap and offset table of a Multiple chunk of k elements.
  function Base(k: nat): (n: nat)
    ensures n % 2 == 0 && n >= 2
  {
    2 + 2 * ((k + 15) / 16) + 2 * k
  }

  function Off(es: seq<Attr>, i: nat): nat
    requires i <= |es|
  {
    Base(|es|) + Blocks(es[..i])
  }

  // The size of the Multiple chunk that holds es.
  function Mem(es: seq<Attr>): nat {
    Base(|es|) + Blocks(es)
  }

  lemma {:induction false} BlocksMonotone(es: seq<Attr>, i: nat, j: nat)
    requires i <= j <= |es|
    ensures Blocks(es[..i]) <= Blocks(es[..j])
    ensures i < j ==> Blocks(es[..i]) + BlockSize(es[i]) <= Blocks(es[..j])
    decreases j
  {
    if i < j {
      BlocksNext(es, j - 1);
      BlocksMonotone(es, i, j - 1);
    }
  }

  lemma BlocksNext(es: seq<Attr>, k: nat)
    requires k < |es|
    ensures Blocks(es[..k + 1]) == Blocks(es[..k]) + BlockSize(es[k])
  {
    var f := es[..k + 1];
    assert f[..|f| - 1] == es[..k] && f[|f| - 1] == es[k];
  }

  // Every sixteenth element takes a new word of the type bitmap.
  lemma WordsStep(k: nat)
    ensures (k + 16) / 16 == (k + 15) / 16 + if k % 16 == 0 then 1 else 0
  {
  }

  // What the size loop of csDataPack adds for one more element.
  lemma MemStep(es: seq<Attr>, k: nat)
    requires k < |es|
    ensures Mem(es[..k + 1]) == Mem(es[..k]) + (if k % 16 == 0 then 2 else 0) + 2 + BlockSize(es[k])
  {
    BlocksNext(es, k);
    WordsStep(k);
  }

  // Rounding the end of the content up gives the end of the block, as blocks start at even offsets.
  lemma RoundedUp(o: nat, e: Attr)
    requires o % 2 == 0
    ensures o + ContentSize(e) + (o + ContentSize(e)) % 2 == o + BlockSize(e)
  {
    var c := ContentSize(e);
    assert (o + c) % 2 == c % 2;
  }

  lemma EvenSum(a: nat, b: nat)
    requires a % 2 == 0 && b % 2 == 0
    ensures (a + b) % 2 == 0
  {
  }

  lemma OffInside(es: seq<Attr>, i: nat)
    requires i < |es|
    ensures Off(es, i) % 2 == 0
    ensures Base(|es|) <= Off(es, i)
    ensures Off(es, i) + BlockSize(es[i]) == Off(es, i + 1) <= Mem(es)
  {
    assert Off(es, i) % 2 == 0 by {
      EvenSum(Base(|es|), Blocks(es[..i]));
    }
    assert es[..|es|] == es;
    BlocksMonotone(es, i + 1, |es|);
    BlocksNext(es, i);
  }

  // How many of the first elements fit into one Multiple chunk, counting on from k.
  function Fit(M: nat, es: seq<Attr>, k: nat): (n: nat)
    requires k <= |es|
    ensures k <= n <= |es|
    decreases |es| - k
  {
    if k == |es| || Mem(es[..k + 1]) > M then k else Fit(M, es, k + 1)
  }

  // The elements of the next group; none when the first element alone does not fit.
  function Group(M: nat, es: seq<Attr>): (n: nat)
    ensures n <= |es|
  {
    Fit(M, es, 0)
  }

  lemma {:induction false} FitFits(M: nat, es: seq<Attr>, k: nat)
    requires k <= |es| && (k > 0 ==> Mem(es[..k]) <= M)
    ensures Fit(M, es, k) > 0 ==> Mem(es[..Fit(M, es, k)]) <= M
    decreases |es| - k
  {
    if k < |es| && Mem(es[..k + 1]) <= M {
      FitFits(M, es, k + 1);
    }
  }

  // ---- one element inside a Single or a Multiple chunk ----

  predicate Fits16(e: Attr) {
    ContentSize(e) < 0x1_0000
  }

  function Enc(e: Attr): (b: seq<byte>)
    requires Fits16(e)
    ensures |b| == ContentSize(e)
  {
    match e
    case StrAttr(name, text) => LE16(2 + |text| + 1) + text + [0] + name + [0]
    case IntAttr(name, value) => LE32(value) + name + [0]
  }

  predicate HoldsAt(b: seq<byte>, p: nat, e: Attr) {
    Fits16(e) && Has(b, p, Enc(e))
  }

  // ---- chunk types ----

  const SINGLE := 0x6000
  const MULTIPLE := 0x8000
  const FIRST_PART := 0x4000
  const MIDDLE_PART := 0x0000
  const LAST_PART := 0x2000
  const ELEMENT_TYPE := 0x1000
  const MAX_COUNT := 0x1000

  function TypeBit(e: Attr): (n: nat)
    ensures n == 0 || n == ELEMENT_TYPE
  {
    if e.StrAttr? then ELEMENT_TYPE else 0
  }

  predicate IsSingle(b: seq<byte>, e: Attr) {
    && |b| == 2 + BlockSize(e)
    && U16(b, 0) == SINGLE + TypeBit(e)
    && HoldsAt(b, 2, e)
  }

  function WordPos(i: nat): nat {
    2 + 2 * (i / 16)
  }

  function ShiftPos(k: nat, i: nat): nat {
    2 + 2 * ((k + 15) / 16) + 2 * i
  }

  lemma TableInside(k: nat, i: nat)
    requires i < k
    ensures 2 <= WordPos(i) && WordPos(i) + 2 <= ShiftPos(k, 0) <= ShiftPos(k, i)
    ensures ShiftPos(k, i) + 2 <= Base(k)
  {
  }

  predicate TypeMarked(b: seq<byte>, i: nat, isString: bool)
    requires WordPos(i) + 2 <= |b|
  {
    Bit(U16(b, WordPos(i)), i % 16) == isString
  }

  // Entry i of the bitmap and of the offset table (at s) describe the element e stored at o.
  predicate Described(b: seq<byte>, i: nat, s: nat, o: nat, e: Attr)
    requires WordPos(i) + 2 <= s && s + 2 <= |b|
  {
    && TypeMarked(b, i, e.StrAttr?)
    && U16(b, s) == o
    && HoldsAt(b, o, e)
  }

  // Element i of es is described and stored in the Multiple chunk b.
  predicate Placed(b: seq<byte>, es: seq<Attr>, i: nat)
    requires i < |es| && |b| >= Base(|es|)
  {
    TableInside(|es|, i);
    Described(b, i, ShiftPos(|es|, i), Off(es, i), es[i])
  }

  predicate IsMultiple(b: seq<byte>, es: seq<Attr>) {
    && |b| >= Base(|es|)
    && U16(b, 0) == MULTIPLE + |es| % MAX_COUNT
    && forall i :: 0 <= i < |es| ==> Placed(b, es, i)
  }

  // ---- an element cut over several chunks ----

  predicate Fits32(e: Attr) {
    ContentSize(e) + 16 < 0x1_0000_0000
  }

  // In front of a string goes a 32-bit link to the name; an integer has none.
  function Link(e: Attr): (b: seq<byte>)
    requires Fits32(e)
    ensures |b| == if e.StrAttr? then 4 else 0
  {
    if e.StrAttr? then LE32(4 + |e.text| + 1) else []
  }

  function Value(e: Attr): seq<byte> {
    if e.StrAttr? then e.text else LE32(e.value)
  }

  // The bytes that are cut. An integer gets a terminator as well.
  function Long(e: Attr): (b: seq<byte>)
    requires Fits32(e)
    ensures |b| == |Link(e)| + |Value(e)| + |e.name| + 2
    ensures |b| == ContentSize(e) + if e.StrAttr? then 2 else 1
  {
    Link(e) + Value(e) + [0] + e.name + [0]
  }

  lemma LongParts(e: Attr)
    requires Fits32(e)
    ensures Has(Long(e), 0, Link(e))
    ensures Has(Long(e), |Link(e)|, Value(e) + [0])
    ensures Has(Long(e), |Link(e)| + |Value(e)| + 1, e.name + [0])
  {
  }

  // ceil( BlockSize / ( M - 2 ) )
  function PartsNum(M: nat, e: Attr): nat
    requires M > 2
  {
    (BlockSize(e) + M - 3) / (M - 2)
  }

  function PartHeader(n: nat, j: nat, e: Attr): (h: nat)
    ensures h < 0x8000
  {
    if j == 0 then FIRST_PART + TypeBit(e)
    else if j != n - 1 then MIDDLE_PART + j % MAX_COUNT
    else LAST_PART + j % MAX_COUNT
  }

  // How many bytes the parts before part j carry.
  function Done(M: nat, j: nat): nat
    requires M > 2
  {
    j * (M - 2)
  }

  function PartSize(M: nat, e: Attr, j: nat): int
    requires M > 2
  {
    if j == PartsNum(M, e) - 1 then BlockSize(e) - Done(M, j) + 4 else M
  }

  lemma DoneOrder(M: nat, i: nat, j: nat)
    requires M > 2 && i < j
    ensures Done(M, i) + M - 2 <= Done(M, j)
  {
    MulStep(M - 2, i, j);
  }

  lemma MulNext(p: nat, i: int)
    ensures (i + 1) * p == i * p + p
  {
  }

  lemma MulStep(p: nat, i: int, j: int)
    requires i < j
    ensures i * p + p <= j * p
  {
    MulOrder(p, i + 1, j);
    MulNext(p, i);
  }

  lemma MulOrder(p: nat, i: int, j: int)
    requires i <= j
    ensures i * p <= j * p
  {
  }

  lemma CeilDiv(t: nat, p: nat)
    requires t > p > 0
    ensures ((t + p - 1) / p - 1) * p < t <= (t + p - 1) / p * p
    ensures (t + p - 1) / p >= 2
  {
    var n := (t + p - 1) / p;
    assert t + p - 1 == n * p + (t + p - 1) % p;
    assert (n - 1) * p == n * p - p;
    if n < 2 {
      MulOrder(p, n, 1);
      assert false;
    }
  }

  // The element does not fit a Single chunk, so it takes at least two parts; the last part is never
  // empty, is at most two bytes over the limit, and all parts but the last are needed.
  lemma PartsBounds(M: nat, e: Attr)
    requires M >= 16 && 2 + BlockSize(e) > M && Fits32(e)
    ensures PartsNum(M, e) >= 2
    ensures Done(M, PartsNum(M, e) - 1) < BlockSize(e) <= Done(M, PartsNum(M, e) - 1) + M - 2
    ensures 5 <= PartSize(M, e, PartsNum(M, e) - 1) <= M + 2
    ensures Done(M, PartsNum(M, e) - 1) < |Long(e)|
    ensures |Long(e)| <= Done(M, PartsNum(M, e) - 1) + PartSize(M, e, PartsNum(M, e) - 1) - 2 <= |Long(e)| + 2
  {
    CeilDiv(BlockSize(e), M - 2);
    var n := PartsNum(M, e);
    assert (n - 1) * (M - 2) == n * (M - 2) - (M - 2);
  }

  lemma DoneNext(M: nat, j: nat)
    requires M > 2
    ensures Done(M, j + 1) == Done(M, j) + M - 2
  {
  }

  // Part j is not empty; it is full unless it is the last one, which has room for all that is left.
  lemma PartLength(M: nat, e: Attr, j: nat)
    requires M >= 16 && 2 + BlockSize(e) > M && Fits32(e) && j < PartsNum(M, e)
    ensures 5 <= PartSize(M, e, j) <= M + 2
    ensures Done(M, j) < |Long(e)|
    ensures j < PartsNum(M, e) - 1 ==> PartSize(M, e, j) == M && Done(M, j + 1) == Done(M, j) + M - 2 < |Long(e)|
    ensures j == PartsNum(M, e) - 1 ==> |Long(e)| - Done(M, j) <= PartSize(M, e, j) - 2
  {
    PartsBounds(M, e);
    var n := PartsNum(M, e);
    if j < n - 1 {
      DoneOrder(M, j, n - 1);
      DoneNext(M, j);
      if j + 1 < n - 1 {
        DoneOrder(M, j + 1, n - 1);
      }
    }
  }

  // Part j of e: all parts but the last are full.
  predicate IsPart(b: seq<byte>, M: nat, e: Attr, j: nat)
    requires M > 2 && Fits32(e)
  {
    var n, done, c := PartsNum(M, e), Done(M, j), Long(e);
    && |b| == PartSize(M, e, j)
    && |b| >= 2
    && U16(b, 0) == PartHeader(n, j, e)
    && done < |c|
    && (j < n - 1 ==> done + |b| - 2 < |c|)
    && (j == n - 1 ==> |c| - done <= |b| - 2)
    && forall k :: 2 <= k < |b| && done + k - 2 < |c| ==> b[k] == c[done + k - 2]
  }

  predicate IsCut(cs: seq<seq<byte>>, M: nat, e: Attr) {
    && M >= 16 && 2 + BlockSize(e) > M && Fits32(e)
    && |cs| == PartsNum(M, e)
    && forall j :: 0 <= j < |cs| ==> IsPart(cs[j], M, e, j)
  }

  // ---- the whole chunk list ----

  // One pass of the outer loop of csDataPack cuts the next element ...
  predicate CutsNext(M: nat, es: seq<Attr>)
    requires es != []
  {
    Group(M, es) == 0 && 2 + BlockSize(es[0]) > M
  }

  // ... or stores one element, or several up to the cap on the number of elements.
  function StepSize(M: nat, es: seq<Attr>): (k: nat)
    requires es != []
    ensures 1 <= k <= |es|
  {
    var g := Group(M, es);
    if g <= 1 then 1 else if g > MAX_COUNT then MAX_COUNT else g
  }

  function StepChunks(M: nat, es: seq<Attr>): nat
    requires M > 2 && es != []
  {
    if CutsNext(M, es) then PartsNum(M, es[0]) else 1
  }

  predicate Step(M: nat, es: seq<Attr>, cs: seq<seq<byte>>)
    requires M > 2 && es != []
  {
    if CutsNext(M, es) then IsCut(cs, M, es[0])
    else if Group(M, es) <= 1 then |cs| == 1 && IsSingle(cs[0], es[0])
    else |cs| == 1 && |cs[0]| == Mem(es[..Group(M, es)]) && IsMultiple(cs[0], es[..StepSize(M, es)])
  }

  // cs is what the outer loop of csDataPack may produce for es with chunk limit M.
  predicate Encodes(M: nat, es: seq<Attr>, cs: seq<seq<byte>>)
    requires M > 2
    decreases |es|
  {
    if es == [] then
      cs == []
    else
      var n := StepChunks(M, es);
      && n <= |cs|
      && Step(M, es, cs[..n])
      && Encodes(M, es[StepSize(M, es)..], cs[n..])
  }

  // ---- the message ----

  const T_NAME: seq<byte> := ['t' as byte]
  const C_NAME: seq<byte> := ['c' as byte]
  const E_NAME: seq<byte> := ['e' as byte]

  function AsAttrs(cs: seq<seq<byte>>): (r: seq<Attr>)
    ensures |r| == |cs|
    ensures forall i :: 0 <= i < |cs| ==> r[i] == StrAttr(C_NAME, cs[i])
  {
    if cs == [] then [] else [StrAttr(C_NAME, cs[0])] + AsAttrs(cs[1..])
  }

  // Any of the two pack flags stands for both.
  function PackFlags(flags: u32): (f: u32) {
    if flags % 4 == 0 then flags else flags - flags % 4 + 3
  }

  // All sizes and counts are 32-bit fields, so a source is taken to be smaller than 2 GiB.
  predicate InMemory(es: seq<Attr>) {
    Blocks(es) < 0x8000_0000
  }

  // The chunks behind their flags, their number and the number of elements.
  predicate Announced(cs: seq<seq<byte>>, count: nat, flags: u32, msg: seq<Attr>) {
    && |cs| < 0x8000_0000 && count < 0x8000_0000
    && msg == [IntAttr(T_NAME, flags), IntAttr(C_NAME, |cs|), IntAttr(E_NAME, count)] + AsAttrs(cs)
  }

  // What csDataPack returns for es: packed with one of the flags, or else the attributes themselves.
  ghost predicate IsPacked(M: nat, es: seq<Attr>, flags: u32, msg: seq<Attr>)
    requires M > 2
  {
    if PackFlags(flags) % 4 != 3 then
      msg == [IntAttr(T_NAME, flags)] + es
    else if es == [] then
      msg == [IntAttr(T_NAME, 0)]
    else
      exists cs :: Encodes(M, es, cs) && Announced(cs, |es|, PackFlags(flags), msg)
  }

  lemma {:induction false} BlocksSplit(es: seq<Attr>, k: nat)
    requires k <= |es|
    ensures Blocks(es) == Blocks(es[..k]) + Blocks(es[k..])
    decreases |es| - k
  {
    if k == |es| {
      assert es[..k] == es;
    } else {
      BlocksSplit(es, k + 1);
      BlocksNext(es, k);
      BlocksFirst(es[k..]);
      assert es[k..][1..] == es[k + 1..];
    }
  }

  lemma {:induction false} BlocksFirst(es: seq<Attr>)
    requires es != []
    ensures Blocks(es) == BlockSize(es[0]) + Blocks(es[1..])
  {
    if |es| == 1 {
      assert es[..0] == [] && es[1..] == [];
    } else {
      BlocksFirst(es[..|es| - 1]);
      assert es[..|es| - 1][1..] == es[1..][..|es| - 2];
    }
  }

  lemma EachFits(es: seq<Attr>, i: nat)
    requires InMemory(es) && i < |es|
    ensures Fits32(es[i])
  {
    BlocksSplit(es, i);
    BlocksFirst(es[i..]);
  }

  // No more chunks than bytes.
  lemma EncodesHead(M: nat, es: seq<Attr>, cs: seq<seq<byte>>)
    requires M > 2 && es != [] && Encodes(M, es, cs)
    ensures StepChunks(M, es) <= |cs| && Step(M, es, cs[..StepChunks(M, es)])
    ensures Encodes(M, es[StepSize(M, es)..], cs[StepChunks(M, es)..])
  {
  }

  lemma StepCount(M: nat, es: seq<Attr>)
    requires M >= 16 && es != []
    ensures StepChunks(M, es) <= Blocks(es[..StepSize(M, es)])
  {
    if CutsNext(M, es) {
      BlocksFirst(es[..1]);
      CeilDiv(BlockSize(es[0]), M - 2);
      QuotientSmall(BlockSize(es[0]), M - 2);
    }
  }

  lemma {:induction false} ChunkCount(M: nat, es: seq<Attr>, cs: seq<seq<byte>>)
    requires M >= 16 && Encodes(M, es, cs)
    ensures |cs| <= Blocks(es)
    decreases |es|
  {
    hide Blocks;
    hide StepChunks;
    hide Step;
    if es != [] {
      var k, n := StepSize(M, es), StepChunks(M, es);
      EncodesHead(M, es, cs);
      hide Encodes;
      ChunkCount(M, es[k..], cs[n..]);
      BlocksSplit(es, k);
      StepCount(M, es);
    }
  }

  lemma QuotientSmall(t: nat, p: nat)
    requires t > 0 && p >= 1
    ensures (t + p - 1) / p <= t
  {
    var n := (t + p - 1) / p;
    if n > t {
      MulOrder(p, t + 1, n);
      assert (t + 1) * p == t * p + p;
      MulOrder(t, 1, p);
      assert false;
    }
  }
}
