// The order of names in an index: hash first, bytes up to a NUL second.
module NameOrder {
  import opened Bytes
  import opened Bits

  type Name = seq<byte>

  const MAX_NAME := 0xFF_FFFF

  // ---- hash and comparison ----

  // Exclusive or, bit by bit.
  function Xor(a: nat, b: nat): (x: nat)
    decreases a + b
  {
    if a == 0 && b == 0 then 0 else (a % 2 + b % 2) % 2 + 2 * Xor(a / 2, b / 2)
  }

  lemma {:induction false} XorInRange(a: nat, b: nat, k: nat)
    requires a < Pow2(k) && b < Pow2(k)
    ensures Xor(a, b) < Pow2(k)
    decreases k
  {
    if a > 0 || b > 0 {
      XorInRange(a / 2, b / 2, k - 1);
    }
  }

  function Xor8(a: byte, b: byte): byte {
    assert Pow2(4) == 16;
    assert Pow2(8) == 256;
    XorInRange(a, b, 8);
    Xor(a, b)
  }

  // Bit i of the result.
  lemma {:induction false} XorIsXor(a: nat, b: nat, i: nat)
    ensures Bit(Xor(a, b), i) == (Bit(a, i) != Bit(b, i))
    decreases i
  {
    if a == 0 && b == 0 {
      ZeroBit(i);
    } else if i > 0 {
      Halves((a % 2 + b % 2) % 2, Xor(a / 2, b / 2));
      XorIsXor(a / 2, b / 2, i - 1);
    } else {
      Halves((a % 2 + b % 2) % 2, Xor(a / 2, b / 2));
    }
  }

  lemma Halves(r: nat, q: nat)
    requires r < 2
    ensures (r + 2 * q) / 2 == q && (r + 2 * q) % 2 == r
  {
  }

  // The same on one side, another value on the other.
  lemma {:induction false} XorApart(a: nat, b: nat, c: nat)
    requires Xor(a, b) == Xor(a, c) || Xor(b, a) == Xor(c, a)
    ensures b == c
    decreases a + b + c
  {
    hide Xor;
    if a > 0 || b > 0 || c > 0 {
      XorParts(a, b);
      XorParts(a, c);
      XorParts(b, a);
      XorParts(c, a);
      XorApart(a / 2, b / 2, c / 2);
      Halve(b);
      Halve(c);
    }
  }

  lemma Halve(n: nat)
    ensures n == n / 2 * 2 + n % 2 && n % 2 < 2
  {
  }

  lemma XorParts(a: nat, b: nat)
    ensures Xor(a, b) / 2 == Xor(a / 2, b / 2) && Xor(a, b) % 2 == (a % 2 + b % 2) % 2
  {
    Halves((a % 2 + b % 2) % 2, Xor(a / 2, b / 2));
  }

  function XorAll(s: Name): byte {
    if s == [] then 0 else Xor8(XorAll(s[..|s| - 1]), s[|s| - 1])
  }

  // The length cut to 24 bits, and the exclusive or of all bytes.
  function Hash(s: Name): (h: nat)
    ensures h < 0x1_0000_0000
  {
    |s| % 0x100_0000 * 256 + XorAll(s)
  }

  method ComputeHash(s: Name) returns (hash: nat)
    ensures hash == Hash(s)
  {
    var rxor: byte := 0;
    for i := 0 to |s|
      invariant rxor == XorAll(s[..i])
    {
      rxor := Xor8(rxor, s[i]);
      assert s[..i + 1][..i] == s[..i];
    }
    assert s[..|s|] == s;
    hash := |s| % 0x100_0000 * 256 + rxor;
  }

  // How many bytes of s have bit i.
  function BytesWith(s: Name, i: nat): nat {
    |set k | 0 <= k < |s| && Bit(s[k], i)|
  }

  lemma BytesWithNext(s: Name, i: nat)
    requires s != []
    ensures BytesWith(s, i) == BytesWith(s[..|s| - 1], i) + if Bit(s[|s| - 1], i) then 1 else 0
  {
    hide Bit;
    var n := |s| - 1;
    var before := set k | 0 <= k < n && Bit(s[..n][k], i);
    var all := set k | 0 <= k < n + 1 && Bit(s[k], i);
    assert all == if Bit(s[n], i) then before + {n} else before;
  }

  lemma {:induction false} XorOdd(s: Name, i: nat)
    requires i < 8
    ensures Bit(XorAll(s), i) <==> BytesWith(s, i) % 2 == 1
  {
    hide Bit;
    hide Xor;
    hide BytesWith;
    if s == [] {
      ZeroBit(i);
      NoneWith(i);
    } else {
      var n := |s| - 1;
      XorOdd(s[..n], i);
      BytesWithNext(s, i);
      XorIsXor(XorAll(s[..n]), s[n], i);
    }
  }

  lemma NoneWith(i: nat)
    ensures BytesWith([], i) == 0
  {
  }

  // The low eight bits of a hash tell which bits an odd number of bytes have, and the rest is the length.
  lemma HashBits(s: Name, i: nat)
    requires i < 8
    ensures Bit(Hash(s), i) <==> BytesWith(s, i) % 2 == 1
    ensures |s| < 0x100_0000 ==> Hash(s) / 256 == |s|
  {
    hide BytesWith;
    hide XorAll;
    assert Pow2(4) == 16;
    assert Pow2(8) == 256;
    LowBit(|s| % 0x100_0000, 8, XorAll(s), i);
    XorOdd(s, i);
  }

  // strncmp on two C strings.
  function Compare(a: Name, b: Name): int {
    if a == [] && b == [] then 0
    else if a == [] then -1
    else if b == [] then 1
    else if a[0] != b[0] then a[0] as int - b[0] as int
    else Compare(a[1..], b[1..])
  }

  lemma {:induction false} CompareEqual(a: Name, b: Name)
    ensures Compare(a, b) == 0 <==> a == b
  {
    if a != [] && b != [] {
      CompareEqual(a[1..], b[1..]);
      if a[0] == b[0] && a[1..] == b[1..] {
        assert a == [a[0]] + a[1..] && b == [b[0]] + b[1..];
      }
    }
  }

  lemma {:induction false} CompareSwap(a: Name, b: Name)
    ensures Compare(a, b) < 0 <==> Compare(b, a) > 0
  {
    if a != [] && b != [] && a[0] == b[0] {
      CompareSwap(a[1..], b[1..]);
    }
  }

  // The first byte that differs decides, the smaller one coming first, and a beginning comes before the whole.
  lemma {:induction false} CompareFirst(a: Name, b: Name, k: nat)
    requires k <= |a| && k <= |b| && a[..k] == b[..k]
    ensures k < |a| && k < |b| && a[k] < b[k] ==> Compare(a, b) < 0
    ensures k == |a| < |b| ==> Compare(a, b) < 0
  {
    if k > 0 {
      assert a[0] == a[..k][0] && b[0] == b[..k][0];
      assert a[1..][..k - 1] == a[..k][1..] && b[1..][..k - 1] == b[..k][1..];
      CompareFirst(a[1..], b[1..], k - 1);
    }
  }

  lemma {:induction false} CompareTransitive(a: Name, b: Name, c: Name)
    requires Compare(a, b) < 0 && Compare(b, c) < 0
    ensures Compare(a, c) < 0
  {
    if a != [] && a[0] == b[0] && b[0] == c[0] {
      CompareTransitive(a[1..], b[1..], c[1..]);
    }
  }

  // ---- keys ----

  // A name as the searches see it: its hash, and its bytes up to the first NUL.
  datatype Key = Key(hash: nat, text: Name)
  {
    predicate Less(k: Key) {
      hash < k.hash || (hash == k.hash && Compare(text, k.text) < 0)
    }
  }

  function KeyOf(s: Name): Key {
    Key(Hash(s), Trunc(s))
  }

  // Shorter names come first, whatever their bytes.
  lemma ShorterFirst(a: Name, b: Name)
    requires |a| < |b| < 0x100_0000
    ensures KeyOf(a).Less(KeyOf(b))
  {
    hide XorAll;
  }

  // Names of one length are ordered by the exclusive or of their bytes, then by their first different byte.
  lemma OneLength(a: Name, b: Name, k: nat)
    requires |a| == |b| < 0x100_0000 && NoNul(a) && NoNul(b) && k < |a| && a[..k] == b[..k] && a[k] < b[k]
    ensures KeyOf(a).Less(KeyOf(b)) <==> XorAll(a) <= XorAll(b)
  {
    hide XorAll;
    hide Compare;
    TruncWhole(a);
    TruncWhole(b);
    CompareFirst(a, b, k);
  }

  lemma LessTransitive(a: Key, b: Key, c: Key)
    requires a.Less(b) && b.Less(c)
    ensures a.Less(c)
  {
    if a.hash == b.hash && b.hash == c.hash {
      CompareTransitive(a.text, b.text, c.text);
    }
  }

  lemma LessTotal(a: Key, b: Key)
    ensures a.Less(b) || a == b || b.Less(a)
    ensures !(a.Less(b) && b.Less(a)) && !a.Less(a)
  {
    CompareSwap(a.text, b.text);
    CompareSwap(b.text, a.text);
    CompareEqual(a.text, b.text);
    CompareEqual(a.text, a.text);
  }

  lemma NotBoth(a: Key, b: Key)
    ensures !(a.Less(b) && b.Less(a))
  {
    LessTotal(a, b);
  }

  // ---- strncmp ----

  function Cut(s: Name, n: nat): Name {
    if |s| <= n then s else s[..n]
  }

  function StrNCmp(a: Name, b: Name, n: nat): int {
    Compare(Trunc(Cut(a, n)), Trunc(Cut(b, n)))
  }

  // Between names of one hash, of which the stored one is short, the searched length cuts nothing off.
  lemma StrNCmpIsLess(q: Name, e: Name)
    requires Hash(q) == Hash(e) && |e| <= MAX_NAME
    ensures StrNCmp(q, e, |q|) < 0 <==> KeyOf(q).Less(KeyOf(e))
    ensures StrNCmp(q, e, |q|) > 0 <==> KeyOf(e).Less(KeyOf(q))
    ensures StrNCmp(q, e, |q|) == 0 <==> KeyOf(q) == KeyOf(e)
    ensures StrNCmp(e, q, |q|) == 0 <==> KeyOf(q) == KeyOf(e)
  {
    SameLength(q, e);
    CompareSwap(Trunc(q), Trunc(e));
    CompareSwap(Trunc(e), Trunc(q));
    CompareEqual(Trunc(q), Trunc(e));
    CompareEqual(Trunc(e), Trunc(q));
  }

  lemma SameLength(q: Name, e: Name)
    requires Hash(q) == Hash(e) && |e| <= MAX_NAME
    ensures |e| <= |q|
  {
    HighBits(|q| % 0x100_0000, XorAll(q), |e| % 0x100_0000, XorAll(e));
  }

  lemma HighBits(a: nat, x: byte, b: nat, y: byte)
    requires a * 256 + x == b * 256 + y
    ensures a == b
  {
  }

  // Names without NUL are told apart by their keys.
  lemma TruncWhole(s: Name)
    requires NoNul(s)
    ensures Trunc(s) == s
  {
  }

  // Names have one key iff they agree in length, up to the first NUL and in the exclusive or of all bytes. So a
  // name without NUL shares its key with no other name, with NULs or without.
  lemma KeyIsName(a: Name, b: Name)
    requires |a| < 0x100_0000 && |b| < 0x100_0000
    ensures KeyOf(a) == KeyOf(b) <==> |a| == |b| && Trunc(a) == Trunc(b) && XorAll(a) == XorAll(b)
    ensures NoNul(a) ==> (KeyOf(a) == KeyOf(b) <==> a == b)
  {
    hide XorAll;
    hide Trunc;
    HashParts(|a|, XorAll(a), |b|, XorAll(b));
    if NoNul(a) {
      TruncWhole(a);
    }
  }

  lemma HashParts(m: nat, x: byte, n: nat, y: byte)
    requires m < 0x100_0000 && n < 0x100_0000
    ensures m % 0x100_0000 * 256 + x == n % 0x100_0000 * 256 + y <==> m == n && x == y
  {
  }

  // ---- the forward index ----

  // A niName: the name, the hash computed when it was added, and its id.
  datatype Entry = Entry(name: Name, hash: nat, id: nat)
  {
    predicate Good() {
      hash == Hash(name) && |name| < MAX_NAME
    }
  }

  predicate AllGood(index: seq<Entry>) {
    forall i :: 0 <= i < |index| ==> index[i].Good()
  }

  function K(index: seq<Entry>, i: nat): Key
    requires i < |index|
  {
    KeyOf(index[i].name)
  }

  // Strictly increasing keys.
  predicate Sorted(index: seq<Entry>) {
    forall i, j :: 0 <= i < j < |index| ==> K(index, i).Less(K(index, j))
  }

  predicate Below(index: seq<Entry>, pos: nat, k: Key) {
    forall i :: 0 <= i < pos && i < |index| ==> K(index, i).Less(k)
  }

  predicate Above(index: seq<Entry>, pos: nat, k: Key) {
    forall i :: pos <= i < |index| ==> k.Less(K(index, i))
  }

  predicate Contains(index: seq<Entry>, k: Key) {
    exists i :: 0 <= i < |index| && K(index, i) == k
  }

  // What a search for the key k answers: its position, or the one where it keeps the order.
  predicate Located(index: seq<Entry>, k: Key, pos: nat, found: bool) {
    if found then pos < |index| && K(index, pos) == k
    else pos <= |index| && Below(index, pos, k) && Above(index, pos, k)
  }

  // The answer and the position are the only ones.
  lemma LocatedUnique(index: seq<Entry>, k: Key, pos: nat, found: bool)
    requires Sorted(index) && Located(index, k, pos, found)
    ensures found <==> Contains(index, k)
    ensures forall p: nat, f :: Located(index, k, p, f) ==> p == pos && f == found
  {
    forall i | 0 <= i < |index|
      ensures K(index, i) == k ==> found && i == pos
      ensures K(index, i) == k || K(index, i).Less(k) || k.Less(K(index, i))
      ensures !(K(index, i).Less(k) && k.Less(K(index, i))) && !k.Less(k)
    {
      LessTotal(K(index, i), k);
      LessTotal(k, k);
      if i < pos < |index| {
        LessTotal(K(index, i), K(index, pos));
      } else if pos < i {
        LessTotal(K(index, pos), K(index, i));
      }
    }
    forall p: nat, f | Located(index, k, p, f)
      ensures p == pos && f == found
    {
      if !found && !f {
        if p < pos {
          NotBoth(K(index, p), k);
        } else if pos < p {
          NotBoth(K(index, pos), k);
        }
      }
    }
  }

  lemma HashOrder(index: seq<Entry>, i: nat, j: nat)
    requires Sorted(index) && AllGood(index) && i <= j < |index|
    ensures index[i].hash <= index[j].hash
  {
    if i < j {
      assert K(index, i).Less(K(index, j));
    }
  }

  lemma HashesBelow(index: seq<Entry>, j: nat, name: Name)
    requires Sorted(index) && AllGood(index) && j < |index| && index[j].hash < Hash(name)
    ensures Below(index, j + 1, KeyOf(name))
  {
    forall i | 0 <= i < j + 1
      ensures K(index, i).Less(KeyOf(name))
    {
      HashOrder(index, i, j);
    }
  }

  lemma HashesAbove(index: seq<Entry>, j: nat, name: Name)
    requires Sorted(index) && AllGood(index) && j < |index| && index[j].hash > Hash(name)
    ensures Above(index, j, KeyOf(name))
  {
    forall i | j <= i < |index|
      ensures KeyOf(name).Less(K(index, i))
    {
      HashOrder(index, j, i);
    }
  }

  lemma KeysBelow(index: seq<Entry>, j: nat, k: Key)
    requires Sorted(index) && j < |index| && K(index, j).Less(k)
    ensures Below(index, j + 1, k)
  {
    forall i | 0 <= i < j + 1
      ensures K(index, i).Less(k)
    {
      if i < j {
        LessTransitive(K(index, i), K(index, j), k);
      }
    }
  }

  lemma KeysAbove(index: seq<Entry>, j: nat, k: Key)
    requires Sorted(index) && j < |index| && k.Less(K(index, j))
    ensures Above(index, j, k)
  {
    forall i | j <= i < |index|
      ensures k.Less(K(index, i))
    {
      if j < i {
        LessTransitive(k, K(index, j), K(index, i));
      }
    }
  }
}
