// Bytes in memory: little- and big-endian words, C strings, and copying into a buffer.
module Bytes {

  datatype Option<+T> = None | Some(value: T)

  type byte = b: int | 0 <= b < 256

  // ---- fixed-width words ----

  // The two bytes of a uint16_t as x86 stores it.
  function LE16(n: nat): (b: seq<byte>)
    requires n < 0x1_0000
    ensures |b| == 2
  {
    [n % 256, n / 256]
  }

  // The four bytes of a uint32_t as x86 stores it.
  function LE32(n: nat): (b: seq<byte>)
    requires n < 0x1_0000_0000
    ensures |b| == 4
  {
    LE16(n % 0x1_0000) + LE16(n / 0x1_0000)
  }

  // The four bytes of a uint32_t in network order (htonl).
  function BE32(n: nat): (b: seq<byte>)
    requires n < 0x1_0000_0000
    ensures |b| == 4
  {
    [n / 0x100_0000, n / 0x1_0000 % 256, n / 256 % 256, n % 256]
  }

  function U16(b: seq<byte>, i: nat): (n: nat)
    requires i + 2 <= |b|
    ensures n < 0x1_0000
  {
    b[i] as int + 256 * b[i + 1] as int
  }

  function U32(b: seq<byte>, i: nat): (n: nat)
    requires i + 4 <= |b|
    ensures n < 0x1_0000_0000
  {
    U16(b, i) + 0x1_0000 * U16(b, i + 2)
  }

  function N32(b: seq<byte>, i: nat): (n: nat)
    requires i + 4 <= |b|
    ensures n < 0x1_0000_0000
  {
    0x1_0000 * (b[i] as int * 256 + b[i + 1] as int) + b[i + 2] as int * 256 + b[i + 3] as int
  }

  // b holds the bytes s at position p.
  predicate Has(b: seq<byte>, p: nat, s: seq<byte>) {
    p + |s| <= |b| && forall k :: 0 <= k < |s| ==> b[p + k] == s[k]
  }

  lemma U16OfLE16(b: seq<byte>, i: nat, n: nat)
    requires n < 0x1_0000 && Has(b, i, LE16(n))
    ensures U16(b, i) == n
  {
    assert b[i + 0] == LE16(n)[0] && b[i + 1] == LE16(n)[1];
  }

  lemma U32OfLE32(b: seq<byte>, i: nat, n: nat)
    requires n < 0x1_0000_0000 && Has(b, i, LE32(n))
    ensures U32(b, i) == n
  {
    var w := LE32(n);
    assert b[i + 0] == w[0] && b[i + 1] == w[1] && b[i + 2] == w[2] && b[i + 3] == w[3];
  }

  lemma N32OfBE32(b: seq<byte>, i: nat, n: nat)
    requires n < 0x1_0000_0000 && Has(b, i, BE32(n))
    ensures N32(b, i) == n
  {
    var w := BE32(n);
    assert n / 0x1_0000 == n / 256 / 256 && n / 0x100_0000 == n / 0x1_0000 / 256;
    assert b[i + 0] == w[0] && b[i + 1] == w[1] && b[i + 2] == w[2] && b[i + 3] == w[3];
  }

  // ---- C strings ----

  predicate NoNul(s: seq<byte>) {
    forall i :: 0 <= i < |s| ==> s[i] != 0
  }

  // The bytes before the first NUL, or all of them.
  function Trunc(s: seq<byte>): (t: seq<byte>)
    ensures t <= s && NoNul(t)
    ensures |t| == |s| || s[|t|] == 0
  {
    if s == [] || s[0] == 0 then [] else [s[0]] + Trunc(s[1..])
  }

  // The C string at offset off; None when no terminator follows inside the buffer.
  function CStr(b: seq<byte>, off: nat): (r: Option<seq<byte>>) {
    if off <= |b| && |Trunc(b[off..])| < |b| - off then Some(Trunc(b[off..])) else None
  }

  lemma {:induction false} TruncOf(s: seq<byte>, rest: seq<byte>)
    requires NoNul(s)
    ensures Trunc(s + [0] + rest) == s
  {
    if s == [] {
    } else {
      assert (s + [0] + rest)[1..] == s[1..] + [0] + rest;
      TruncOf(s[1..], rest);
    }
  }

  // There is a C string exactly if a NUL follows, and it reaches up to the first one.
  lemma CStrExactly(b: seq<byte>, off: nat)
    ensures CStr(b, off).Some? <==> exists k :: off <= k < |b| && b[k] == 0
    ensures CStr(b, off).Some? ==>
      var s := CStr(b, off).value;
      off + |s| < |b| && b[off..off + |s|] == s && b[off + |s|] == 0 && forall k :: 0 <= k < |s| ==> s[k] != 0
  {
    if off <= |b| {
      var t := Trunc(b[off..]);
      if |t| < |b| - off {
        assert b[off + |t|] == b[off..][|t|];
      } else {
        assert t == b[off..];
        forall k | off <= k < |b|
          ensures b[k] != 0
        {
          assert t[k - off] == b[k];
        }
      }
    }
  }

  lemma CStrAt(b: seq<byte>, off: nat, s: seq<byte>)
    requires NoNul(s) && Has(b, off, s + [0])
    ensures CStr(b, off) == Some(s)
  {
    var t, rest := s + [0], b[off + |s| + 1..];
    assert forall k :: 0 <= k < |t| ==> b[off + k] == t[k];
    assert b[off..] == t + rest;
    TruncOf(s, rest);
  }

  // ---- copying into a buffer ----

  // memcpy
  method Store(a: array<byte>, off: nat, s: seq<byte>)
    requires off + |s| <= a.Length
    modifies a
    ensures forall k :: 0 <= k < a.Length ==>
      a[k] == if off <= k < off + |s| then s[k - off] else old(a[k])
  {
    forall k | 0 <= k < |s| {
      a[off + k] := s[k];
    }
  }

  // memcpy followed by a terminator
  method StoreCString(a: array<byte>, off: nat, s: seq<byte>) returns (next: nat)
    requires off + |s| < a.Length
    modifies a
    ensures next == off + |s| + 1
    ensures forall k :: 0 <= k < a.Length ==>
      a[k] == if off <= k < off + |s| then s[k - off] else if k == off + |s| then 0 else old(a[k])
  {
    Store(a, off, s);
    a[off + |s|] := 0;
    next := off + |s| + 1;
  }
}
