// The keys under which the cache stores control records and parts.
module CacheKeys {
  import opened Bytes

  const DASH: byte := 45

  // sprintf( "%u" )
  function Dec(n: nat): (s: seq<byte>)
    ensures s != []
  {
    if n < 10 then [48 + n] else Dec(n / 10) + [48 + n % 10]
  }

  predicate NoDash(s: seq<byte>) {
    forall i :: 0 <= i < |s| ==> s[i] != DASH
  }

  // Every character is a digit.
  lemma {:induction false} DecDigits(n: nat)
    ensures forall i :: 0 <= i < |Dec(n)| ==> 48 <= Dec(n)[i] <= 57
  {
    if n >= 10 {
      DecDigits(n / 10);
    }
  }

  lemma {:induction false} DecInjective(m: nat, n: nat)
    requires Dec(m) == Dec(n)
    ensures m == n
  {
    var s, t := Dec(m), Dec(n);
    LastDigit(m);
    LastDigit(n);
    assert s[|s| - 1] == t[|t| - 1];
    if m >= 10 && n >= 10 {
      assert s[..|s| - 1] == t[..|t| - 1];
      DecInjective(m / 10, n / 10);
    }
  }

  lemma LastDigit(n: nat)
    ensures var s := Dec(n); s[|s| - 1] == 48 + n % 10
    ensures var s := Dec(n); if n < 10 then |s| == 1 else s[..|s| - 1] == Dec(n / 10) && |s| > 1
  {
  }

  // The number a row of digits stands for.
  function Number(s: seq<byte>): int {
    if s == [] then 0 else 10 * Number(s[..|s| - 1]) + s[|s| - 1] as int - 48
  }

  // Decimal digits, the most significant first.
  lemma {:induction false} DecNumber(n: nat)
    ensures Number(Dec(n)) == n
  {
    LastDigit(n);
    if n >= 10 {
      DecNumber(n / 10);
    }
  }

  // key + "_ctl"
  const CTL: seq<byte> := [95, 99, 116, 108]

  function CtlKey(key: seq<byte>): seq<byte> {
    key + CTL
  }

  // key-pid-time-
  function BaseKey(key: seq<byte>, pid: nat, time: nat): seq<byte> {
    key + [DASH] + Dec(pid) + [DASH] + Dec(time) + [DASH]
  }

  // "k_ctl", "k-12-345-" and "k-12-345-6".
  lemma KeyBytes()
    ensures CtlKey([107]) == [107, 95, 99, 116, 108]
    ensures BaseKey([107], 12, 345) == [107, 45, 49, 50, 45, 51, 52, 53, 45]
    ensures PartKey(BaseKey([107], 12, 345), 6) == [107, 45, 49, 50, 45, 51, 52, 53, 45, 54]
  {
    assert Dec(12) == [49, 50] && Dec(34) == [51, 52] && Dec(345) == [51, 52, 53];
  }

  predicate IsBase(base: seq<byte>) {
    base != [] && base[|base| - 1] == DASH
  }

  function PartKey(base: seq<byte>, part: nat): seq<byte> {
    base + Dec(part)
  }

  // What stands before the last dash, and what behind it.
  lemma LastDash(a: seq<byte>, x: seq<byte>, b: seq<byte>, y: seq<byte>)
    requires a + [DASH] + x == b + [DASH] + y && NoDash(x) && NoDash(y)
    ensures a == b && x == y
  {
    var s, t := a + [DASH] + x, b + [DASH] + y;
    if |x| < |y| {
      LongerTail(a, x, b, y);
    } else if |y| < |x| {
      LongerTail(b, y, a, x);
    }
    assert a == s[..|a|] && b == t[..|b|];
    assert x == s[|a| + 1..] && y == t[|b| + 1..];
  }

  lemma LongerTail(a: seq<byte>, x: seq<byte>, b: seq<byte>, y: seq<byte>)
    requires |x| < |y| && |a| + |x| == |b| + |y| && NoDash(y)
    ensures a + [DASH] + x != b + [DASH] + y
  {
    var s, t := a + [DASH] + x, b + [DASH] + y;
    assert s[|a|] == DASH && t[|a|] == y[|a| - |b| - 1];
  }

  lemma DecNoDash(n: nat)
    ensures NoDash(Dec(n))
  {
    DecDigits(n);
  }

  // Parts of different inserts, and different parts of one insert, have different keys.
  lemma PartKeysDiffer(b: seq<byte>, i: nat, c: seq<byte>, j: nat)
    requires IsBase(b) && IsBase(c) && PartKey(b, i) == PartKey(c, j)
    ensures b == c && i == j
  {
    var a, d := b[..|b| - 1], c[..|c| - 1];
    assert b == a + [DASH] && c == d + [DASH];
    DecNoDash(i);
    DecNoDash(j);
    LastDash(a, Dec(i), d, Dec(j));
    DecInjective(i, j);
  }

  // No part has the key of a control record.
  lemma PartIsNotCtl(b: seq<byte>, i: nat, key: seq<byte>)
    ensures PartKey(b, i) != CtlKey(key)
  {
    DecDigits(i);
    var s, t := PartKey(b, i), CtlKey(key);
    assert s[|s| - 1] == Dec(i)[|Dec(i)| - 1] && t[|t| - 1] == 108;
  }

  lemma CtlKeysDiffer(k: seq<byte>, m: seq<byte>)
    requires CtlKey(k) == CtlKey(m)
    ensures k == m
  {
    assert k == CtlKey(k)[..|CtlKey(k)| - 4] && m == CtlKey(m)[..|CtlKey(m)| - 4];
  }

  // The base key tells the user's key, the process and the second.
  lemma BaseKeysDiffer(k: seq<byte>, pid: nat, time: nat, k': seq<byte>, pid': nat, time': nat)
    requires BaseKey(k, pid, time) == BaseKey(k', pid', time')
    ensures k == k' && pid == pid' && time == time'
  {
    DecNoDash(pid);
    DecNoDash(time);
    DecNoDash(pid');
    DecNoDash(time');
    var a, b := k + [DASH] + Dec(pid), k' + [DASH] + Dec(pid');
    assert BaseKey(k, pid, time) == a + [DASH] + Dec(time) + [DASH] + [];
    assert BaseKey(k', pid', time') == b + [DASH] + Dec(time') + [DASH] + [];
    LastDash(a + [DASH] + Dec(time), [], b + [DASH] + Dec(time'), []);
    LastDash(a, Dec(time), b, Dec(time'));
    LastDash(k, Dec(pid), k', Dec(pid'));
    DecInjective(pid, pid');
    DecInjective(time, time');
  }
}
