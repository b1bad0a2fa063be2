// KeyboardNumberParser as it runs: scanning loops, and grammar functions that move a position.
module NumeralReader {
  import opened Bytes
  import opened NumeralText
  import opened NumeralGrammar

  // ---- scanning ----

  method FindDigitsEnd(t: Text, p: nat) returns (end: nat)
    requires p <= |t|
    ensures end == DigitsEnd(t, p)
  {
    end := p;
    while end < |t| && t[end].Digit?
      invariant p <= end <= |t| && DigitsEnd(t, end) == DigitsEnd(t, p)
    {
      end := end + 1;
    }
  }

  // The loop of D and D3: up to `limit` digits.
  method ReadDigits(t: Text, p: nat, limit: nat) returns (res: nat, pos: nat)
    requires p <= |t|
    ensures pos == if DigitsEnd(t, p) - p <= limit then DigitsEnd(t, p) else p + limit
    ensures forall i :: p <= i < pos ==> t[i].Digit?
    ensures res == Value(DigitsAt(t, p, pos))
  {
    res, pos := 0, p;
    while pos - p < limit && pos < |t| && t[pos].Digit?
      invariant p <= pos <= |t| && pos - p <= limit && DigitsEnd(t, pos) == DigitsEnd(t, p)
      invariant forall i :: p <= i < pos ==> t[i].Digit?
      invariant res == Value(DigitsAt(t, p, pos))
    {
      ghost var before := DigitsAt(t, p, pos);
      res := res * 10 + t[pos].v as nat;
      pos := pos + 1;
      ghost var now := DigitsAt(t, p, pos);
      assert now[..|now| - 1] == before;
    }
  }

  // ---- words from the tables ----

  // The word at p looked up in a table, and the position behind it and a space.
  method ReadEntry(t: Text, p: nat, table: Text -> Option<nat>) returns (v: nat, next: nat, found: bool)
    requires p <= |t|
    ensures (v, next, found) == Entry(t, p, table)
  {
    var end := FindWordEnd(t, p);
    var entry := table(t[p..end]);
    if entry.None? {
      return 0, p, false;
    }
    v, next, found := entry.value, if end < |t| then end + 1 else |t|, true;
  }

  method ParseS(t: Text, p: nat) returns (r: Parse<nat>)
    requires p <= |t|
    ensures r == S(t, p)
  {
    var pos := SkipSpaces(t, p);
    if pos >= |t| {
      return None;
    }
    var aResult: nat, parsed, begin: nat := 0, false, pos;
    var v, next, found := ReadEntry(t, begin, HundredOf);
    if found {
      aResult, parsed, begin := aResult + v, true, next;
    }
    v, next, found := ReadEntry(t, begin, DecadeOf);
    if found {
      aResult, parsed, begin := aResult + v, true, next;
    }
    v, next, found := ReadEntry(t, begin, UnitOf);
    if found {
      aResult, parsed, begin := aResult + v, true, next;
    }
    r := if parsed then Some((aResult, begin)) else None;
  }

  method ParseR(t: Text, p: nat) returns (r: Parse<nat>)
    requires p <= |t|
    ensures r == R(t, p)
  {
    if p >= |t| {
      return None;
    }
    var pos := SkipSpaces(t, p);
    var end := FindWordEnd(t, pos);
    if end == pos {
      return None;
    }
    var base := BaseOf(t[pos..end]);
    r := if base.None? then None else Some((base.value, end + if end < |t| then 1 else 0));
  }

  method ParseD2(t: Text, p: nat) returns (r: Parse<nat>)
    requires p <= |t|
    ensures r == D2(t, p)
  {
    if p >= |t| {
      return None;
    }
    var pos := SkipSpaces(t, p);
    var end := FindWordEnd(t, pos);
    if end == pos {
      return None;
    }
    var base := FractionOf(t[pos..end]);
    r := if base.None? then None else Some((base.value, end));
  }

  method ParseZ(t: Text, p: nat) returns (r: Option<nat>)
    requires p <= |t|
    ensures r == if Z(t, p) then Some(WordEnd(t, SkipSpaces(t, p))) else None
  {
    var pos := SkipSpaces(t, p);
    if pos >= |t| {
      return None;
    }
    var end := FindWordEnd(t, pos);
    r := if t[pos..end] == [Word(Zero(0))] || t[pos..end] == [Digit(0)] then Some(end) else None;
  }

  // ---- numbers in digits ----

  method ParseNN(t: Text, p: nat) returns (r: Parse<nat>)
    requires p <= |t|
    ensures r == NN(t, p)
  {
    var pos := SkipSpaces(t, p);
    if pos >= |t| {
      return None;
    }
    var end := FindDigitsEnd(t, pos);
    if end == pos {
      return None;
    }
    r := Some((Value(DigitsAt(t, pos, end)), end));
  }

  method ParseD(t: Text, p: nat) returns (r: Parse<nat>)
    requires p <= |t|
    ensures r == D(t, p)
  {
    var pos := SkipSpaces(t, p);
    if pos >= |t| || !t[pos].Digit? {
      return None;
    }
    var res, end := ReadDigits(t, pos, 3);
    r := Some((res, end));
  }

  method ParseD3(t: Text, p: nat) returns (r: Parse<nat>)
    requires p <= |t|
    ensures r == D3(t, p)
  {
    var pos := SkipSpaces(t, p);
    if pos >= |t| || !t[pos].Digit? {
      return None;
    }
    var res, end := ReadDigits(t, pos, 3);
    r := if end - pos < 3 then None else Some((res, end));
  }

  // ---- the grammar ----

  method ParseKK(t: Text, p: nat) returns (r: Parse<nat>)
    requires p <= |t|
    ensures r == KK(t, p)
  {
    var pos := SkipSpaces(t, p);
    r := ParseS(t, pos);
    if r.None? {
      r := ParseNN(t, pos);
    }
  }

  method ParseK(t: Text, p: nat) returns (r: Parse<nat>)
    requires p <= |t|
    ensures r == K(t, p)
  {
    var pos := SkipSpaces(t, p);
    if pos >= |t| {
      return None;
    }
    r := ParseD(t, pos);
    if r.None? {
      r := ParseS(t, pos);
    }
  }

  method ParseK3(t: Text, p: nat) returns (r: Parse<nat>)
    requires p <= |t|
    ensures r == K3(t, p)
  {
    var pos := SkipSpaces(t, p);
    if pos >= |t| {
      return None;
    }
    r := ParseD3(t, pos);
    if r.None? {
      r := ParseS(t, pos);
    }
  }

  // The value and the position of an accepted multiplier form.
  function Accepted(m: Parse<Multiple>): Parse<nat> {
    match m
    case None => None
    case Some((x, p)) => Some((x.Val(), p))
  }

  method ParseT(t: Text, p: nat) returns (r: Parse<nat>)
    requires p <= |t|
    ensures r == Accepted(T(t, p))
    decreases |t| - p
  {
    hide KK;
    hide R;
    hide NN;
    var pos := SkipSpaces(t, p);
    var kk := ParseKK(t, pos);
    if kk.Some? {
      var base := ParseR(t, kk.value.1);
      if base.None? {
        r := ParseNN(t, pos);
        return;
      }
      if kk.value.0 >= base.value.0 {
        return None;
      }
      var rest := ParseT(t, base.value.1);
      if rest.None? {
        return Some((kk.value.0 * base.value.0, base.value.1));
      }
      return if base.value.0 > rest.value.0 then Some((kk.value.0 * base.value.0 + rest.value.0, rest.value.1)) else None;
    }
    var base := ParseR(t, pos);
    if base.None? {
      return None;
    }
    var rest := ParseT(t, base.value.1);
    if rest.None? {
      return base;
    }
    r := if base.value.0 > rest.value.0 then Some((base.value.0 + rest.value.0, rest.value.1)) else None;
  }

  method ParseN(t: Text, p: nat) returns (r: Parse<nat>)
    requires p <= |t|
    ensures r == N(t, p)
  {
    hide T;
    hide K;
    hide K3;
    hide Z;
    r := ParseT(t, p);
    if r.Some? {
      var k := ParseK3(t, r.value.1);
      if k.Some? {
        r := Some((r.value.0 + k.value.0, k.value.1));
      }
      return;
    }
    r := ParseK(t, p);
    if r.Some? {
      return;
    }
    var z := ParseZ(t, p);
    r := if z.Some? then Some((0, z.value)) else None;
  }

  // D1 and DOT: a word that may be there.
  method ParseOptional(t: Text, p: nat, w: Word) returns (r: Option<nat>)
    requires p <= |t|
    ensures r == Optional(t, p, w)
  {
    if p >= |t| {
      return None;
    }
    var pos := SkipSpaces(t, p);
    r := Some(p);
    if pos < |t| && t[pos] == Word(w) {
      r := Some(pos + 1);
    }
  }

  method ParseUF(t: Text, p: nat) returns (r: Parse<Amount>)
    requires p <= |t|
    ensures r == UF(t, p)
  {
    hide N;
    hide D2;
    hide Optional;
    var integral := ParseN(t, p);
    if integral.None? {
      return None;
    }
    var i, p1 := integral.value.0, integral.value.1;
    var p2 := ParseOptional(t, p1, Integral(0));
    if p2.Some? {
      var p3 := ParseOptional(t, p2.value, And);
      if p3.None? {
        return if END(t, p2.value) then Some((Whole(i), p2.value)) else None;
      }
      var fraction := ParseN(t, p3.value);
      if fraction.Some? {
        var base := ParseD2(t, fraction.value.1);
        if base.None? || !END(t, base.value.1) {
          return None;
        }
        return Some((Amount(false, i, fraction.value.0, base.value.0), base.value.1));
      }
    }
    var base := ParseD2(t, p1);
    if base.Some? {
      return if END(t, base.value.1) then Some((Amount(false, 0, i, base.value.0), base.value.1)) else None;
    }
    r := if END(t, p1) then Some((Whole(i), p1)) else None;
  }

  method ParseSF(t: Text) returns (r: Parse<Amount>)
    ensures r == SF(t)
  {
    hide UF;
    if |t| < 1 {
      return None;
    }
    var is_negated := t[0] == Sign(true);
    r := ParseUF(t, if t[0].Sign? then 1 else 0);
    if r.Some? && is_negated {
      r := Some((r.value.0.(negative := true), r.value.1));
    }
  }

  method ParseText(t: Text) returns (r: Outcome)
    ensures r == ParseNumber(t)
  {
    var normalized := NormalizeNumerals(t);
    var input := DeleteSpaces(normalized);
    if NoNumerals(input) {
      return AsDecimal(input);
    }
    var v := ParseSF(input);
    r := if v.Some? then Parsed(v.value.0) else NotANumber;
  }
}
