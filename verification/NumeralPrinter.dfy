// NumberToString: the numeral of a decimal number, with gender and case agreement.
module NumeralPrinter {
  import opened NumeralText

  const MAX_INTEGRAL_DIGITS := 27
  const MAX_FRACTIONAL_DIGITS := 11

  // ---- the words of a number ----

  // The count that decides agreement: units, or ten to nineteen as one word.
  function Lead(v: nat): (n: nat)
    ensures n < 20
  {
    v % 10 + if v / 10 % 10 == 1 then 10 else 0
  }

  function UnitWord(n: nat, feminine: bool): Word {
    Unit(n, if feminine && n <= 2 then 1 else 0)
  }

  function When(cond: bool, w: Word): seq<Word> {
    if cond then [w] else []
  }

  function SmallWords(v: nat, feminine: bool): seq<Word> {
    When(v / 100 > 0, Hundred(v / 100, 0))
      + When(v / 10 % 10 > 1, Decade(v / 10 % 10, 0))
      + When(Lead(v) > 0, UnitWord(Lead(v), feminine))
  }

  function BaseForm(n: nat): nat {
    if n == 1 then 0 else if 2 <= n <= 4 then 1 else 2
  }

  predicate Feminine(base: nat, float: bool) {
    base == 1 || (base == 0 && float)
  }

  function GroupWords(v: nat, base: nat, float: bool): seq<Word> {
    SmallWords(v, Feminine(base, float)) + When(v > 0 && base > 0, Base(base, BaseForm(Lead(v))))
  }

  function GroupsWords(vs: seq<nat>, float: bool): seq<Word> {
    if vs == [] then [] else GroupWords(vs[0], |vs| - 1, float) + GroupsWords(vs[1..], float)
  }

  function IntegralWords(ds: seq<digit>, float: bool): seq<Word> {
    if ds == [] then [] else if Value(ds) == 0 then [Zero(0)] else GroupsWords(Groups(ds), float)
  }

  // The word behind the integral part is singular after a one that is not an eleven.
  function IntegralForm(ds: seq<digit>): nat
    requires ds != []
  {
    if ds[|ds| - 1] == 1 && (|ds| < 2 || ds[|ds| - 2] != 1) then 1 else 0
  }

  function FractionForm(ds: seq<digit>): nat
    requires ds != []
  {
    if ds[|ds| - 1] == 1 && (|ds| < 2 || ds[|ds| - 2] != 1) then 0 else 1
  }

  function FloatWords(ids: seq<digit>, fds: seq<digit>): seq<Word>
    requires ids != [] && fds != []
  {
    IntegralWords(ids, true) + [Integral(IntegralForm(ids)), And] + IntegralWords(fds, true)
      + [Fraction(|fds|, FractionForm(fds))]
  }

  // ---- one group ----

  // Appends w, behind a space unless it comes first, when the condition of its branch holds.
  method EmitIf(cond: bool, text: Text, w: Word, ghost done: seq<Word>) returns (text': Text, ghost done': seq<Word>)
    requires text == Join(done)
    ensures done' == done + When(cond, w)
    ensures text' == Join(done')
  {
    text', done' := text, done + When(cond, w);
    assert done + [] == done;
    if cond {
      JoinSnoc(done, w);
      text' := if text != [] then text + [Space] else [];
      text' := text' + [Word(w)];
    }
  }

  lemma ThreeDigits(ds: seq<digit>)
    requires 1 <= |ds| <= 3
    ensures Value(ds) == (if |ds| == 3 then 100 * (ds[0] as nat) else 0)
      + (if |ds| >= 2 then 10 * (ds[|ds| - 2] as nat) else 0) + ds[|ds| - 1] as nat
  {
    if |ds| >= 2 {
      assert ds[..|ds| - 1][..|ds| - 2] == ds[..|ds| - 2];
      if |ds| == 3 {
        assert ds[..1][..0] == [];
      }
    }
  }

  lemma DigitsOf(h: nat, t: nat, u: nat)
    requires h < 10 && t < 10 && u < 10
    ensures (100 * h + 10 * t + u) / 100 == h
    ensures (100 * h + 10 * t + u) / 10 % 10 == t
    ensures (100 * h + 10 * t + u) % 10 == u
  {
  }

  // The digits of the group of k digits at start, as the three branches of the loop find them.
  function HundredsAt(ds: seq<digit>, start: nat, k: nat): nat
    requires 1 <= k <= 3 && start + k <= |ds|
  {
    if k == 3 then ds[start] else 0
  }

  function TensAt(ds: seq<digit>, start: nat, k: nat): nat
    requires 1 <= k <= 3 && start + k <= |ds|
  {
    if k >= 2 then ds[start + k - 2] else 0
  }

  lemma GroupDigits(ds: seq<digit>, start: nat, k: nat)
    requires 1 <= k <= 3 && start + k <= |ds|
    ensures var v := Value(ds[start..start + k]);
      && v / 100 == HundredsAt(ds, start, k) && v / 10 % 10 == TensAt(ds, start, k) && v % 10 == ds[start + k - 1]
      && (v > 0 <==> HundredsAt(ds, start, k) > 0 || TensAt(ds, start, k) > 1 || Lead(v) > 0)
  {
    ThreeDigits(ds[start..start + k]);
    DigitsOf(HundredsAt(ds, start, k), TensAt(ds, start, k), ds[start + k - 1]);
  }

  // One pass of the loop of IntegralToString: the group of digits at start.
  method PrintGroup(ds: seq<digit>, start: nat, base: nat, float: bool, text: Text, ghost done: seq<Word>)
      returns (next: nat, text': Text)
    requires start < |ds| && base == (|ds| - start - 1) / 3 && (start == 0 || (|ds| - start) % 3 == 0)
    requires text == Join(done)
    ensures next == start + FirstLen(|ds| - start)
    ensures text' == Join(done + GroupWords(Value(ds[start..next]), base, float))
  {
    var h, t, n;
    h, t, n, next := SplitGroup(ds, start);
    ghost var v, words := Value(ds[start..next]), done;
    text', words := EmitIf(h > 0, text, Hundred(h, 0), words);
    text', words := EmitIf(t > 1, text', Decade(t, 0), words);
    var feminine := base == 1 || (base == 0 && float);
    text', words := EmitIf(n > 0, text', UnitWord(n, feminine), words);
    var is_zero := !(h > 0 || t > 1 || n > 0);
    text', words := EmitIf(!is_zero && base > 0, text', Base(base, BaseForm(n)), words);
    Regroup4(done, When(h > 0, Hundred(h, 0)), When(t > 1, Decade(t, 0)), When(n > 0, UnitWord(n, feminine)),
             When(v > 0 && base > 0, Base(base, BaseForm(n))));
  }

  lemma Regroup4(d: seq<Word>, a: seq<Word>, b: seq<Word>, c: seq<Word>, e: seq<Word>)
    ensures d + a + b + c + e == d + (a + b + c + e)
  {
  }

  lemma GroupMod(n: nat)
    requires n > 0
    ensures n % 3 == 0 <==> FirstLen(n) == 3
    ensures (1 + n) % 3 == 0 <==> FirstLen(n) == 2
  {
    var q, r := n / 3, n % 3;
    Thirds(n, q, r);
    if r == 2 {
      Thirds(n + 1, q + 1, 0);
    } else {
      Thirds(n + 1, q, r + 1);
    }
    if r == 0 {
      Thirds(n - 1, q - 1, 2);
    } else {
      Thirds(n - 1, q, r - 1);
    }
  }

  lemma Thirds(n: int, q: int, r: int)
    requires n == 3 * q + r && 0 <= r < 3
    ensures n % 3 == r
  {
  }

  // The position arithmetic of the loop: which of the digits of the group are there.
  method SplitGroup(ds: seq<digit>, start: nat) returns (h: nat, t: nat, n: nat, next: nat)
    requires start < |ds| && (start == 0 || (|ds| - start) % 3 == 0)
    ensures next == start + FirstLen(|ds| - start)
    ensures var v := Value(ds[start..next]);
      && h == v / 100 && t == v / 10 % 10 && n == Lead(v) && (v > 0 <==> h > 0 || t > 1 || n > 0)
  {
    ghost var k := FirstLen(|ds| - start);
    GroupDigits(ds, start, k);
    GroupMod(|ds| - start);
    var pos := start;
    h, t := 0, 0;
    if (|ds| - pos) % 3 == 0 {
      h := ds[pos];
      pos := pos + 1;
    }
    assert 1 + |ds| - pos == if k == 3 then |ds| - start else 1 + (|ds| - start);
    if (1 + |ds| - pos) % 3 == 0 {
      t := ds[pos];
      pos := pos + 1;
    }
    assert pos == start + k - 1 && h == HundredsAt(ds, start, k) && t == TensAt(ds, start, k);
    n := ds[pos] as nat + if pos > 0 && ds[pos - 1] == 1 then 10 else 0;
    next := pos + 1;
  }

  // ---- the whole number ----

  lemma {:induction false} ZeroDigits(ds: seq<digit>)
    ensures Value(ds) == 0 <==> forall i :: 0 <= i < |ds| ==> ds[i] == 0
  {
    if ds != [] {
      ZeroDigits(ds[..|ds| - 1]);
      if Value(ds) == 0 {
        assert forall i :: 0 <= i < |ds| - 1 ==> ds[i] == ds[..|ds| - 1][i];
      }
    }
  }

  lemma GroupsSplit(ds: seq<digit>, start: nat)
    requires start < |ds|
    ensures var next := start + FirstLen(|ds| - start);
      Groups(ds[start..]) == [Value(ds[start..next])] + Groups(ds[next..])
  {
    hide Value;
    hide FirstLen;
    var k := FirstLen(|ds| - start);
    assert ds[start..][..k] == ds[start..start + k] && ds[start..][k..] == ds[start + k..];
  }

  lemma GroupsLeft(ds: seq<digit>, start: nat)
    requires start < |ds|
    ensures |Groups(ds[start..])| - 1 == (|ds| - start - 1) / 3
  {
    GroupsCount(ds[start..]);
  }

  lemma WordsStep(v: nat, rest: seq<nat>, float: bool)
    ensures GroupsWords([v] + rest, float) == GroupWords(v, |rest|, float) + GroupsWords(rest, float)
  {
    assert ([v] + rest)[1..] == rest;
  }

  lemma GroupsStep(ds: seq<digit>, start: nat, float: bool)
    requires start < |ds|
    ensures var next := start + FirstLen(|ds| - start);
      GroupsWords(Groups(ds[start..]), float) ==
      GroupWords(Value(ds[start..next]), (|ds| - start - 1) / 3, float) + GroupsWords(Groups(ds[next..]), float)
  {
    var next := start + FirstLen(|ds| - start);
    GroupsSplit(ds, start);
    GroupsLeft(ds, start);
    WordsStep(Value(ds[start..next]), Groups(ds[next..]), float);
  }

  lemma Carry(done: seq<Word>, words: seq<Word>, rest: seq<Word>)
    ensures done + (words + rest) == done + words + rest
  {
  }

  method IntegralToString(ds: seq<digit>, numeral: Text, float: bool, ghost done: seq<Word>) returns (text: Text)
    requires numeral == Join(done)
    ensures text == Join(done + IntegralWords(ds, float))
  {
    text := numeral;
    if |ds| == 0 {
      assert done + [] == done;
      return;
    }
    var is_zero, i := true, 0;
    while i < |ds| && is_zero
      invariant i <= |ds|
      invariant is_zero ==> forall j :: 0 <= j < i ==> ds[j] == 0
      invariant !is_zero ==> exists j :: 0 <= j < |ds| && ds[j] != 0
    {
      if ds[i] != 0 {
        is_zero := false;
      }
      i := i + 1;
    }
    ZeroDigits(ds);
    if is_zero {
      ghost var words;
      text, words := EmitIf(true, text, Zero(0), done);
    } else {
      text := PrintGroups(ds, text, float, done);
    }
  }

  // The words printed and the words of the groups left make up the whole numeral.
  predicate Remains(ds: seq<digit>, pos: nat, float: bool, words: seq<Word>, all: seq<Word>) {
    pos <= |ds| && words + GroupsWords(Groups(ds[pos..]), float) == all
  }

  lemma PrintingStep(ds: seq<digit>, pos: nat, next: nat, base: nat, float: bool, words: seq<Word>, all: seq<Word>)
    requires pos < |ds| && next == pos + FirstLen(|ds| - pos) && base == (|ds| - pos - 1) / 3
    requires Remains(ds, pos, float, words, all)
    ensures Remains(ds, next, float, words + GroupWords(Value(ds[pos..next]), base, float), all)
  {
    hide FirstLen;
    hide Value;
    hide Groups;
    hide GroupWords;
    hide GroupsWords;
    GroupsStep(ds, pos, float);
    Carry(words, GroupWords(Value(ds[pos..next]), base, float), GroupsWords(Groups(ds[next..]), float));
  }

  // base is the power of the group that starts at pos.
  predicate AtGroup(n: nat, pos: nat, base: int) {
    && pos <= n
    && (pos == 0 || (n - pos) % 3 == 0)
    && (pos < n ==> base == (n - pos - 1) / 3)
  }

  lemma NextGroup(n: nat, pos: nat, base: int)
    requires AtGroup(n, pos, base) && pos < n
    ensures AtGroup(n, pos + FirstLen(n - pos), base - 1)
  {
    var k := FirstLen(n - pos);
    assert (n - pos - 1) / 3 == (n - pos - k) / 3;
  }

  method PrintGroups(ds: seq<digit>, numeral: Text, float: bool, ghost done: seq<Word>) returns (text: Text)
    requires numeral == Join(done) && ds != []
    ensures text == Join(done + GroupsWords(Groups(ds), float))
  {
    text := numeral;
    ghost var words, all := done, done + GroupsWords(Groups(ds), float);
    assert Remains(ds, 0, float, words, all) by {
      assert ds[0..] == ds;
    }
    var base: int, pos: nat := (|ds| - 1) / 3, 0;
    while pos < |ds|
      invariant AtGroup(|ds|, pos, base)
      invariant text == Join(words) && Remains(ds, pos, float, words, all)
      decreases |ds| - pos
    {
      pos, text, words := PrintNext(ds, pos, base, float, text, words, all);
      base := base - 1;
    }
    NothingRemains(ds, float, words, all);
  }

  lemma NothingRemains(ds: seq<digit>, float: bool, words: seq<Word>, all: seq<Word>)
    requires Remains(ds, |ds|, float, words, all)
    ensures words == all
  {
    assert ds[|ds|..] == [] && words + [] == words;
  }

  method PrintNext(ds: seq<digit>, start: nat, base: int, float: bool, text: Text,
                   ghost words: seq<Word>, ghost all: seq<Word>)
      returns (next: nat, text': Text, ghost words': seq<Word>)
    requires start < |ds| && AtGroup(|ds|, start, base)
    requires text == Join(words) && Remains(ds, start, float, words, all)
    ensures start < next && AtGroup(|ds|, next, base - 1)
    ensures text' == Join(words') && Remains(ds, next, float, words', all)
  {
    NextGroup(|ds|, start, base);
    next, text' := PrintGroup(ds, start, base, float, text, words);
    PrintingStep(ds, start, next, base, float, words, all);
    words' := words + GroupWords(Value(ds[start..next]), base, float);
  }

  datatype Printed = Numeral(text: Text) | Rejected | Fault

  predicate AllDigits(t: Text) {
    forall i :: 0 <= i < |t| ==> t[i].Digit?
  }

  function Digits(t: Text): (ds: seq<digit>)
    requires AllDigits(t)
    ensures |ds| == |t| && forall i :: 0 <= i < |t| ==> ds[i] == t[i].v
  {
    seq(|t|, i requires 0 <= i < |t| => t[i].v)
  }

  // The position of the decimal separator, or the length.
  function DotPos(t: Text): (n: nat)
    ensures n <= |t| && (n < |t| ==> t[n].Point?)
    ensures forall i :: 0 <= i < n ==> !t[i].Point?
  {
    if t == [] || t[0].Point? then 0 else 1 + DotPos(t[1..])
  }

  // Only a separator and digits.
  predicate IsDecimal(t: Text) {
    forall i :: 0 <= i < |t| && i != DotPos(t) ==> t[i].Digit?
  }

  // What NumberToString makes of a number. With a separator, the digits next to it are read unchecked.
  function Printing(t: Text): Printed {
    if !IsDecimal(t) then Rejected
    else if t == [] then Numeral([])
    else
      var dot := DotPos(t);
      if dot > MAX_INTEGRAL_DIGITS || |t| - dot > MAX_FRACTIONAL_DIGITS + 1 then Numeral(t)
      else
        var ids := Digits(t[..dot]);
        if dot == |t| then Numeral(Join(IntegralWords(ids, false)))
        else
          var fds := Digits(t[dot + 1..]);
          if ids == [] || fds == [] then Fault else Numeral(Join(FloatWords(ids, fds)))
  }

  method CheckDecimal(t: Text) returns (ok: bool)
    ensures ok == IsDecimal(t)
  {
    var pos := 0;
    while pos < |t| && !t[pos].Point?
      invariant pos <= DotPos(t)
      invariant forall i :: 0 <= i < pos ==> t[i].Digit?
    {
      if !t[pos].Digit? {
        return false;
      }
      pos := pos + 1;
    }
    if pos < |t| {
      pos := pos + 1;
    }
    while pos < |t|
      invariant pos <= |t|
      invariant forall i :: 0 <= i < pos && i != DotPos(t) ==> t[i].Digit?
      invariant DotPos(t) < pos || pos == |t|
    {
      if !t[pos].Digit? {
        return false;
      }
      pos := pos + 1;
    }
    ok := true;
  }

  method FindDot(t: Text) returns (dot: nat)
    ensures dot == DotPos(t)
  {
    dot := 0;
    while dot < |t| && !t[dot].Point?
      invariant dot <= DotPos(t)
    {
      dot := dot + 1;
    }
  }

  method NumberToString(number: Text) returns (r: Printed)
    ensures r == Printing(number)
  {
    hide IntegralWords;
    hide FloatWords;
    var ok := CheckDecimal(number);
    if !ok {
      return Rejected;
    }
    if |number| == 0 {
      return Numeral([]);
    }
    var dot := FindDot(number);
    if dot > MAX_INTEGRAL_DIGITS || |number| - dot > MAX_FRACTIONAL_DIGITS + 1 {
      return Numeral(number);
    }
    var ids := Digits(number[..dot]);
    var text := IntegralToString(ids, [], dot < |number|, []);
    ghost var words := [] + IntegralWords(ids, dot < |number|);
    assert words == IntegralWords(ids, dot < |number|);
    if dot == |number| {
      return Numeral(text);
    }
    var fds := Digits(number[dot + 1..]);
    if dot == 0 || |fds| == 0 {
      return Fault;
    }
    text := PrintFraction(ids, fds, text, words);
    r := Numeral(text);
  }

  // The separator, the digits behind it and their base.
  method PrintFraction(ids: seq<digit>, fds: seq<digit>, numeral: Text, ghost done: seq<Word>) returns (text: Text)
    requires ids != [] && fds != [] && done == IntegralWords(ids, true) && numeral == Join(done)
    ensures text == Join(FloatWords(ids, fds))
  {
    ghost var words;
    text, words := EmitIf(true, numeral, Integral(IntegralForm(ids)), done);
    text, words := EmitIf(true, text, And, words);
    Carry(done, [Integral(IntegralForm(ids))], [And]);
    assert [Integral(IntegralForm(ids))] + [And] == [Integral(IntegralForm(ids)), And];
    text := IntegralToString(fds, text, true, words);
    words := words + IntegralWords(fds, true);
    var n := fds[|fds| - 1] as nat + if |fds| >= 2 && fds[|fds| - 2] == 1 then 10 else 0;
    assert n == 1 <==> FractionForm(fds) == 0;
    text, words := EmitIf(true, text, Fraction(|fds|, if n == 1 then 0 else 1), words);
  }
}
