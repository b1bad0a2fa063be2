// Gender and case in what NumberToString prints, word by word from the neighbours in the text.
module NumeralAgreement {
  import opened NumeralText
  import opened NumeralPrinter

  predicate IsOne(w: Word) {
    w.Unit? && w.n == 1
  }

  predicate IsFew(w: Word) {
    w.Unit? && 2 <= w.n <= 4
  }

  // A word that a feminine one or two counts: thousands, the integral part and the fraction.
  predicate CountsFeminine(w: Word) {
    (w.Base? && w.b == 1) || w.Integral? || w.Fraction?
  }

  // Two words in a row.
  predicate PairAgrees(a: Word, b: Word) {
    && (b.Base? ==> b.form <= 2 && (b.form == 0 <==> IsOne(a)) && (b.form == 1 <==> IsFew(a)))
    && (b.Integral? ==> b.form <= 1 && (b.form == 1 <==> IsOne(a)))
    && (b.Fraction? ==> b.form <= 1 && (b.form == 0 <==> IsOne(a)))
    && (a.Unit? ==> a.form <= 1 && (a.form == 1 <==> a.n <= 2 && CountsFeminine(b)))
    && (a.Hundred? || a.Decade? || a.Zero? ==> a.form == 0)
  }

  predicate PairsAgree(ws: seq<Word>) {
    forall i :: 0 <= i < |ws| - 1 ==> PairAgrees(ws[i], ws[i + 1])
  }

  // No word that needs a number before it comes first, and a number at the end is masculine.
  predicate Agree(ws: seq<Word>) {
    && PairsAgree(ws)
    && (ws != [] ==> !ws[0].Base? && !ws[0].Integral? && !ws[0].Fraction?)
    && (ws != [] ==> (ws[|ws| - 1].Unit? || ws[|ws| - 1].Hundred? || ws[|ws| - 1].Decade? || ws[|ws| - 1].Zero?) ==>
          ws[|ws| - 1].form == 0)
  }

  // The words of a text, which stand at the even positions with single spaces between them.
  predicate IsWords(t: Text) {
    && (t != [] ==> |t| % 2 == 1)
    && (forall i :: 0 <= i < |t| && i % 2 == 0 ==> t[i].Word?)
    && (forall i :: 0 <= i < |t| && i % 2 == 1 ==> t[i] == Space)
  }

  function WordsIn(t: Text): (ws: seq<Word>)
    requires IsWords(t)
  {
    seq((|t| + 1) / 2, k requires 0 <= k < (|t| + 1) / 2 => t[2 * k].w)
  }

  lemma {:induction false} JoinWords(ws: seq<Word>)
    ensures |Join(ws)| == if ws == [] then 0 else 2 * |ws| - 1
    ensures forall i :: 0 <= i < |Join(ws)| && i % 2 == 1 ==> Join(ws)[i] == Space
    ensures forall i :: 0 <= i < |Join(ws)| && i % 2 == 0 ==> Join(ws)[i] == Word(ws[i / 2])
  {
    if |ws| > 1 {
      var rest := Join(ws[1..]);
      JoinWords(ws[1..]);
      assert Join(ws) == [Word(ws[0]), Space] + rest;
      forall i | 2 <= i < |Join(ws)|
        ensures Join(ws)[i] == if i % 2 == 1 then Space else Word(ws[i / 2])
      {
        assert Join(ws)[i] == rest[i - 2] && (i - 2) / 2 == i / 2 - 1;
      }
    }
  }

  lemma WordsOfJoin(ws: seq<Word>)
    ensures IsWords(Join(ws)) && WordsIn(Join(ws)) == ws
  {
    hide Join;
    JoinWords(ws);
    forall k | 0 <= k < |ws|
      ensures WordsIn(Join(ws))[k] == ws[k]
    {
      assert 2 * k / 2 == k && 2 * k % 2 == 0;
    }
  }

  // ---- joining rows of words ----

  lemma PairsJoin(a: seq<Word>, b: seq<Word>)
    requires PairsAgree(a) && PairsAgree(b)
    requires a != [] && b != [] ==> PairAgrees(a[|a| - 1], b[0])
    ensures PairsAgree(a + b)
  {
    hide PairAgrees;
    var ws := a + b;
    forall i | 0 <= i < |ws| - 1
      ensures PairAgrees(ws[i], ws[i + 1])
    {
      if i >= |a| {
        assert ws[i] == b[i - |a|] && ws[i + 1] == b[i - |a| + 1];
      }
    }
  }

  predicate IsPlain(w: Word) {
    (w.Hundred? || w.Decade? || w.Unit?) && (w.Unit? || w.form == 0)
  }

  // The words of a number below a thousand; the last one is a unit exactly for a number with units.
  predicate SmallRow(ws: seq<Word>, n: nat, form: nat) {
    && PairsAgree(ws)
    && (ws != [] ==> IsPlain(ws[0]) && IsPlain(ws[|ws| - 1]))
    && (n == 0 ==> ws != [] ==> !ws[|ws| - 1].Unit?)
    && (n > 0 ==> ws != [] && ws[|ws| - 1] == Unit(n, form))
  }

  lemma SmallRows(v: nat, feminine: bool)
    ensures SmallRow(SmallWords(v, feminine), Lead(v), if feminine && Lead(v) <= 2 then 1 else 0)
  {
    hide Lead;
    var h, d := When(v / 100 > 0, Hundred(v / 100, 0)), When(v / 10 % 10 > 1, Decade(v / 10 % 10, 0));
    var u := When(Lead(v) > 0, UnitWord(Lead(v), feminine));
    PairsJoin(h, d);
    PairsJoin(h + d, u);
  }

  // What a row of groups ends with: the unit of the last group, or no unit.
  predicate Row(ws: seq<Word>, n: nat, form: nat) {
    && PairsAgree(ws)
    && (ws != [] ==> IsPlain(ws[0]))
    && (ws != [] ==> IsPlain(ws[|ws| - 1]) || ws[|ws| - 1].Base?)
    && (n == 0 ==> ws != [] ==> !ws[|ws| - 1].Unit?)
    && (n > 0 ==> ws != [] && ws[|ws| - 1] == Unit(n, form))
  }

  lemma HigherGroup(v: nat, base: nat, float: bool)
    requires base > 0 && v < 1000
    ensures var ws := GroupWords(v, base, float);
      && PairsAgree(ws) && (ws == [] <==> v == 0)
      && (ws != [] ==> IsPlain(ws[0]) && ws[|ws| - 1].Base?)
  {
    hide SmallWords;
    hide Lead;
    var a, b := SmallWords(v, Feminine(base, float)), When(v > 0, Base(base, BaseForm(Lead(v))));
    SmallRows(v, Feminine(base, float));
    SomeWords(v, Feminine(base, float));
    PairsJoin(a, b);
  }

  lemma SomeWords(v: nat, feminine: bool)
    requires v < 1000
    ensures SmallWords(v, feminine) == [] <==> v == 0
  {
    hide Lead;
    hide UnitWord;
    SmallDigits(v);
  }

  lemma SmallDigits(v: nat)
    requires v < 1000
    ensures v > 0 <==> v / 100 > 0 || v / 10 % 10 > 1 || Lead(v) > 0
  {
    var h, t, u := v / 100, v / 10 % 10, v % 10;
    assert v == 100 * h + 10 * t + u;
  }

  lemma RowJoin(a: seq<Word>, b: seq<Word>, n: nat, form: nat)
    requires PairsAgree(a) && (a != [] ==> IsPlain(a[0]) && a[|a| - 1].Base?)
    requires Row(b, n, form)
    ensures Row(a + b, n, form)
  {
    hide PairsAgree;
    hide PairAgrees;
    if a != [] && b != [] {
      BaseThenPlain(a[|a| - 1], b[0]);
    }
    PairsJoin(a, b);
    if b == [] {
      assert a + b == a;
    }
  }

  lemma BaseThenPlain(a: Word, b: Word)
    requires a.Base? && IsPlain(b)
    ensures PairAgrees(a, b)
  {
  }

  lemma {:induction false} GroupRows(vs: seq<nat>, float: bool)
    requires vs != [] && AllGroups(vs)
    ensures var n := Lead(vs[|vs| - 1]);
      Row(GroupsWords(vs, float), n, if float && n <= 2 then 1 else 0)
  {
    hide PairsAgree;
    hide Lead;
    hide Row;
    hide GroupWords;
    if |vs| == 1 {
      LastRow(vs, float);
    } else {
      var n := Lead(vs[|vs| - 1]);
      HigherGroup(vs[0], |vs| - 1, float);
      GroupRows(vs[1..], float);
      assert vs[1..][|vs| - 2] == vs[|vs| - 1];
      RowJoin(GroupWords(vs[0], |vs| - 1, float), GroupsWords(vs[1..], float), n, if float && n <= 2 then 1 else 0);
    }
  }

  lemma LastRow(vs: seq<nat>, float: bool)
    requires |vs| == 1 && vs[0] < 1000
    ensures var n := Lead(vs[0]);
      Row(GroupsWords(vs, float), n, if float && n <= 2 then 1 else 0)
  {
    hide SmallWords;
    hide Lead;
    SmallRows(vs[0], float);
    var a := SmallWords(vs[0], float);
    assert Feminine(0, float) == float;
    assert GroupWords(vs[0], 0, float) == a + [];
    assert GroupsWords(vs, float) == a + [] + [];
    assert a + [] + [] == a;
  }

  // ---- a part of a number ----

  // The last digit is a one, but the last two are not an eleven.
  predicate EndsInOne(ds: seq<digit>)
    requires ds != []
  {
    ds[|ds| - 1] == 1 && (|ds| < 2 || ds[|ds| - 2] != 1)
  }

  lemma {:induction false} LastGroupDigits(ds: seq<digit>)
    requires ds != []
    ensures Groups(ds) != []
    ensures var v := Groups(ds)[|Groups(ds)| - 1];
      v % 10 == ds[|ds| - 1] && v / 10 % 10 == if |ds| >= 2 then ds[|ds| - 2] else 0
    decreases |ds|
  {
    hide FirstLen;
    hide Value;
    var k := FirstLen(|ds|);
    if k == |ds| {
      OneGroup(ds);
    } else {
      LastGroupDigits(ds[k..]);
      assert Groups(ds)[1..] == Groups(ds[k..]);
      assert ds[k..][|ds[k..]| - 1] == ds[|ds| - 1] && ds[k..][|ds[k..]| - 2] == ds[|ds| - 2];
    }
  }

  lemma OneGroup(ds: seq<digit>)
    requires 1 <= |ds| <= 3
    ensures Groups(ds) == [Value(ds)] && Value(ds) % 10 == ds[|ds| - 1]
    ensures Value(ds) / 10 % 10 == if |ds| >= 2 then ds[|ds| - 2] else 0
  {
    Ungrouped(ds);
    hide Value;
    hide Groups;
    var h: nat, t: nat := if |ds| == 3 then ds[0] else 0, if |ds| >= 2 then ds[|ds| - 2] else 0;
    ThreeDigits(ds);
    LowDigits(Value(ds), h, t, ds[|ds| - 1]);
  }

  lemma LowDigits(v: nat, h: nat, t: nat, u: nat)
    requires h < 10 && t < 10 && u < 10 && v == 100 * h + 10 * t + u
    ensures v % 10 == u && v / 10 % 10 == t
  {
    DigitsOf(h, t, u);
  }

  lemma Ungrouped(ds: seq<digit>)
    requires 1 <= |ds| <= 3
    ensures Groups(ds) == [Value(ds)]
  {
    hide Value;
    hide FirstLen;
    assert FirstLen(|ds|) == |ds|;
    assert ds[..|ds|] == ds && ds[|ds|..] == [];
    assert Groups(ds[|ds|..]) == [];
  }

  // The words of a part: zero, or groups that end in a one exactly as the digits do.
  predicate PartRow(ws: seq<Word>, one: bool, float: bool) {
    && ws != [] && PairsAgree(ws) && !ws[0].Base? && !ws[0].Integral? && !ws[0].Fraction?
    && (IsPlain(ws[|ws| - 1]) || ws[|ws| - 1].Base? || ws[|ws| - 1] == Zero(0))
    && (IsOne(ws[|ws| - 1]) <==> one)
    && (ws[|ws| - 1].Unit? ==> ws[|ws| - 1].form == if float && ws[|ws| - 1].n <= 2 then 1 else 0)
  }

  lemma PartRows(ds: seq<digit>, float: bool)
    requires ds != []
    ensures PartRow(IntegralWords(ds, float), EndsInOne(ds), float)
  {
    hide PairsAgree;
    hide GroupsWords;
    hide Groups;
    hide Value;
    hide EndsInOne;
    hide PartRow;
    if Value(ds) == 0 {
      ZeroRow(float);
      NoOne(ds);
    } else {
      GroupsCount(ds);
      LastGroupDigits(ds);
      GroupRows(Groups(ds), float);
      NotEmpty(ds, float);
      var n := Lead(Groups(ds)[|Groups(ds)| - 1]);
      RowIsPart(GroupsWords(Groups(ds), float), n, float);
      assert EndsInOne(ds) == (n == 1) by {
        LeadOne(ds, Groups(ds)[|Groups(ds)| - 1]);
      }
    }
  }

  lemma LeadOne(ds: seq<digit>, v: nat)
    requires ds != [] && v % 10 == ds[|ds| - 1] && v / 10 % 10 == if |ds| >= 2 then ds[|ds| - 2] else 0
    ensures EndsInOne(ds) <==> Lead(v) == 1
  {
  }

  lemma RowIsPart(ws: seq<Word>, n: nat, float: bool)
    requires ws != [] && Row(ws, n, if float && n <= 2 then 1 else 0)
    ensures PartRow(ws, n == 1, float)
  {
    hide PairsAgree;
  }

  lemma ZeroRow(float: bool)
    ensures PartRow([Zero(0)], false, float)
  {
  }

  lemma {:induction false} NoOne(ds: seq<digit>)
    requires ds != [] && Value(ds) == 0
    ensures !EndsInOne(ds)
  {
  }

  lemma NotEmpty(ds: seq<digit>, float: bool)
    requires ds != [] && Value(ds) > 0
    ensures GroupsWords(Groups(ds), float) != []
  {
    hide Value;
    GroupsCount(ds);
    GroupsTotal(ds);
    SomeGroup(Groups(ds), float);
  }

  lemma {:induction false} SomeGroup(vs: seq<nat>, float: bool)
    requires AllGroups(vs) && Total(vs) > 0
    ensures GroupsWords(vs, float) != []
  {
    hide GroupWords;
    if vs != [] {
      if vs[0] > 0 {
        FirstNotEmpty(vs[0], |vs| - 1, float);
      } else {
        SomeGroup(vs[1..], float);
      }
    }
  }

  lemma FirstNotEmpty(v: nat, base: nat, float: bool)
    requires 0 < v < 1000
    ensures GroupWords(v, base, float) != []
  {
    hide SmallWords;
    SomeWords(v, Feminine(base, float));
  }

  // ---- the whole text ----

  lemma FloatAgrees(ids: seq<digit>, fds: seq<digit>)
    requires ids != [] && fds != []
    ensures Agree(FloatWords(ids, fds))
  {
    hide IntegralWords;
    var a, b := IntegralWords(ids, true), IntegralWords(fds, true);
    var m, z := [Integral(IntegralForm(ids)), And], [Fraction(|fds|, FractionForm(fds))];
    PartRows(ids, true);
    PartRows(fds, true);
    PairsJoin(a, m);
    PairsJoin(a + m, b);
    PairsJoin(a + m + b, z);
  }

  lemma IntegerAgrees(ds: seq<digit>)
    requires ds != []
    ensures Agree(IntegralWords(ds, false))
  {
    hide IntegralWords;
    hide PairsAgree;
    PartRows(ds, false);
  }

  // Every number of up to 27 digits, and up to eleven behind a separator, is printed as words that agree.
  lemma PrintedAgrees(number: Text)
    requires number != [] && DotPos(number) <= 27 && |number| - DotPos(number) <= 12
    requires Printing(number).Numeral?
    ensures IsWords(Printing(number).text) && Agree(WordsIn(Printing(number).text))
  {
    hide Agree;
    hide IntegralWords;
    hide FloatWords;
    hide Join;
    hide WordsIn;
    var dot := DotPos(number);
    var ids := Digits(number[..dot]);
    if dot == |number| {
      IntegerAgrees(ids);
      WordsOfJoin(IntegralWords(ids, false));
    } else {
      var fds := Digits(number[dot + 1..]);
      FloatAgrees(ids, fds);
      WordsOfJoin(FloatWords(ids, fds));
    }
  }

  // A longer number is copied, not printed.
  lemma LongerCopied(number: Text)
    requires IsDecimal(number) && (DotPos(number) > 27 || |number| - DotPos(number) > 12)
    ensures Printing(number) == Numeral(number)
  {
  }
}
