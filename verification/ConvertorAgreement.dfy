// The case of the scale words, word by word from the neighbours, and what each accepted word adds.
module ConvertorAgreement {
  import opened Bytes
  import opened ConvertorWords

  // ---- printed words agree ----

  predicate IsOne(w: Word) {
    w == Small(1) || w == OneF
  }

  predicate IsFew(w: Word) {
    w == TwoF || (w.Small? && 2 <= w.n <= 4)
  }

  predicate IsThousand(w: Word) {
    w.Scale? && w.power == 1
  }

  // Two words in a row: the scale word has the case its number asks for, and a one or a two is feminine
  // exactly in front of thousands.
  predicate PairAgrees(a: Word, b: Word) {
    && (b.Scale? ==> b.form <= 2 && (b.form == 0 <==> IsOne(a)) && (b.form == 1 <==> IsFew(a)))
    && (a == OneF || a == TwoF ==> IsThousand(b))
    && (a == Small(1) || a == Small(2) ==> !IsThousand(b))
  }

  predicate PairsAgree(ws: seq<Word>) {
    forall i :: 0 <= i < |ws| - 1 ==> PairAgrees(ws[i], ws[i + 1])
  }

  predicate Agree(ws: seq<Word>) {
    PairsAgree(ws) && (ws != [] ==> !ws[0].Scale? && ws[|ws| - 1] != OneF && ws[|ws| - 1] != TwoF)
  }

  lemma PairsJoin(a: seq<Word>, b: seq<Word>)
    requires PairsAgree(a) && PairsAgree(b)
    requires a != [] && b != [] ==> PairAgrees(a[|a| - 1], b[0])
    ensures PairsAgree(a + b)
  {
    hide PairAgrees;
    var ws := a + b;
    forall i | 0 <= i < |ws| - 1
      ensures PairAgrees(ws[i], ws[i + 1])
    {
      if i >= |a| {
        assert ws[i] == b[i - |a|] && ws[i + 1] == b[i - |a| + 1];
      }
    }
  }

  // The words of a group end with its scale word, if it has one.
  predicate GroupRow(ws: seq<Word>, power: nat) {
    && PairsAgree(ws)
    && ws != [] && (power > 0 ==> ws[|ws| - 1].Scale?)
    && (power == 0 ==> ws[|ws| - 1] != OneF && ws[|ws| - 1] != TwoF)
  }

  lemma UnitRow(n: nat, power: nat)
    requires 0 < n < 10
    ensures GroupRow(Unit(n, power), power) && !Unit(n, power)[0].Scale?
  {
  }

  // Behind tens or hundreds.
  lemma Behind(w: Word, ws: seq<Word>, power: nat)
    requires w.Tens? || w.Hundreds?
    requires ws == Tail(power, 2) || (GroupRow(ws, power) && !ws[0].Scale?)
    ensures GroupRow([w] + ws, power)
  {
    if ws == Tail(power, 2) && power > 0 {
      assert ws == [Scale(power, 2)];
    }
    PairsJoin([w], ws);
  }

  lemma LowerRow(v: nat, power: nat)
    requires 0 < v < 100
    ensures GroupRow(Lower(v, power), power) && !Lower(v, power)[0].Scale?
  {
    hide GroupRow;
    hide Unit;
    if v < 10 {
      UnitRow(v, power);
    } else if v < 20 {
      TeenRow(v, power);
    } else {
      if v % 10 == 0 {
        NoUnit(power);
      } else {
        UnitRow(v % 10, power);
      }
      Behind(Tens(v / 10), Unit(v % 10, power), power);
    }
  }

  lemma NoUnit(power: nat)
    ensures Unit(0, power) == Tail(power, 2)
  {
  }

  lemma TeenRow(v: nat, power: nat)
    requires 10 <= v < 20
    ensures GroupRow([Small(v)] + Tail(power, 2), power)
  {
  }

  lemma GroupRows(v: nat, power: nat)
    requires 0 < v < 1000
    ensures GroupRow(Group(v, power), power) && !Group(v, power)[0].Scale?
  {
    hide GroupRow;
    hide Lower;
    if v < 100 {
      LowerRow(v, power);
    } else {
      if v % 100 == 0 {
        NoLower(power);
      } else {
        LowerRow(v % 100, power);
      }
      Behind(Hundreds(v / 100), Lower(v % 100, power), power);
    }
  }

  lemma NoLower(power: nat)
    ensures Lower(0, power) == Tail(power, 2)
  {
  }

  lemma {:induction false} PositiveRows(n: nat, powers: nat)
    requires powers <= 5 && n < Thousand(powers)
    ensures Agree(Positive(n, powers))
  {
    hide Group;
    hide PairsAgree;
    if powers > 0 {
      var v, rest := n / Thousand(powers - 1), n % Thousand(powers - 1);
      LeadBound(n, powers - 1);
      PositiveRows(rest, powers - 1);
      if v == 0 {
        NoGroup(powers - 1);
        assert [] + Positive(rest, powers - 1) == Positive(rest, powers - 1);
      } else {
        GroupRows(v, powers - 1);
        GroupsJoin(Group(v, powers - 1), Positive(rest, powers - 1), powers - 1);
      }
    } else {
      NoPairs();
    }
  }

  lemma NoPairs()
    ensures PairsAgree([])
  {
  }

  lemma NoGroup(power: nat)
    ensures Group(0, power) == []
  {
  }

  lemma GroupsJoin(a: seq<Word>, b: seq<Word>, power: nat)
    requires GroupRow(a, power) && !a[0].Scale? && Agree(b) && (power == 0 ==> b == [])
    ensures Agree(a + b)
  {
    if b == [] {
      LastGroup(a, power);
      assert a + b == a;
    } else {
      PairsJoin(a, b);
    }
  }

  lemma LastGroup(a: seq<Word>, power: nat)
    requires GroupRow(a, power) && !a[0].Scale?
    ensures Agree(a)
  {
  }

  // What int_i2s prints agrees, for every number.
  lemma WordsAgree(n: int)
    requires -LIMIT < n < LIMIT
    ensures Agree(Words(n))
  {
    assert Thousand(5) == LIMIT;
    if n != 0 {
      hide Positive;
      hide PairsAgree;
      PositiveRows(if n < 0 then -n else n, 5);
      if n < 0 {
        MinusFirst(Positive(-n, 5));
      }
    }
  }

  lemma MinusFirst(ws: seq<Word>)
    requires Agree(ws)
    ensures Agree([Minus] + ws)
  {
    PairsJoin([Minus], ws);
  }

  // ---- accepted words ----

  // What a word below a thousand stands for.
  function Face(w: Word): nat {
    match w
    case Small(n) => n
    case OneF => 1
    case TwoF => 2
    case Tens(n) => 10 * n
    case Hundreds(n) => 100 * n
    case _ => 0
  }

  // No accepted word loses a digit taken before: a number word adds what it stands for, and a scale word
  // moves the number collected, or one, to its place.
  lemma AcceptedCounts(b: Buffer, w: Word)
    requires |b.high| == 4 && Step(b, w).Some?
    ensures var c := Step(b, w).value;
      && (w.Small? || w.OneF? || w.TwoF? || w.Tens? || w.Hundreds? ==> Total(c) == Total(b) + Face(w))
      && (w == Minus ==> b.sign == 0 && c == b.(sign := -1))
      && (w != Minus ==> c.sign == if b.sign == 0 then 1 else b.sign)
      && (w.Scale? ==> 1 <= w.power <= 4 && c.low.Value() == 0)
      && (w.Scale? ==>
            Total(c) == Total(b) - b.low.Value() + Thousand(w.power) * if b.low.Value() == 0 then 1 else b.low.Value())
  {
    hide Total;
    hide Step;
    hide Digits.Value;
    hide Thousand;
    hide Face;
    var c := Step(b, w).value;
    SignAccepted(b, w);
    if w.Scale? {
      ScaleAccepted(b, w.power, w.form);
      ZeroValue(b.low);
      ZeroValue(c.low);
      MovedTotal(b, c, if b.low == NONE then Digits(1, 0, 0) else b.low, w.power);
    } else if w != Minus {
      LowAccepted(b, w);
      LowTotal(b, c);
    }
  }

  lemma SignAccepted(b: Buffer, w: Word)
    requires |b.high| == 4 && Step(b, w).Some?
    ensures var c := Step(b, w).value;
      && (w == Minus ==> b.sign == 0 && c == b.(sign := -1))
      && (w != Minus ==> c.sign == if b.sign == 0 then 1 else b.sign)
      && (w.Scale? || w.Small? || w.OneF? || w.TwoF? || w.Tens? || w.Hundreds? || w == Minus)
  {
  }

  lemma ScaleAccepted(b: Buffer, power: nat, form: nat)
    requires |b.high| == 4 && Step(b, Scale(power, form)).Some?
    ensures var c := Step(b, Scale(power, form)).value;
      && 1 <= power <= 4 && b.high[power - 1] == NONE && c.low == NONE
      && c.high == b.high[power - 1 := if b.low == NONE then Digits(1, 0, 0) else b.low]
  {
  }

  lemma LowAccepted(b: Buffer, w: Word)
    requires |b.high| == 4 && Step(b, w).Some? && w != Minus && !w.Scale?
    ensures Step(b, w).value.high == b.high && Step(b, w).value.low.Value() == b.low.Value() + Face(w)
  {
    TeenDigits(if w.Small? then w.n else 0);
  }

  lemma ZeroValue(d: Digits)
    ensures d.Value() == 0 <==> d == NONE
    ensures Digits(1, 0, 0).Value() == 1
  {
  }

  lemma TeenDigits(n: nat)
    ensures 10 <= n <= 19 ==> n == 10 + n % 10
  {
  }

  lemma LowTotal(b: Buffer, c: Buffer)
    requires |b.high| == 4 && c.high == b.high
    ensures Total(c) == Total(b) - b.low.Value() + c.low.Value()
  {
  }

  lemma MovedTotal(b: Buffer, c: Buffer, d: Digits, power: nat)
    requires |b.high| == 4 && 1 <= power <= 4 && b.high[power - 1] == NONE
    requires c.low == NONE && c.high == b.high[power - 1 := d]
    ensures Total(c) == Total(b) - b.low.Value() + Thousand(power) * d.Value()
  {
    hide Digits.Value;
    NoneValue();
    LowTotal(b, b.(low := NONE));
    ShiftedTotal(b.(low := NONE, sign := 1), d, power);
    ScaledIs(d.Value(), power);
  }

  // A word of the table is refused only when a digit it needs is taken, a minus only behind another word.
  lemma FreeAccepted(b: Buffer, n: nat, power: nat, form: nat)
    requires |b.high| == 4
    ensures 1 <= n <= 9 ==> (Step(b, Small(n)).Some? <==> b.low.u == 0)
    ensures 10 <= n <= 19 ==> (Step(b, Small(n)).Some? <==> b.low.u == 0 && b.low.t == 0)
    ensures (Step(b, OneF).Some? <==> b.low.u == 0) && (Step(b, TwoF).Some? <==> b.low.u == 0)
    ensures 2 <= n <= 9 ==> (Step(b, Tens(n)).Some? <==> b.low.t == 0)
    ensures 1 <= n <= 9 ==> (Step(b, Hundreds(n)).Some? <==> b.low.h == 0)
    ensures 1 <= power <= 4 && form <= 2 ==>
      (Step(b, Scale(power, form)).Some? <==> b.high[power - 1].Value() == 0)
    ensures Step(b, Minus).Some? <==> b.sign == 0
  {
    hide Digits.Value;
    if 1 <= power <= 4 {
      ZeroValue(b.high[power - 1]);
    }
  }
}
