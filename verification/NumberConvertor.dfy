// NumberConvertor: a number in Russian words and back.
module NumberConvertor {
  import opened Bytes
  import opened ConvertorWords

  // ---- i2s ----

  lemma TableRows(n: nat, power: nat)
    requires 1 <= power <= 5
    ensures 1 <= n <= 9 ==>
      (if power > 1 then RU(n + 50 + 10 * (power - 2)) else RU(n + 1)) == Unit(n, power - 1)
      && RU(28 + n) == [Hundreds(n)]
    ensures 2 <= n <= 9 ==> RU(19 + n) == [Tens(n)]
    ensures 10 <= n < 20 ==> RU(n + 1) == [Small(n)]
    ensures power > 1 ==> RU(50 + 10 * (power - 2)) == Tail(power - 1, 2)
  {
  }

  // Tens and unit, with the scale word alone when there is no unit.
  lemma LowerSplit(v: nat, power: nat)
    requires v < 100
    ensures v < 10 ==> Lower(v, power) == Unit(v, power)
    ensures 10 <= v < 20 ==> Lower(v, power) == [Small(v)] + Tail(power, 2)
    ensures v >= 20 ==> 2 <= v / 10 <= 9 && 0 <= v - 10 * (v / 10) < 10
    ensures v >= 20 ==> Lower(v, power) == [Tens(v / 10)] + Unit(v - 10 * (v / 10), power)
    ensures Unit(0, power) == Tail(power, 2) && Tail(0, 2) == []
  {
    hide Tail;
    assert v % 10 == v - 10 * (v / 10);
    NoTail();
  }

  lemma NoTail()
    ensures Tail(0, 2) == []
  {
  }

  // The words of a group without its hundreds, looked up by their rows in the table RU.
  method LowerToWords(number: nat, power: nat) returns (words: seq<Word>)
    requires number < 100 && 1 <= power <= 5
    ensures words == Lower(number, power - 1)
  {
    hide RU;
    hide Lower;
    hide Unit;
    hide Tail;
    LowerSplit(number, power - 1);
    words := [];
    var res := number;
    TableRows(res, power);
    if res == 0 {
      if power > 1 {
        words := words + RU(50 + 10 * (power - 2));
      }
    } else if res < 10 {
      words := words + if power > 1 then RU(res + 50 + 10 * (power - 2)) else RU(res + 1);
    } else if 10 <= res < 20 {
      words := words + RU(res + 1);
      if power > 1 {
        words := words + RU(50 + 10 * (power - 2));
      }
    } else {
      var tens := res / 10;
      TableRows(tens, power);
      words := words + RU(19 + tens);
      res := res - 10 * tens;
      TableRows(res, power);
      if res != 0 {
        words := words + if power > 1 then RU(res + 50 + 10 * (power - 2)) else RU(res + 1);
      } else if power > 1 {
        words := words + RU(50 + 10 * (power - 2));
      }
    }
  }

  // Hundreds first, when there are any.
  lemma GroupSplit(v: nat, power: nat)
    requires 0 < v < 1000
    ensures v < 100 ==> Group(v, power) == Lower(v, power)
    ensures v >= 100 ==> 1 <= v / 100 <= 9 && 0 <= v - 100 * (v / 100) < 100
    ensures v >= 100 ==> Group(v, power) == [Hundreds(v / 100)] + Lower(v - 100 * (v / 100), power)
  {
    hide Lower;
    assert v % 100 == v - 100 * (v / 100);
  }

  method GroupToWords(number: nat, power: nat) returns (words: seq<Word>)
    requires 0 < number < 1000 && 1 <= power <= 5
    ensures words == Group(number, power - 1)
  {
    hide RU;
    hide Lower;
    hide Group;
    GroupSplit(number, power - 1);
    words := [];
    var res := number;
    if res >= 100 {
      var hundreds := res / 100;
      TableRows(hundreds, power);
      words := words + RU(28 + hundreds);
      res := res - 100 * hundreds;
    }
    var lower := LowerToWords(res, power);
    words := words + lower;
  }

  method int_i2s(number: int) returns (words: seq<Word>)
    requires -LIMIT < number < LIMIT
    ensures words == Words(number)
  {
    hide Group;
    if number == 0 {
      return RU(1);
    }
    words := [];
    var aNumber := number;
    if aNumber < 0 {
      words := words + RU(0);
      aNumber := -aNumber;
    }
    assert Thousand(5) == LIMIT;
    assert [] + Positive(aNumber, 5) == Positive(aNumber, 5);
    words := PrintGroups(aNumber, words);
  }

  // The loop over the powers.
  method PrintGroups(number: nat, start: seq<Word>) returns (words: seq<Word>)
    requires number < Thousand(5)
    ensures words == start + Positive(number, 5)
  {
    hide Group;
    hide Thousand;
    hide Positive;
    words := start;
    var aNumber, power := number, 5;
    while power > 0
      invariant 0 <= power <= 5 && 0 <= aNumber < Thousand(power)
      invariant words + Positive(aNumber, power) == start + Positive(number, 5)
    {
      PositiveStep(words, aNumber, power);
      var res := aNumber / Thousand(power - 1);
      aNumber := aNumber - res * Thousand(power - 1);
      if res != 0 {
        var group := GroupToWords(res, power);
        words := words + group;
      }
      power := power - 1;
    }
    NoGroups(words);
  }

  lemma NoGroups(words: seq<Word>)
    ensures forall n: nat :: n < Thousand(0) ==> words + Positive(n, 0) == words
  {
  }

  // One group less to print.
  lemma PositiveStep(words: seq<Word>, n: nat, power: nat)
    requires 1 <= power <= 5 && n < Thousand(power)
    ensures var res, rest := n / Thousand(power - 1), n - n / Thousand(power - 1) * Thousand(power - 1);
      && res < 1000 && 0 <= rest < Thousand(power - 1)
      && words + Positive(n, power) == (if res != 0 then words + Group(res, power - 1) else words) + Positive(rest, power - 1)
  {
    hide Group;
    LeadBound(n, power - 1);
    DivMod(n, Thousand(power - 1));
    GroupWords(n / Thousand(power - 1), power - 1);
  }

  // ---- s2i ----

  // The position of a word in a part of the table, or the end of the part.
  method Find(p: Word, from: nat, to: nat) returns (i: nat)
    requires from <= to
    ensures Found(p, from, to, i)
  {
    i := from;
    while i < to
      invariant from <= i <= to && forall k: nat :: from <= k < i ==> RU(k) != [p]
    {
      if RU(i) == [p] {
        break;
      }
      i := i + 1;
    }
  }

  predicate Found(p: Word, from: nat, to: nat, i: nat) {
    from <= i <= to && (i < to ==> RU(i) == [p]) && forall k: nat :: from <= k < i ==> RU(k) != [p]
  }

  lemma FoundSmall(p: Word, i: nat)
    requires Found(p, 2, 21, i)
    ensures i < 21 ==> p == Small(i - 1)
    ensures i == 21 ==> !(p.Small? && 1 <= p.n <= 19)
  {
    if p.Small? && 1 <= p.n <= 19 {
      assert RU(p.n + 1) == [p];
    }
  }

  lemma FoundTens(p: Word, i: nat)
    requires Found(p, 21, 29, i)
    ensures i < 29 ==> p == Tens(i - 19)
    ensures i == 29 ==> !(p.Tens? && 2 <= p.n <= 9)
  {
    if p.Tens? && 2 <= p.n <= 9 {
      assert RU(p.n + 19) == [p];
    }
  }

  lemma FoundHundreds(p: Word, i: nat)
    requires Found(p, 29, 38, i)
    ensures i < 38 ==> p == Hundreds(i - 28)
    ensures i == 38 ==> !(p.Hundreds? && 1 <= p.n <= 9)
  {
    if p.Hundreds? && 1 <= p.n <= 9 {
      assert RU(p.n + 28) == [p];
    }
  }

  lemma FoundScale(p: Word, power: nat, i: nat)
    requires 1 <= power <= 4 && Found(p, 35 + 3 * power, 38 + 3 * power, i)
    ensures i < 38 + 3 * power <==> p.Scale? && p.power == power && p.form <= 2
  {
    if p.Scale? && p.power == power && p.form <= 2 {
      assert RU(35 + 3 * power + p.form) == [p];
    }
  }

  // Three digits of the array.
  function At(buf: seq<nat>, k: nat): Digits
    requires 3 * k + 3 <= |buf|
  {
    Digits(buf[3 * k], buf[3 * k + 1], buf[3 * k + 2])
  }

  // The array holds the digits of the buffer.
  predicate Holds(buf: seq<nat>, b: Buffer) {
    |buf| == 15 && |b.high| == 4 && At(buf, 0) == b.low && forall k: nat :: k < 4 ==> At(buf, k + 1) == b.high[k]
  }

  lemma StepScale(b: Buffer, power: nat, form: nat)
    requires |b.high| == 4 && 1 <= power <= 4 && form <= 2
    ensures b.high[power - 1] != NONE ==> Step(b, Scale(power, form)) == None
    ensures b.high[power - 1] == NONE ==>
      Step(b, Scale(power, form)) ==
      Some(Buffer(NONE, b.high[power - 1 := if b.low == NONE then Digits(1, 0, 0) else b.low], if b.sign == 0 then 1 else b.sign))
  {
  }

  class NumberConvertor {
    const vTmpBuffer: array<nat>

    constructor ()
      ensures fresh(vTmpBuffer) && vTmpBuffer.Length == 15
    {
      vTmpBuffer := new nat[15](_ => 0);
    }

    // A scale word: the collected digits move up, one if there are none.
    method Carry(power: nat, form: nat, negative: int, ghost b: Buffer) returns (ok: bool)
      requires vTmpBuffer.Length == 15 && Holds(vTmpBuffer[..], b) && 1 <= power <= 4 && form <= 2 && b.sign == negative != 0
      modifies vTmpBuffer
      ensures match Step(b, Scale(power, form))
        case None => !ok
        case Some(c) => ok && Holds(vTmpBuffer[..], c) && c.sign == negative
    {
      hide Step;
      StepScale(b, power, form);
      var at := 3 * power;
      assert At(vTmpBuffer[..], power) == b.high[power - 1];
      if vTmpBuffer[at] != 0 || vTmpBuffer[at + 1] != 0 || vTmpBuffer[at + 2] != 0 {
        return false;
      }
      if vTmpBuffer[0] == 0 && vTmpBuffer[1] == 0 && vTmpBuffer[2] == 0 {
        vTmpBuffer[0] := 1;
      }
      vTmpBuffer[at] := vTmpBuffer[0];
      vTmpBuffer[at + 1] := vTmpBuffer[1];
      vTmpBuffer[at + 2] := vTmpBuffer[2];
      vTmpBuffer[0], vTmpBuffer[1], vTmpBuffer[2] := 0, 0, 0;
      forall k: nat | k < 4 && k + 1 != power
        ensures At(vTmpBuffer[..], k + 1) == b.high[k]
      {
        assert At(old(vTmpBuffer[..]), k + 1) == b.high[k];
      }
      return true;
    }

    // A word for one of the low digits, of which `digit` is the place and `value` the value; ten to nineteen
    // also set the tens.
    method Put(digit: nat, value: nat, teen: bool, ghost b: Buffer)
      requires vTmpBuffer.Length == 15 && Holds(vTmpBuffer[..], b) && digit < 3
      modifies vTmpBuffer
      ensures var d := b.low;
        Holds(vTmpBuffer[..], b.(low :=
          if teen then Digits(value, 1, d.h) else if digit == 0 then d.(u := value)
          else if digit == 1 then d.(t := value) else d.(h := value)))
    {
      if teen {
        vTmpBuffer[1] := 1;
        vTmpBuffer[0] := value;
      } else {
        vTmpBuffer[digit] := value;
      }
      forall k: nat | k < 4
        ensures At(vTmpBuffer[..], k + 1) == b.high[k]
      {
        assert At(old(vTmpBuffer[..]), k + 1) == b.high[k];
      }
    }

    // The words for the units, tens and hundreds; taken is false when the word is none of them.
    method LowWord(p: Word, ghost b: Buffer) returns (taken: bool, ok: bool)
      requires vTmpBuffer.Length == 15 && Holds(vTmpBuffer[..], b) && b.sign != 0
      modifies vTmpBuffer
      ensures taken ==> match Step(b, p)
        case None => !ok
        case Some(c) => ok && Holds(vTmpBuffer[..], c) && c.sign == b.sign
      ensures !taken ==>
        Holds(vTmpBuffer[..], b) && !p.OneF? && !p.TwoF?
        && (p.Small? || p.Tens? || p.Hundreds? ==> Step(b, p) == None)
    {
      hide RU;
      ghost var d := b.low;
      assert At(vTmpBuffer[..], 0) == d;
      var i := Find(p, 2, 21);
      FoundSmall(p, i);
      if i != 21 {
        if i < 11 {
          if vTmpBuffer[0] != 0 {
            return true, false;
          }
          Put(0, i - 1, false, b);
        } else {
          if vTmpBuffer[0] != 0 || vTmpBuffer[1] != 0 {
            return true, false;
          }
          Put(0, (i - 1) % 10, true, b);
        }
        return true, true;
      }
      if p == OneF || p == TwoF {
        if vTmpBuffer[0] != 0 {
          return true, false;
        }
        Put(0, if p == OneF then 1 else 2, false, b);
        return true, true;
      }
      i := Find(p, 21, 29);
      FoundTens(p, i);
      if i != 29 {
        if vTmpBuffer[1] != 0 {
          return true, false;
        }
        Put(1, i - 19, false, b);
        return true, true;
      }
      i := Find(p, 29, 38);
      FoundHundreds(p, i);
      if i != 38 {
        if vTmpBuffer[2] != 0 {
          return true, false;
        }
        Put(2, i - 28, false, b);
        return true, true;
      }
      return false, false;
    }

    // One word of the text.
    method OneWord(p: Word, negative: int, ghost b: Buffer) returns (ok: bool, negative': int)
      requires vTmpBuffer.Length == 15 && Holds(vTmpBuffer[..], b) && b.sign == negative
      modifies vTmpBuffer
      ensures match Step(b, p)
        case None => !ok
        case Some(c) => ok && Holds(vTmpBuffer[..], c) && c.sign == negative'
    {
      hide RU;
      negative' := negative;
      if p == Minus {
        return negative == 0, -1;
      }
      ghost var c := if b.sign == 0 then b.(sign := 1) else b;
      SignedStep(b, p);
      SignedHolds(vTmpBuffer[..], b, c);
      if negative == 0 {
        negative' := 1;
      }
      var taken;
      taken, ok := LowWord(p, c);
      if taken {
        return;
      }
      for power: nat := 1 to 5
        invariant Holds(vTmpBuffer[..], c) && c.sign == negative'
        invariant p.Scale? && p.form <= 2 ==> p.power < 1 || p.power >= power
      {
        var i := Find(p, 35 + 3 * power, 38 + 3 * power);
        FoundScale(p, power, i);
        if i != 38 + 3 * power {
          ok := Carry(power, p.form, negative', c);
          return;
        }
      }
      ok := false;
    }

    lemma SignedStep(b: Buffer, p: Word)
      requires |b.high| == 4 && p != Minus
      ensures Step(b, p) == Step(if b.sign == 0 then b.(sign := 1) else b, p)
    {
    }

    lemma SignedHolds(buf: seq<nat>, b: Buffer, c: Buffer)
      requires Holds(buf, b) && c.low == b.low && c.high == b.high
      ensures Holds(buf, c)
    {
    }

    // The value of a text, or None when its words do not fit together.
    method s2i(words: seq<Word>) returns (r: Option<int>)
      requires vTmpBuffer.Length == 15
      modifies vTmpBuffer
      ensures r == Parse(words)
    {
      hide Step;
      hide Total;
      Wipe();
      var negative := 0;
      ghost var b := Empty;
      assert words[0..] == words;
      for n := 0 to |words|
        invariant Holds(vTmpBuffer[..], b) && b.sign == negative
        invariant Parse(words) == Rest(b, words[n..])
      {
        hide Holds;
        hide Steps;
        hide Parse;
        RestStep(b, words, n);
        var ok;
        ok, negative := OneWord(words[n], negative, b);
        if !ok {
          return None;
        }
        b := Step(b, words[n]).value;
      }
      var aResult := Sum(b);
      r := Some(negative * aResult);
    }

    // bzero
    method Wipe()
      requires vTmpBuffer.Length == 15
      modifies vTmpBuffer
      ensures Holds(vTmpBuffer[..], Empty)
    {
      forall k | 0 <= k < 15 {
        vTmpBuffer[k] := 0;
      }
    }

    // The digits from the top one down.
    method Sum(ghost b: Buffer) returns (aResult: nat)
      requires vTmpBuffer.Length == 15 && Holds(vTmpBuffer[..], b)
      ensures aResult == Total(b)
    {
      aResult := 0;
      for i := 0 to 15
        invariant aResult == Top(vTmpBuffer[..], i)
      {
        aResult := aResult * 10;
        aResult := aResult + vTmpBuffer[14 - i];
      }
      TopTotal(vTmpBuffer[..], b);
    }
  }

  // The value of the words that are left.
  function Rest(b: Buffer, ws: seq<Word>): Option<int>
    requires |b.high| == 4
  {
    match Steps(b, ws)
    case None => None
    case Some(c) => Some(ValueOf(c))
  }

  lemma RestStep(b: Buffer, words: seq<Word>, n: nat)
    requires |b.high| == 4 && n < |words|
    ensures Rest(b, words[n..]) == match Step(b, words[n]) case None => None case Some(c) => Rest(c, words[n + 1..])
  {
    assert words[n..][1..] == words[n + 1..];
  }

  // The value of the top i digits.
  function Top(buf: seq<nat>, i: nat): nat
    requires i <= 15 == |buf|
  {
    if i == 0 then 0 else 10 * Top(buf, i - 1) + buf[15 - i]
  }

  lemma TopThree(buf: seq<nat>, i: nat)
    requires |buf| == 15 && i < 5
    ensures Top(buf, 3 * i + 3) == 1000 * Top(buf, 3 * i) + At(buf, 4 - i).Value()
  {
    assert Top(buf, 3 * i + 3) == 10 * Top(buf, 3 * i + 2) + buf[12 - 3 * i];
    assert Top(buf, 3 * i + 2) == 10 * Top(buf, 3 * i + 1) + buf[13 - 3 * i];
    assert Top(buf, 3 * i + 1) == 10 * Top(buf, 3 * i) + buf[14 - 3 * i];
  }

  lemma TopTotal(buf: seq<nat>, b: Buffer)
    requires Holds(buf, b)
    ensures Top(buf, 15) == Total(b)
  {
    hide At;
    hide Digits.Value;
    TopThree(buf, 0);
    TopThree(buf, 1);
    TopThree(buf, 2);
    TopThree(buf, 3);
    TopThree(buf, 4);
  }
}
