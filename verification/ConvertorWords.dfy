// Russian number words, what a number is in words, and how words are put together to a number.
module ConvertorWords {
  import opened Bytes

  // power: 1 for thousands to 4 for trillions; form: the case after one, after two to four, and otherwise.
  datatype Word =
    | Minus | Zero | Small(n: nat) | OneF | TwoF | Tens(n: nat) | Hundreds(n: nat) | Scale(power: nat, form: nat) | Other

  function CaseForm(n: nat): nat {
    if n == 1 then 0 else if 2 <= n <= 4 then 1 else 2
  }

  // The word of a unit in front of a scale word: thousands are feminine.
  function UnitWord(n: nat, power: nat): Word {
    if power == 1 && n == 1 then OneF else if power == 1 && n == 2 then TwoF else Small(n)
  }

  // The table of strings, as words.
  function RU(i: nat): seq<Word> {
    if i == 0 then [Minus]
    else if i == 1 then [Zero]
    else if i <= 20 then [Small(i - 1)]
    else if i <= 28 then [Tens(i - 19)]
    else if i <= 37 then [Hundreds(i - 28)]
    else if i <= 49 then [Scale((i - 38) / 3 + 1, (i - 38) % 3)]
    else if i <= 89 then
      var power, n := (i - 50) / 10 + 1, (i - 50) % 10;
      if n == 0 then [Scale(power, 2)] else [UnitWord(n, power), Scale(power, CaseForm(n))]
    else if i == 90 then [OneF]
    else if i == 91 then [TwoF]
    else [Other]
  }

  // ---- printing ----

  // 1000 to the power k
  function Thousand(k: nat): (t: nat)
    requires k <= 5
    ensures t > 0
  {
    match k
    case 0 => 1
    case 1 => 1000
    case 2 => 1_000_000
    case 3 => 1_000_000_000
    case 4 => 1_000_000_000_000
    case _ => 1_000_000_000_000_000
  }

  // The scale word behind a group.
  function Tail(power: nat, form: nat): seq<Word> {
    if power == 0 then [] else [Scale(power, form)]
  }

  // The last digit of a group, with the scale word in the case it asks for.
  function Unit(n: nat, power: nat): seq<Word> {
    if n == 0 then Tail(power, 2) else [UnitWord(n, power)] + Tail(power, CaseForm(n))
  }

  function Lower(v: nat, power: nat): seq<Word>
    requires v < 100
  {
    if v < 10 then Unit(v, power)
    else if v < 20 then [Small(v)] + Tail(power, 2)
    else [Tens(v / 10)] + Unit(v % 10, power)
  }

  function Group(v: nat, power: nat): seq<Word>
    requires v < 1000
  {
    if v == 0 then []
    else if v < 100 then Lower(v, power)
    else [Hundreds(v / 100)] + Lower(v % 100, power)
  }

  // The groups of n from `powers` - 1 down.
  function Positive(n: nat, powers: nat): seq<Word>
    requires powers <= 5 && n < Thousand(powers)
  {
    if powers == 0 then []
    else
      LeadBound(n, powers - 1);
      Group(n / Thousand(powers - 1), powers - 1) + Positive(n % Thousand(powers - 1), powers - 1)
  }

  lemma LeadBound(n: nat, k: nat)
    requires k <= 4 && n < Thousand(k + 1)
    ensures n / Thousand(k) < 1000
  {
  }

  const LIMIT := 1_000_000_000_000_000

  function Words(n: int): seq<Word>
    requires -LIMIT < n < LIMIT
  {
    assert Thousand(5) == LIMIT;
    if n == 0 then [Zero] else if n < 0 then [Minus] + Positive(-n, 5) else Positive(n, 5)
  }

  // ---- parsing ----

  // Three digits: units, tens, hundreds.
  datatype Digits = Digits(u: nat, t: nat, h: nat)
  {
    function Value(): nat {
      100 * h + 10 * t + u
    }
  }

  const NONE := Digits(0, 0, 0)

  // low: the three digits being collected; high: those of thousands to trillions; sign: 0 before the first word.
  datatype Buffer = Buffer(low: Digits, high: seq<Digits>, sign: int)

  const Empty := Buffer(NONE, [NONE, NONE, NONE, NONE], 0)

  // One word; None when it does not fit.
  function Step(b: Buffer, w: Word): (r: Option<Buffer>)
    requires |b.high| == 4
    ensures r.Some? ==> |r.value.high| == 4
  {
    var d := b.low;
    var c := if b.sign == 0 then b.(sign := 1) else b;
    match w
    case Minus => if b.sign != 0 then None else Some(b.(sign := -1))
    case Zero => None
    case Small(n) =>
      if n < 1 || n > 19 || d.u != 0 || (n >= 10 && d.t != 0) then None
      else Some(c.(low := if n < 10 then d.(u := n) else Digits(n % 10, 1, d.h)))
    case OneF => if d.u != 0 then None else Some(c.(low := d.(u := 1)))
    case TwoF => if d.u != 0 then None else Some(c.(low := d.(u := 2)))
    case Tens(n) => if n < 2 || n > 9 || d.t != 0 then None else Some(c.(low := d.(t := n)))
    case Hundreds(n) => if n < 1 || n > 9 || d.h != 0 then None else Some(c.(low := d.(h := n)))
    case Scale(power, form) =>
      if power < 1 || power > 4 || form > 2 || b.high[power - 1] != NONE then None
      else Some(c.(low := NONE, high := b.high[power - 1 := if d == NONE then Digits(1, 0, 0) else d]))
    case Other => None
  }

  function Steps(b: Buffer, ws: seq<Word>): (r: Option<Buffer>)
    requires |b.high| == 4
    ensures r.Some? ==> |r.value.high| == 4
    decreases |ws|
  {
    if ws == [] then Some(b)
    else
      match Step(b, ws[0])
      case None => None
      case Some(c) => Steps(c, ws[1..])
  }

  function Total(b: Buffer): nat
    requires |b.high| == 4
  {
    b.low.Value() + 1000 * b.high[0].Value() + 1_000_000 * b.high[1].Value()
    + 1_000_000_000 * b.high[2].Value() + 1_000_000_000_000 * b.high[3].Value()
  }

  function ValueOf(b: Buffer): int
    requires |b.high| == 4
  {
    b.sign * Total(b)
  }

  function Parse(ws: seq<Word>): Option<int> {
    match Steps(Empty, ws)
    case None => None
    case Some(b) => Some(ValueOf(b))
  }

  // ---- the words of a number put together again ----

  lemma {:induction false} StepsConcat(b: Buffer, x: seq<Word>, y: seq<Word>)
    requires |b.high| == 4
    ensures Steps(b, x + y) == match Steps(b, x) case None => None case Some(c) => Steps(c, y)
    decreases |x|
  {
    if x == [] {
      assert x + y == y;
    } else {
      assert (x + y)[1..] == x[1..] + y;
      match Step(b, x[0])
      case None =>
      case Some(c) => StepsConcat(c, x[1..], y);
    }
  }

  lemma StepFirst(b: Buffer, w: Word, ws: seq<Word>)
    requires |b.high| == 4
    ensures Steps(b, [w] + ws) == match Step(b, w) case None => None case Some(c) => Steps(c, ws)
  {
    assert ([w] + ws)[1..] == ws;
  }

  // The buffer after the scale word of a power.
  function Shifted(b: Buffer, power: nat): Buffer
    requires |b.high| == 4 && power <= 4
  {
    if power == 0 then b else b.(low := NONE, high := b.high[power - 1 := b.low])
  }

  predicate Ready(b: Buffer, power: nat) {
    |b.high| == 4 && power <= 4 && b.sign != 0 && (power > 0 ==> b.high[power - 1] == NONE)
  }

  lemma TailTaken(b: Buffer, power: nat, form: nat)
    requires Ready(b, power) && form <= 2 && b.low != NONE
    ensures Steps(b, Tail(power, form)) == Some(Shifted(b, power))
  {
    if power > 0 {
      StepFirst(b, Scale(power, form), []);
    }
  }

  lemma UnitTaken(b: Buffer, n: nat, power: nat)
    requires Ready(b, power) && n < 10 && b.low.u == 0 && (n > 0 || b.low != NONE)
    ensures Steps(b, Unit(n, power)) == Some(Shifted(b.(low := b.low.(u := n)), power))
  {
    var c := b.(low := b.low.(u := n));
    if n == 0 {
      assert c == b;
      TailTaken(b, power, 2);
    } else {
      StepFirst(b, UnitWord(n, power), Tail(power, CaseForm(n)));
      TailTaken(c, power, CaseForm(n));
    }
  }

  lemma LowerTaken(b: Buffer, v: nat, power: nat)
    requires Ready(b, power) && v < 100 && b.low.u == 0 && b.low.t == 0 && (v > 0 || b.low != NONE)
    ensures Steps(b, Lower(v, power)) == Some(Shifted(b.(low := Digits(v % 10, v / 10, b.low.h)), power))
  {
    if v < 10 {
      UnitTaken(b, v, power);
    } else if v < 20 {
      var c := b.(low := Digits(v % 10, 1, b.low.h));
      StepFirst(b, Small(v), Tail(power, 2));
      TailTaken(c, power, 2);
    } else {
      var c := b.(low := b.low.(t := v / 10));
      StepFirst(b, Tens(v / 10), Unit(v % 10, power));
      UnitTaken(c, v % 10, power);
    }
  }

  function DigitsOf(v: nat): (d: Digits)
    requires v < 1000
    ensures d.Value() == v && (d == NONE <==> v == 0)
  {
    assert v / 100 == v / 10 / 10;
    Digits(v % 10, v / 10 % 10, v / 100)
  }

  lemma GroupTaken(b: Buffer, v: nat, power: nat)
    requires Ready(b, power) && 0 < v < 1000 && b.low == NONE
    ensures Steps(b, Group(v, power)) == Some(Shifted(b.(low := DigitsOf(v)), power))
  {
    if v < 100 {
      LowerTaken(b, v, power);
    } else {
      var c := b.(low := Digits(0, 0, v / 100));
      StepFirst(b, Hundreds(v / 100), Lower(v % 100, power));
      LowerTaken(c, v % 100, power);
      SplitHundreds(v);
    }
  }

  lemma SplitHundreds(v: nat)
    ensures v % 100 % 10 == v % 10 && v % 100 / 10 == v / 10 % 10
  {
    var h, t, u := v / 100, v / 10 % 10, v % 10;
    assert v == 100 * h + 10 * t + u;
  }

  function Scaled(x: nat, power: nat): nat
    requires power <= 4
  {
    match power
    case 0 => x
    case 1 => 1000 * x
    case 2 => 1_000_000 * x
    case 3 => 1_000_000_000 * x
    case _ => 1_000_000_000_000 * x
  }

  lemma ScaledIs(x: nat, power: nat)
    requires power <= 4
    ensures Scaled(x, power) == x * Thousand(power)
  {
  }

  lemma ShiftedTotal(b: Buffer, d: Digits, power: nat)
    requires Ready(b, power) && b.low == NONE
    ensures Total(Shifted(b.(low := d), power)) == Total(b) + Scaled(d.Value(), power)
  {
    hide Digits.Value;
    hide Total;
    var c := Shifted(b.(low := d), power);
    NoneValue();
    if power == 0 {
      SumUp(b, c, d.Value(), 0, 0, 0, 0);
    } else if power == 1 {
      SumUp(b, c, 0, d.Value(), 0, 0, 0);
    } else if power == 2 {
      SumUp(b, c, 0, 0, d.Value(), 0, 0);
    } else if power == 3 {
      SumUp(b, c, 0, 0, 0, d.Value(), 0);
    } else {
      SumUp(b, c, 0, 0, 0, 0, d.Value());
    }
  }

  lemma NoneValue()
    ensures NONE.Value() == 0
  {
  }

  lemma EmptyTotal(sign: int)
    ensures Total(Empty.(sign := sign)) == 0
  {
    hide Digits.Value;
    NoneValue();
  }

  // The sums of two buffers differ by what their slots differ by.
  lemma SumUp(b: Buffer, c: Buffer, d0: nat, d1: nat, d2: nat, d3: nat, d4: nat)
    requires |b.high| == 4 && |c.high| == 4
    requires c.low.Value() == b.low.Value() + d0
    requires c.high[0].Value() == b.high[0].Value() + d1 && c.high[1].Value() == b.high[1].Value() + d2
    requires c.high[2].Value() == b.high[2].Value() + d3 && c.high[3].Value() == b.high[3].Value() + d4
    ensures Total(c) == Total(b) + d0 + 1000 * d1 + 1_000_000 * d2 + 1_000_000_000 * d3 + 1_000_000_000_000 * d4
  {
    hide Digits.Value;
  }

  lemma DivMod(n: nat, d: nat)
    requires d > 0
    ensures n == n / d * d + n % d && n % d < d
  {
  }

  // The slots below `powers` are free.
  predicate Below(b: Buffer, powers: nat) {
    |b.high| == 4 && b.sign != 0 && b.low == NONE && powers <= 5
    && forall k :: 0 <= k < 4 && k + 1 < powers ==> b.high[k] == NONE
  }

  lemma {:induction false} PositiveTaken(b: Buffer, n: nat, powers: nat)
    requires Below(b, powers) && n < Thousand(powers)
    ensures var r := Steps(b, Positive(n, powers)); r.Some? && r.value.sign == b.sign && Total(r.value) == Total(b) + n
    decreases powers
  {
    hide Group;
    hide Total;
    if powers > 0 {
      var power := powers - 1;
      LeadBound(n, power);
      var v, rest := n / Thousand(power), n % Thousand(power);
      DivMod(n, Thousand(power));
      assert Positive(n, powers) == Group(v, power) + Positive(rest, power);
      assert power == 0 ==> rest == 0;
      GroupWords(v, power);
      hide Thousand;
      StepsConcat(b, Group(v, power), Positive(rest, power));
      if v == 0 {
        PositiveTaken(b, rest, power);
      } else {
        GroupTaken(b, v, power);
        ShiftedTotal(b, DigitsOf(v), power);
        ScaledIs(v, power);
        var c := Shifted(b.(low := DigitsOf(v)), power);
        if power > 0 {
          PositiveTaken(c, rest, power);
        }
      }
    }
  }

  lemma GroupWords(v: nat, power: nat)
    requires v < 1000
    ensures Minus !in Group(v, power) && (v > 0 <==> Group(v, power) != [])
  {
  }

  lemma {:induction false} PositiveWords(n: nat, powers: nat)
    requires powers <= 5 && n < Thousand(powers)
    ensures Minus !in Positive(n, powers) && (n > 0 ==> Positive(n, powers) != [])
  {
    hide Group;
    if powers > 0 {
      LeadBound(n, powers - 1);
      DivMod(n, Thousand(powers - 1));
      hide Thousand;
      GroupWords(n / Thousand(powers - 1), powers - 1);
      PositiveWords(n % Thousand(powers - 1), powers - 1);
    }
  }

  // The first word that is no minus makes the sign positive.
  lemma SignSet(b: Buffer, ws: seq<Word>)
    requires |b.high| == 4 && b.sign == 0 && ws != [] && ws[0] != Minus
    ensures Steps(b, ws) == Steps(b.(sign := 1), ws)
  {
  }

  // s2i undoes i2s on every number below 10^15 in magnitude but zero, which it refuses.
  lemma ConvertorRoundTrip(n: int)
    requires -LIMIT < n < LIMIT
    ensures Parse(Words(n)) == if n == 0 then None else Some(n)
  {
    hide Positive;
    hide Total;
    hide Digits.Value;
    assert Thousand(5) == LIMIT;
    EmptyTotal(1);
    EmptyTotal(-1);
    if n > 0 {
      PositiveWords(n, 5);
      SignSet(Empty, Positive(n, 5));
      PositiveTaken(Empty.(sign := 1), n, 5);
    } else if n < 0 {
      StepFirst(Empty, Minus, Positive(-n, 5));
      PositiveTaken(Empty.(sign := -1), -n, 5);
    }
  }

  // Different numbers have different words.
  lemma WordsInjective(m: int, n: int)
    requires -LIMIT < m < LIMIT && -LIMIT < n < LIMIT && Words(m) == Words(n)
    ensures m == n
  {
    ConvertorRoundTrip(m);
    ConvertorRoundTrip(n);
  }
}
