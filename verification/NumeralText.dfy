// Numerals as text. A word of the numeral tables is one symbol, told apart by its grammatical form
// (form 0 is the form the parser's tables hold); digits, signs and spaces are single characters.
module NumeralText {
  type digit = d: int | 0 <= d < 10

  datatype Word =
    | Zero(form: nat)
    | Unit(n: nat, form: nat)      // one .. nineteen
    | Decade(d: nat, form: nat)    // twenty .. ninety
    | Hundred(h: nat, form: nat)   // hundred .. nine hundred
    | Base(b: nat, form: nat)      // thousand, million, ...: 1000 to the b
    | Fraction(f: nat, form: nat)  // tenth, hundredth, ...: 10 to the -f
    | Integral(form: nat)          // the word behind the integral part
    | And
    | SignWord(minus: bool, form: nat)
  {
    // The numeral tables end at nine hundred, a septillion and the hundred billionth.
    predicate Known() {
      match this
      case Unit(n, _) => 1 <= n <= 19
      case Decade(d, _) => 2 <= d <= 9
      case Hundred(h, _) => 1 <= h <= 9
      case Base(b, _) => 1 <= b <= 8
      case Fraction(f, _) => 1 <= f <= 11
      case _ => true
    }
  }

  datatype Sym = Digit(v: digit) | Space | Word(w: Word) | Point(comma: bool) | Sign(minus: bool) | Other(c: nat)

  type Text = seq<Sym>

  // ---- values of digit strings ----

  function Pow10(k: nat): (p: nat)
    ensures p > 0
  {
    if k == 0 then 1 else 10 * Pow10(k - 1)
  }

  function Pow1000(k: nat): (p: nat)
    ensures p > 0
  {
    if k == 0 then 1 else 1000 * Pow1000(k - 1)
  }

  function Value(ds: seq<digit>): nat {
    if ds == [] then 0 else 10 * Value(ds[..|ds| - 1]) + ds[|ds| - 1]
  }

  lemma {:induction false} ValueSplit(a: seq<digit>, b: seq<digit>)
    ensures Value(a + b) == Value(a) * Pow10(|b|) + Value(b)
  {
    if b == [] {
      assert a + b == a;
    } else {
      var k := |b| - 1;
      ValueSplit(a, b[..k]);
      assert (a + b)[..|a + b| - 1] == a + b[..k];
      assert 10 * (Value(a) * Pow10(k)) == Value(a) * Pow10(k + 1);
    }
  }

  lemma {:induction false} ValueBound(ds: seq<digit>)
    ensures Value(ds) < Pow10(|ds|)
  {
    if ds != [] {
      ValueBound(ds[..|ds| - 1]);
    }
  }

  lemma {:induction false} Thousands(k: nat)
    ensures Pow10(3 * k) == Pow1000(k)
  {
    if k > 0 {
      Thousands(k - 1);
      assert Pow10(3 * k) == 10 * Pow10(3 * k - 1) == 100 * Pow10(3 * k - 2);
    }
  }

  // ---- words in a row ----

  // The words separated by single spaces.
  function Join(ws: seq<Word>): Text {
    if ws == [] then []
    else if |ws| == 1 then [Word(ws[0])]
    else [Word(ws[0]), Space] + Join(ws[1..])
  }

  // Appending one more word, behind a space unless it is the first.
  function AppendWord(t: Text, w: Word): Text {
    (if t == [] then [] else t + [Space]) + [Word(w)]
  }

  lemma {:induction false} JoinSnoc(ws: seq<Word>, w: Word)
    ensures Join(ws + [w]) == AppendWord(Join(ws), w)
    ensures Join(ws) == [] <==> ws == []
  {
    if ws == [] {
      assert ws + [w] == [w];
    } else {
      JoinSnoc(ws[1..], w);
      assert (ws + [w])[1..] == ws[1..] + [w];
      if |ws| == 1 {
        assert ws[1..] == [];
      }
    }
  }

  // ---- three-digit groups, most significant first ----

  // Digits in the first group.
  function FirstLen(n: nat): (k: nat)
    requires n > 0
    ensures 1 <= k <= 3 && k <= n && (n - k) % 3 == 0
  {
    (n - 1) % 3 + 1
  }

  function Groups(ds: seq<digit>): (vs: seq<nat>)
    decreases |ds|
  {
    if ds == [] then [] else
    var k := FirstLen(|ds|);
    [Value(ds[..k])] + Groups(ds[k..])
  }

  predicate AllGroups(vs: seq<nat>) {
    forall i :: 0 <= i < |vs| ==> vs[i] < 1000
  }

  // The number the groups stand for.
  function Total(vs: seq<nat>): nat {
    if vs == [] then 0 else vs[0] * Pow1000(|vs| - 1) + Total(vs[1..])
  }

  lemma GroupBound(ds: seq<digit>)
    requires 1 <= |ds| <= 3
    ensures Value(ds) < 1000
  {
    ValueBound(ds);
    assert Pow10(1) == 10 && Pow10(2) == 100 && Pow10(3) == 1000;
  }

  lemma {:induction false} GroupsCount(ds: seq<digit>)
    ensures 3 * |Groups(ds)| >= |ds| > 3 * |Groups(ds)| - 3
    ensures AllGroups(Groups(ds))
    decreases |ds|
  {
    if ds != [] {
      var k := FirstLen(|ds|);
      GroupsCount(ds[k..]);
      GroupBound(ds[..k]);
      assert |ds[k..]| == 3 * |Groups(ds[k..])|;
    }
  }

  lemma TotalHead(ds: seq<digit>, k: nat)
    requires ds != [] && k == FirstLen(|ds|)
    ensures Total(Groups(ds)) == Value(ds[..k]) * Pow1000(|Groups(ds[k..])|) + Total(Groups(ds[k..]))
  {
    hide FirstLen;
    hide Pow1000;
    hide Value;
    var vs := Groups(ds);
    assert vs[1..] == Groups(ds[k..]);
  }

  lemma {:induction false} GroupsTotal(ds: seq<digit>)
    ensures Total(Groups(ds)) == Value(ds)
    decreases |ds|
  {
    hide FirstLen;
    hide Groups;
    hide Total;
    hide Value;
    hide Pow1000;
    hide Pow10;
    if ds != [] {
      var k := FirstLen(|ds|);
      GroupsTotal(ds[k..]);
      TotalHead(ds, k);
      RestCount(ds, k);
      Thousands(|Groups(ds[k..])|);
      ValueSplit(ds[..k], ds[k..]);
      assert ds[..k] + ds[k..] == ds;
    } else {
      NoGroups(ds);
    }
  }

  lemma NoGroups(ds: seq<digit>)
    requires ds == []
    ensures Total(Groups(ds)) == 0 == Value(ds)
  {
  }

  // Behind the first group all groups are full.
  lemma RestCount(ds: seq<digit>, k: nat)
    requires ds != [] && k == FirstLen(|ds|)
    ensures |ds[k..]| == 3 * |Groups(ds[k..])|
  {
    GroupsCount(ds[k..]);
  }

  lemma MulMonotone(a: nat, b: nat, p: nat)
    requires a <= b
    ensures a * p <= b * p
  {
  }

  lemma {:induction false} TotalBound(vs: seq<nat>)
    requires AllGroups(vs)
    ensures Total(vs) < Pow1000(|vs|)
  {
    if vs != [] {
      TotalBound(vs[1..]);
      MulMonotone(vs[0], 999, Pow1000(|vs| - 1));
    }
  }
}
