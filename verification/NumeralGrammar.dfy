// KeyboardNumberParser: normalizing the words and the recursive grammar of numbers, over positions in a text.
module NumeralGrammar {
  import opened Bytes
  import opened NumeralText

  // ---- scanning ----

  function SkipSpaces(t: Text, p: nat): (q: nat)
    ensures p <= q && (p <= |t| ==> q <= |t|)
    ensures q < |t| ==> t[q] != Space
    decreases |t| - p
  {
    if p < |t| && t[p] == Space then SkipSpaces(t, p + 1) else p
  }

  // The end of the word at p.
  function WordEnd(t: Text, p: nat): (q: nat)
    requires p <= |t|
    ensures p <= q <= |t|
    ensures p < |t| && t[p] != Space ==> p < q
    decreases |t| - p
  {
    if p == |t| || t[p] == Space then p else WordEnd(t, p + 1)
  }

  function DigitsEnd(t: Text, p: nat): (q: nat)
    requires p <= |t|
    ensures p <= q <= |t|
    ensures forall i :: p <= i < q ==> t[i].Digit?
    decreases |t| - p
  {
    if p == |t| || !t[p].Digit? then p else DigitsEnd(t, p + 1)
  }

  method FindWordEnd(t: Text, p: nat) returns (end: nat)
    requires p <= |t|
    ensures end == WordEnd(t, p)
  {
    end := p;
    while end < |t| && t[end] != Space
      invariant p <= end <= |t| && WordEnd(t, end) == WordEnd(t, p)
    {
      end := end + 1;
    }
  }

  function DigitsAt(t: Text, p: nat, q: nat): seq<digit>
    requires p <= q <= |t| && forall i :: p <= i < q ==> t[i].Digit?
  {
    seq(q - p, i requires 0 <= i < q - p => t[p + i].v)
  }

  // ---- normalizing ----

  // The main synonym of a numeral. The table of twenty holds a misspelt word, so its forms stay as they are.
  function NormalForm(w: Word): Sym {
    if !w.Known() then Word(w) else
    match w
    case Zero(_) => Word(Zero(0))
    case Unit(n, _) => Word(Unit(n, 0))
    case Decade(d, f) => Word(if d == 2 then w else Decade(d, 0))
    case Hundred(h, _) => Word(Hundred(h, 0))
    case Base(b, _) => Word(Base(b, 0))
    case Fraction(f, _) => Word(Fraction(f, 0))
    case Integral(_) => Word(Integral(0))
    case And => Word(And)
    case SignWord(minus, _) => Sign(minus)
  }

  // A word that is not in the table is copied.
  function NormalRun(run: Text): Text {
    if |run| == 1 && run[0].Word? then [NormalForm(run[0].w)] else run
  }

  function SpaceBefore(acc: Text): Text {
    if acc == [] then [] else acc + [Space]
  }

  function NormalizeFrom(t: Text, p: nat, acc: Text): Text
    decreases |t| - p
  {
    var begin := SkipSpaces(t, p);
    if begin >= |t| then acc
    else
      var end := WordEnd(t, begin);
      if end - begin > 1 && t[begin].Sign? then
        NormalizeFrom(t, end + 1, SpaceBefore(acc + [t[begin]]) + NormalRun(t[begin + 1..end]))
      else
        NormalizeFrom(t, end + 1, SpaceBefore(acc) + NormalRun(t[begin..end]))
  }

  // One word: a sign in front of it is moved before the space.
  lemma NormalizeWord(t: Text, p: nat, acc: Text)
    ensures var begin := SkipSpaces(t, p);
      if begin >= |t| then NormalizeFrom(t, p, acc) == acc
      else
        var end := WordEnd(t, begin);
        var signed := end - begin > 1 && t[begin].Sign?;
        var from := if signed then begin + 1 else begin;
        NormalizeFrom(t, p, acc) ==
        NormalizeFrom(t, end + 1, SpaceBefore(if signed then acc + [t[begin]] else acc) + NormalRun(t[from..end]))
  {
  }

  method NormalizeNumerals(t: Text) returns (result: Text)
    ensures result == NormalizeFrom(t, 0, [])
  {
    hide SkipSpaces;
    hide WordEnd;
    hide NormalizeFrom;
    hide NormalRun;
    result := [];
    var begin: nat := 0;
    while begin < |t|
      invariant NormalizeFrom(t, begin, result) == NormalizeFrom(t, 0, [])
      decreases |t| - begin
    {
      NormalizeWord(t, begin, result);
      begin := SkipSpaces(t, begin);
      if begin >= |t| {
        return;
      }
      var end := FindWordEnd(t, begin);
      if end - begin > 1 && t[begin].Sign? {
        result := result + [t[begin]];
        begin := begin + 1;
      }
      var norm := NormalRun(t[begin..end]);
      if |result| > 0 {
        result := result + [Space];
      }
      result := result + norm;
      begin := end + 1;
    }
    NothingLeft(t, begin);
    NormalizeWord(t, begin, result);
  }

  lemma NothingLeft(t: Text, p: nat)
    requires p >= |t|
    ensures SkipSpaces(t, p) >= |t|
  {
  }

  // The spaces that stay: inside the text, before a word, but not between two digits.
  predicate Kept(t: Text, n: nat)
    requires n < |t|
  {
    t[n] != Space ||
    (0 < n < |t| - 1 && t[n + 1] != Space && !(t[n - 1].Digit? && t[n + 1].Digit?))
  }

  function DeleteFrom(t: Text, n: nat): Text
    decreases |t| - n
  {
    if n >= |t| then [] else (if Kept(t, n) then [t[n]] else []) + DeleteFrom(t, n + 1)
  }

  lemma DeleteStep(t: Text, n: nat, done: Text)
    ensures n < |t| ==> done + DeleteFrom(t, n) == done + (if Kept(t, n) then [t[n]] else []) + DeleteFrom(t, n + 1)
    ensures n >= |t| ==> done + DeleteFrom(t, n) == done
  {
  }

  method DeleteSpaces(t: Text) returns (result: Text)
    ensures result == DeleteFrom(t, SkipSpaces(t, 0))
  {
    hide SkipSpaces;
    hide DeleteFrom;
    result := [];
    ghost var start := SkipSpaces(t, 0);
    var n := SkipSpaces(t, 0);
    while n < |t|
      invariant start <= n
      invariant result + DeleteFrom(t, n) == DeleteFrom(t, start)
      decreases |t| - n
    {
      ghost var before := result;
      if n > 0 && n < |t| - 1 {
        if t[n] == Space {
          if t[n + 1] != Space && !(t[n - 1].Digit? && t[n + 1].Digit?) {
            result := result + [t[n]];
          }
        } else {
          result := result + [t[n]];
        }
      } else if t[n] != Space {
        result := result + [t[n]];
      }
      assert result == before + (if Kept(t, n) then [t[n]] else []);
      DeleteStep(t, n, before);
      n := n + 1;
    }
    DeleteStep(t, n, result);
  }

  predicate NoNumerals(t: Text) {
    forall i :: 0 <= i < |t| ==> t[i] == Space || t[i].Digit? || t[i] == Point(false)
  }

  // ---- the tables of the parser: exactly one word, in its main form ----

  function HundredOf(run: Text): Option<nat> {
    if |run| == 1 && run[0].Word? && run[0].w.Hundred? && run[0].w.Known() && run[0].w.form == 0 then Some(100 * run[0].w.h) else None
  }

  function DecadeOf(run: Text): Option<nat> {
    if |run| == 1 && run[0].Word? && run[0].w.Decade? && run[0].w.Known() && run[0].w.form == 0 then Some(10 * run[0].w.d) else None
  }

  function UnitOf(run: Text): Option<nat> {
    if |run| == 1 && run[0].Word? && run[0].w.Unit? && run[0].w.Known() && run[0].w.form == 0 then Some(run[0].w.n) else None
  }

  function BaseOf(run: Text): Option<nat> {
    if |run| == 1 && run[0].Word? && run[0].w.Base? && run[0].w.Known() && run[0].w.form == 0 then Some(Pow1000(run[0].w.b)) else None
  }

  function FractionOf(run: Text): (r: Option<nat>)
    ensures r.Some? ==> r.value > 0
  {
    if |run| == 1 && run[0].Word? && run[0].w.Fraction? && run[0].w.Known() && run[0].w.form == 0 then Some(Pow10(run[0].w.f)) else None
  }

  // ---- the grammar: a value and the position behind it ----

  type Parse<+V> = Option<(V, nat)>

  // The table entry of the word at p, and the position to go on from: behind the word and a space when the
  // word is in the table, p otherwise.
  function Entry(t: Text, p: nat, table: Text -> Option<nat>): (r: (nat, nat, bool))
    requires p <= |t|
    ensures p <= r.1 <= |t|
    ensures r.2 ==> table([]).None? ==> p < r.1
  {
    var end := WordEnd(t, p);
    match table(t[p..end])
    case Some(v) => (v, if end < |t| then end + 1 else |t|, true)
    case None => (0, p, false)
  }

  // S: a hundred, a ten and a unit word in a row, any of them absent. The unit words go up to nineteen and may
  // follow a ten.
  function S(t: Text, p: nat): (r: Parse<nat>)
    requires p <= |t|
    ensures r.Some? ==> p < r.value.1 <= |t|
    ensures r.Some? ==> 1 <= r.value.0 <= 1009
  {
    var pos := SkipSpaces(t, p);
    if pos >= |t| then None else
    var h := Entry(t, pos, HundredOf);
    var d := Entry(t, h.1, DecadeOf);
    var u := Entry(t, d.1, UnitOf);
    if h.2 || d.2 || u.2 then Some((h.0 + d.0 + u.0, u.1)) else None
  }

  // The number stays below a thousand unless nine hundred, ninety and a word from ten on stand in a row.
  lemma SmallExceeds(t: Text, p: nat)
    requires p <= |t| && S(t, p).Some?
    ensures var h := Entry(t, SkipSpaces(t, p), HundredOf);
      var d := Entry(t, h.1, DecadeOf);
      var u := Entry(t, d.1, UnitOf);
      S(t, p).value.0 > 999 <==> h.0 == 900 && d.0 == 90 && u.0 >= 10
  {
    hide WordEnd;
    hide SkipSpaces;
  }

  // NN: digits of any length.
  function NN(t: Text, p: nat): (r: Parse<nat>)
    requires p <= |t|
    ensures r.Some? ==> p < r.value.1 <= |t|
  {
    var pos := SkipSpaces(t, p);
    if pos >= |t| then None else
    var end := DigitsEnd(t, pos);
    if end == pos then None else Some((Value(DigitsAt(t, pos, end)), end))
  }

  // D: up to three digits; D3: exactly three, of which more may follow.
  function D(t: Text, p: nat): (r: Parse<nat>)
    requires p <= |t|
    ensures r.Some? ==> p < r.value.1 <= |t|
  {
    var pos := SkipSpaces(t, p);
    if pos >= |t| || !t[pos].Digit? then None else
    var end := if DigitsEnd(t, pos) - pos <= 3 then DigitsEnd(t, pos) else pos + 3;
    Some((Value(DigitsAt(t, pos, end)), end))
  }

  function D3(t: Text, p: nat): (r: Parse<nat>)
    requires p <= |t|
    ensures r.Some? ==> p < r.value.1 <= |t|
  {
    var pos := SkipSpaces(t, p);
    if DigitsEnd(t, pos) - pos < 3 then None else Some((Value(DigitsAt(t, pos, pos + 3)), pos + 3))
  }

  function Either(a: Parse<nat>, b: Parse<nat>): Parse<nat> {
    if a.Some? then a else b
  }

  function KK(t: Text, p: nat): (r: Parse<nat>)
    requires p <= |t|
    ensures r.Some? ==> p < r.value.1 <= |t|
  {
    var pos := SkipSpaces(t, p);
    Either(S(t, pos), NN(t, pos))
  }

  function K(t: Text, p: nat): (r: Parse<nat>)
    requires p <= |t|
    ensures r.Some? ==> p < r.value.1 <= |t|
  {
    var pos := SkipSpaces(t, p);
    if pos >= |t| then None else Either(D(t, pos), S(t, pos))
  }

  function K3(t: Text, p: nat): (r: Parse<nat>)
    requires p <= |t|
    ensures r.Some? ==> p < r.value.1 <= |t|
  {
    var pos := SkipSpaces(t, p);
    if pos >= |t| then None else Either(D3(t, pos), S(t, pos))
  }

  // Z: zero, as a word or as a digit of its own.
  predicate Z(t: Text, p: nat)
    requires p <= |t|
  {
    var pos := SkipSpaces(t, p);
    pos < |t| && (t[pos..WordEnd(t, pos)] == [Word(Zero(0))] || t[pos..WordEnd(t, pos)] == [Digit(0)])
  }

  // R: a power of a thousand.
  function R(t: Text, p: nat): (r: Parse<nat>)
    requires p <= |t|
    ensures r.Some? ==> p < r.value.1 <= |t|
  {
    if p >= |t| then None else
    var pos := SkipSpaces(t, p);
    var r := Entry(t, pos, BaseOf);
    if r.2 then Some((r.0, r.1)) else None
  }

  // How T accepted its value.
  datatype Multiple =
    | KRT(kk: nat, r: nat, t: Multiple)
    | KR(kk: nat, r: nat)
    | RT(r: nat, t: Multiple)
    | ROnly(r: nat)
    | Plain(n: nat)
  {
    function Val(): nat {
      match this
      case KRT(kk, r, t) => kk * r + t.Val()
      case KR(kk, r) => kk * r
      case RT(r, t) => r + t.Val()
      case ROnly(r) => r
      case Plain(n) => n
    }

    // Every multiplier and every rest is smaller than the base it stands with.
    predicate Ordered() {
      match this
      case KRT(kk, r, t) => kk < r && t.Val() < r && t.Ordered()
      case KR(kk, r) => kk < r
      case RT(r, t) => t.Val() < r && t.Ordered()
      case ROnly(_) => true
      case Plain(_) => true
    }
  }

  function T(t: Text, p: nat): (res: Parse<Multiple>)
    requires p <= |t|
    ensures res.Some? ==> p < res.value.1 <= |t|
    ensures res.Some? ==> res.value.0.Ordered()
    decreases |t| - p
  {
    var pos := SkipSpaces(t, p);
    match KK(t, pos)
    case Some((kk, p1)) =>
      (match R(t, p1)
       case Some((r, p2)) =>
         if kk >= r then None else
         (match T(t, p2)
          case Some((x, p3)) => if r > x.Val() then Some((KRT(kk, r, x), p3)) else None
          case None => Some((KR(kk, r), p2)))
       case None =>
         match NN(t, pos)
         case Some((n, q)) => Some((Plain(n), q))
         case None => None)
    case None =>
      match R(t, pos)
      case None => None
      case Some((r, p2)) =>
        match T(t, p2)
        case Some((x, p3)) => if r > x.Val() then Some((RT(r, x), p3)) else None
        case None => Some((ROnly(r), p2))
  }

  function N(t: Text, p: nat): (r: Parse<nat>)
    requires p <= |t|
    ensures r.Some? ==> p < r.value.1 <= |t|
  {
    match T(t, p)
    case Some((x, p1)) =>
      (match K3(t, p1)
       case Some((k, p2)) => Some((x.Val() + k, p2))
       case None => Some((x.Val(), p1)))
    case None =>
      match K(t, p)
      case Some((k, p1)) => Some((k, p1))
      case None => if Z(t, p) then Some((0, WordEnd(t, SkipSpaces(t, p)))) else None
  }

  // D1 and DOT: a word that may be there.
  function Optional(t: Text, p: nat, w: Word): (r: Option<nat>)
    requires p <= |t|
    ensures r.Some? ==> p <= r.value <= |t|
  {
    if p >= |t| then None else
    var pos := SkipSpaces(t, p);
    Some(if pos < |t| && t[pos] == Word(w) then pos + 1 else p)
  }

  function D1(t: Text, p: nat): (r: Option<nat>)
    requires p <= |t|
    ensures r.Some? ==> p <= r.value <= |t|
  {
    Optional(t, p, Integral(0))
  }

  function DOT(t: Text, p: nat): (r: Option<nat>)
    requires p <= |t|
    ensures r.Some? ==> p <= r.value <= |t|
  {
    Optional(t, p, And)
  }

  // D2: the base of a fraction; the position stays at the end of the word.
  function D2(t: Text, p: nat): (r: Parse<nat>)
    requires p <= |t|
    ensures r.Some? ==> p <= r.value.1 <= |t| && r.value.0 > 0
  {
    if p >= |t| then None else
    var pos := SkipSpaces(t, p);
    var end := WordEnd(t, pos);
    if end == pos then None else
    match FractionOf(t[pos..end])
    case Some(b) => Some((b, end))
    case None => None
  }

  predicate END(t: Text, p: nat) {
    p == |t|
  }

  // An exact result: whole + part / base, negated or not.
  datatype Amount = Amount(negative: bool, whole: nat, part: nat, base: nat)

  function Whole(n: nat): Amount {
    Amount(false, n, 0, 1)
  }

  // UF -> N D2 END | N END
  function Tail(t: Text, i: nat, p1: nat): (r: Parse<Amount>)
    requires p1 <= |t|
    ensures r.Some? ==> r.value.1 == |t| && r.value.0.base > 0 && !r.value.0.negative
  {
    match D2(t, p1)
    case Some((b, p2)) => if END(t, p2) then Some((Amount(false, 0, i, b), p2)) else None
    case None => if END(t, p1) then Some((Whole(i), p1)) else None
  }

  // ... and its D2 END
  function WithBase(t: Text, i: nat, f: nat, p4: nat): (r: Parse<Amount>)
    requires p4 <= |t|
    ensures r.Some? ==> r.value.1 == |t| && r.value.0.base > 0 && !r.value.0.negative
  {
    match D2(t, p4)
    case None => None
    case Some((b, p5)) => if END(t, p5) then Some((Amount(false, i, f, b), p5)) else None
  }

  // UF -> N D1 DOT N D2 END, from the second N on
  function Behind(t: Text, i: nat, p1: nat, p3: nat): (r: Parse<Amount>)
    requires p1 <= |t| && p3 <= |t|
    ensures r.Some? ==> r.value.1 == |t| && r.value.0.base > 0 && !r.value.0.negative
  {
    match N(t, p3)
    case None => Tail(t, i, p1)
    case Some((f, p4)) => WithBase(t, i, f, p4)
  }

  // UF after its first N
  function After(t: Text, i: nat, p1: nat): (r: Parse<Amount>)
    requires p1 <= |t|
    ensures r.Some? ==> r.value.1 == |t| && r.value.0.base > 0 && !r.value.0.negative
  {
    match D1(t, p1)
    case None => Tail(t, i, p1)
    case Some(p2) =>
      match DOT(t, p2)
      case None => if END(t, p2) then Some((Whole(i), p2)) else None
      case Some(p3) => Behind(t, i, p1, p3)
  }

  function UF(t: Text, p: nat): (r: Parse<Amount>)
    requires p <= |t|
    ensures r.Some? ==> r.value.1 == |t| && r.value.0.base > 0 && !r.value.0.negative
  {
    match N(t, p)
    case None => None
    case Some((i, p1)) => After(t, i, p1)
  }

  function SF(t: Text): (r: Parse<Amount>)
    ensures r.Some? ==> r.value.1 == |t| && r.value.0.base > 0
  {
    if |t| < 1 then None else
    match UF(t, if t[0].Sign? then 1 else 0)
    case None => None
    case Some((v, p)) => Some((v.(negative := t[0] == Sign(true)), p))
  }

  // A text without numerals is left to the decimal reader of LongFloat.
  datatype Outcome = Parsed(value: Amount) | AsDecimal(text: Text) | NotANumber

  function ParseNumber(t: Text): Outcome {
    var normalized := NormalizeFrom(t, 0, []);
    var input := DeleteFrom(normalized, SkipSpaces(normalized, 0));
    if NoNumerals(input) then AsDecimal(input)
    else
      match SF(input)
      case Some((v, _)) => Parsed(v)
      case None => NotANumber
  }
}
