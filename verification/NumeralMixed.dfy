// Parsing numerals that NumberToString does not print: words in other forms, and digits in front of base words.
module NumeralMixed {
  import opened Bytes
  import opened NumeralText
  import opened NumeralGrammar
  import opened NumeralRoundTrip
  import NumeralPrinter

  // ---- other forms ----

  function Formless(w: Word): Word {
    if w.And? then w else w.(form := 0)
  }

  // The same word in any two forms of the tables; the forms of twenty are told apart.
  predicate SameWord(a: Word, b: Word) {
    a == b || (a.Known() && !(a.Decade? && a.d == 2) && Formless(a) == Formless(b))
  }

  // A numeral means the same in all forms of its words.
  lemma FormsIgnored(ws: seq<Word>, vs: seq<Word>)
    requires NoSigns(ws) && NoSigns(vs)
    requires |ws| == |vs| && forall i :: 0 <= i < |ws| ==> SameWord(ws[i], vs[i])
    ensures ParseNumber(Join(ws)) == ParseNumber(Join(vs))
  {
    hide Join;
    hide Mains;
    hide NormalizeFrom;
    forall i | 0 <= i < |ws|
      ensures Mains(ws)[i] == Mains(vs)[i]
    {
      SameMain(ws[i], vs[i]);
    }
    assert Mains(ws) == Mains(vs);
    Normalized(ws);
    Normalized(vs);
  }

  lemma SameMain(a: Word, b: Word)
    requires SameWord(a, b) && !a.SignWord? && !b.SignWord?
    ensures Main(a) == Main(b)
  {
  }

  lemma Normalized(ws: seq<Word>)
    requires NoSigns(ws)
    ensures NormalizeFrom(Join(ws), 0, []) == Join(Mains(ws))
  {
    hide Join;
    hide Mains;
    hide NormalizeFrom;
    assert Join(ws)[0..] == Join(ws);
    NothingJoined();
    NormalizeAt(Join(ws), 0, ws, []);
    assert [] + Mains(ws) == Mains(ws);
  }

  // ---- digits and a base ----

  function Figures(ds: seq<digit>): (t: Text)
    ensures |t| == |ds| && forall i :: 0 <= i < |t| ==> t[i] == Digit(ds[i])
  {
    seq(|ds|, i requires 0 <= i < |ds| => Digit(ds[i]))
  }

  // Digits, a base word, and digits behind it or nothing: "12 thousand 5".
  function Mixed(ds: seq<digit>, b: nat, form: nat, tail: seq<digit>): (t: Text)
    ensures |t| == |ds| + 2 + if tail == [] then 0 else 1 + |tail|
  {
    Figures(ds) + [Space, Word(Base(b, form))] + if tail == [] then [] else [Space] + Figures(tail)
  }

  lemma MixedAt(ds: seq<digit>, b: nat, form: nat, tail: seq<digit>)
    ensures var t, n := Mixed(ds, b, form, tail), |ds|;
      && (forall i :: 0 <= i < n ==> t[i] == Digit(ds[i]))
      && t[n] == Space && t[n + 1] == Word(Base(b, form))
      && (tail != [] ==> |t| == n + 3 + |tail| && t[n + 2] == Space)
      && (tail == [] ==> |t| == n + 2)
      && (forall i :: n + 3 <= i < |t| ==> t[i] == Digit(tail[i - n - 3]))
  {
  }

  lemma {:induction false} WordEndIs(t: Text, p: nat, q: nat)
    requires p <= q <= |t| && (forall i :: p <= i < q ==> t[i] != Space) && (q == |t| || t[q] == Space)
    ensures WordEnd(t, p) == q
    decreases q - p
  {
    if p < q {
      WordEndIs(t, p + 1, q);
    }
  }

  lemma {:induction false} DigitsEndIs(t: Text, p: nat, q: nat)
    requires p <= q <= |t| && (forall i :: p <= i < q ==> t[i].Digit?) && (q == |t| || !t[q].Digit?)
    ensures DigitsEnd(t, p) == q
    decreases q - p
  {
    if p < q {
      DigitsEndIs(t, p + 1, q);
    }
  }

  lemma SkipHere(t: Text, p: nat)
    ensures p < |t| && t[p] != Space ==> SkipSpaces(t, p) == p
    ensures p + 1 < |t| && t[p] == Space && t[p + 1] != Space ==> SkipSpaces(t, p) == p + 1
    ensures p >= |t| ==> SkipSpaces(t, p) == p
  {
  }

  // ---- normalizing ----

  lemma RunCopied(t: Text, p: nat, q: nat, acc: Text)
    requires p < q <= |t| && (forall i :: p <= i < q ==> t[i].Digit?) && (q == |t| || t[q] == Space)
    ensures NormalizeFrom(t, p, acc) == NormalizeFrom(t, q + 1, SpaceBefore(acc) + t[p..q])
  {
    hide NormalizeFrom;
    hide SkipSpaces;
    hide WordEnd;
    SkipHere(t, p);
    WordEndIs(t, p, q);
    NormalizeWord(t, p, acc);
    assert t[p..q][0] == t[p];
  }

  lemma BaseNormal(t: Text, p: nat, b: nat, form: nat, acc: Text)
    requires p < |t| && t[p] == Word(Base(b, form)) && 1 <= b <= 8 && (p + 1 == |t| || t[p + 1] == Space)
    ensures NormalizeFrom(t, p, acc) == NormalizeFrom(t, p + 2, SpaceBefore(acc) + [Word(Base(b, 0))])
  {
    hide NormalizeFrom;
    hide SkipSpaces;
    hide WordEnd;
    SkipHere(t, p);
    WordEndIs(t, p, p + 1);
    NormalizeWord(t, p, acc);
    assert t[p..p + 1] == [t[p]];
  }

  lemma MixedNormal(ds: seq<digit>, b: nat, form: nat, tail: seq<digit>)
    requires ds != [] && 1 <= b <= 8
    ensures NormalizeFrom(Mixed(ds, b, form, tail), 0, []) == Mixed(ds, b, 0, tail)
  {
    hide NormalizeFrom;
    hide SpaceBefore;
    var t, n := Mixed(ds, b, form, tail), |ds|;
    MixedAt(ds, b, form, tail);
    hide Mixed;
    RunCopied(t, 0, n, []);
    FirstRun(t[0..n], ds);
    BaseNormal(t, n + 1, b, form, Figures(ds));
    var acc := SpaceBefore(Figures(ds)) + [Word(Base(b, 0))];
    if tail == [] {
      NormalizeEnd(t, n + 3, acc);
    } else {
      RunCopied(t, n + 3, |t|, acc);
      assert t[n + 3..|t|] == Figures(tail);
      NormalizeEnd(t, |t| + 1, SpaceBefore(acc) + Figures(tail));
    }
    MixedParts(ds, b, tail);
  }

  lemma FirstRun(run: Text, ds: seq<digit>)
    requires |run| == |ds| && forall i :: 0 <= i < |ds| ==> run[i] == Digit(ds[i])
    ensures SpaceBefore([]) + run == Figures(ds)
  {
  }

  lemma MixedParts(ds: seq<digit>, b: nat, tail: seq<digit>)
    requires ds != []
    ensures var acc := SpaceBefore(Figures(ds)) + [Word(Base(b, 0))];
      Mixed(ds, b, 0, tail) == if tail == [] then acc else SpaceBefore(acc) + Figures(tail)
  {
  }

  lemma MixedKept(ds: seq<digit>, b: nat, tail: seq<digit>)
    requires ds != []
    ensures var t := Mixed(ds, b, 0, tail); DeleteFrom(t, SkipSpaces(t, 0)) == t && !NoNumerals(t)
  {
    hide DeleteFrom;
    var t, n := Mixed(ds, b, 0, tail), |ds|;
    MixedAt(ds, b, 0, tail);
    hide Mixed;
    SkipHere(t, 0);
    forall i | 0 <= i < |t| ensures Kept(t, i) {
      if i == n + 2 {
        assert t[i + 1].Digit? && t[i - 1].Word?;
      }
    }
    AllKept(t, 0);
    assert t[0..] == t;
    assert t[n + 1].Word?;
  }

  // ---- the grammar ----

  lemma NoEntry(t: Text, p: nat)
    requires p < |t| && t[p].Digit?
    ensures S(t, p).None?
  {
    SkipHere(t, p);
    hide SkipSpaces;
    var run := t[p..WordEnd(t, p)];
    assert run != [] && run[0] == t[p];
    hide WordEnd;
  }

  lemma FiguresRead(t: Text, p: nat, q: nat, ds: seq<digit>)
    requires p < q <= |t| && q - p == |ds| && (q == |t| || !t[q].Digit?)
    requires forall i :: p <= i < q ==> t[i] == Digit(ds[i - p])
    ensures KK(t, p) == Some((Value(ds), q)) && NN(t, p) == Some((Value(ds), q))
    ensures SkipSpaces(t, p) == p && S(t, p).None?
  {
    hide Value;
    hide S;
    SkipHere(t, p);
    DigitsEndIs(t, p, q);
    NoEntry(t, p);
    assert DigitsAt(t, p, q) == ds;
  }

  lemma NoMore(t: Text)
    ensures T(t, |t|).None? && R(t, |t|).None?
  {
    SkipHere(t, |t|);
  }

  lemma BaseRead(t: Text, p: nat, b: nat)
    requires p + 1 < |t| && t[p] == Space && t[p + 1] == Word(Base(b, 0)) && 1 <= b <= 8
    requires p + 2 == |t| || t[p + 2] == Space
    ensures R(t, p) == Some((Pow1000(b), if p + 2 < |t| then p + 3 else |t|))
  {
    hide Pow1000;
    SkipHere(t, p);
    WordEndIs(t, p + 1, p + 2);
    assert t[p + 1..p + 2] == [Word(Base(b, 0))];
  }

  // The multiplier form takes the whole text, or nothing when a number is not below its base.
  lemma TMixed(ds: seq<digit>, b: nat, tail: seq<digit>)
    requires ds != [] && 1 <= b <= 8
    ensures var t, r := Mixed(ds, b, 0, tail), Pow1000(b);
      if Value(ds) < r && Value(tail) < r
      then T(t, 0).Some? && T(t, 0).value.0.Val() == Value(ds) * r + Value(tail) && T(t, 0).value.1 == |t|
      else T(t, 0).None?
  {
    hide Pow1000;
    hide Value;
    hide S;
    hide KK;
    hide R;
    hide NN;
    var t, n := Mixed(ds, b, 0, tail), |ds|;
    MixedAt(ds, b, 0, tail);
    hide Mixed;
    FiguresRead(t, 0, n, ds);
    BaseRead(t, n, b);
    if tail == [] {
      NoMore(t);
      NoValue();
      TAtFigures(t, Value(ds), n, Pow1000(b), |t|);
    } else {
      FiguresRead(t, n + 3, |t|, tail);
      NoMore(t);
      TFigures(t, n + 3, Value(tail));
      TAtFigures(t, Value(ds), n, Pow1000(b), n + 3);
    }
  }

  lemma NoValue()
    ensures Value([]) == 0
  {
  }

  lemma TFigures(t: Text, p: nat, v: nat)
    requires p <= |t| && SkipSpaces(t, p) == p && KK(t, p) == Some((v, |t|)) && NN(t, p) == Some((v, |t|))
    requires R(t, |t|).None?
    ensures T(t, p) == Some((Plain(v), |t|))
  {
    hide KK;
    hide NN;
    hide R;
  }

  lemma TAtFigures(t: Text, kk: nat, p1: nat, r: nat, p2: nat)
    requires p1 <= |t| && p2 <= |t| && SkipSpaces(t, 0) == 0
    requires KK(t, 0) == Some((kk, p1)) && R(t, p1) == Some((r, p2))
    ensures T(t, 0) ==
      if kk >= r then None
      else match T(t, p2)
        case None => Some((KR(kk, r), p2))
        case Some((x, p3)) => if r > x.Val() then Some((KRT(kk, r, x), p3)) else None
  {
    hide KK;
    hide NN;
    hide R;
  }

  // Without a word for a fraction there is no base of one.
  lemma NoFraction(t: Text, p: nat)
    requires p <= |t| && forall i :: 0 <= i < |t| ==> !(t[i].Word? && t[i].w.Fraction?)
    ensures D2(t, p).None?
  {
    hide SkipSpaces;
    hide WordEnd;
    var pos := SkipSpaces(t, p);
    var run := t[pos..WordEnd(t, pos)];
    assert run != [] ==> run[0] == t[pos];
  }

  lemma FirstFigures(t: Text, n: nat)
    requires 0 < n < |t| && (forall i :: 0 <= i < n ==> t[i].Digit?) && !t[n].Digit?
    ensures K(t, 0).Some? && K(t, 0).value.1 <= n
  {
    SkipHere(t, 0);
    DigitsEndIs(t, 0, n);
  }

  lemma NothingOptional(t: Text, p: nat, w: Word)
    requires p < |t| && forall i :: 0 <= i < |t| ==> t[i] != Word(w)
    ensures Optional(t, p, w) == Some(p)
  {
    hide SkipSpaces;
  }

  lemma MixedRefused(ds: seq<digit>, b: nat, tail: seq<digit>)
    requires ds != [] && T(Mixed(ds, b, 0, tail), 0).None?
    ensures UF(Mixed(ds, b, 0, tail), 0).None?
  {
    hide T;
    hide K;
    hide D2;
    hide N;
    hide Optional;
    var t, n := Mixed(ds, b, 0, tail), |ds|;
    MixedAt(ds, b, 0, tail);
    hide Mixed;
    FirstFigures(t, n);
    var p := K(t, 0).value.1;
    NFirst(t);
    NothingOptional(t, p, Integral(0));
    NothingOptional(t, p, And);
    NoFraction(t, p);
    if N(t, p).Some? {
      NoFraction(t, N(t, p).value.1);
    }
  }

  lemma NFirst(t: Text)
    requires T(t, 0).None? && K(t, 0).Some?
    ensures N(t, 0) == K(t, 0)
  {
    hide T;
    hide K;
  }

  lemma MixedTaken(t: Text, x: Multiple)
    requires T(t, 0) == Some((x, |t|)) && |t| > 0
    ensures UF(t, 0) == Some((Whole(x.Val()), |t|))
  {
    hide T;
    SkipHere(t, |t|);
    assert K3(t, |t|).None?;
  }

  // Digits in front of a base word, and behind it, are parsed as the number they stand for if both are below
  // the base, and refused otherwise.
  lemma MixedExactly(ds: seq<digit>, b: nat, form: nat, tail: seq<digit>)
    requires ds != [] && 1 <= b <= 8
    ensures ParseNumber(Mixed(ds, b, form, tail)) ==
      var r := Pow1000(b);
      if Value(ds) < r && Value(tail) < r then Parsed(Whole(Value(ds) * r + Value(tail))) else NotANumber
  {
    hide Pow1000;
    hide Value;
    hide T;
    hide NormalizeFrom;
    hide DeleteFrom;
    hide NoNumerals;
    hide SkipSpaces;
    hide UF;
    MixedNormal(ds, b, form, tail);
    MixedKept(ds, b, tail);
    TMixed(ds, b, tail);
    var t := Mixed(ds, b, 0, tail);
    MixedAt(ds, b, 0, tail);
    hide Mixed;
    if T(t, 0).Some? {
      MixedTaken(t, T(t, 0).value.0);
    } else {
      MixedRefused(ds, b, tail);
    }
  }

  // ---- a part alone ----

  // N takes nothing from a word that is no number.
  lemma NStops(t: Text, p: nat, ws: seq<Word>)
    requires At(t, p, ws) && ws != [] && (ws[0].Fraction? || ws[0].Integral?)
    ensures N(t, p).None?
  {
    AtSkip(t, p, ws);
    NoDigits(t, p, ws);
    SNone(t, p, ws);
    RNone(t, p, ws);
  }

  lemma NStopsNear(t: Text, p: nat, ws: seq<Word>)
    requires Near(t, p, ws) && ws != [] && (ws[0].Fraction? || ws[0].Integral?)
    ensures N(t, p).None?
  {
    var q := SkipSpaces(t, p);
    SkipTwice(t, p);
    TSkips(t, p);
    KSkips(t, p);
    NSkips(t, p, q);
    NStops(t, q, ws);
  }

  lemma OtherOptional(t: Text, p: nat, w: Word, ws: seq<Word>)
    requires Near(t, p, ws) && ws != [] && ws[0] != w
    ensures Optional(t, p, w) == Some(p)
  {
    var q := SkipSpaces(t, p);
    AtHead(t, q, ws);
    assert p < |t| by {
      if p >= |t| {
        SkipHere(t, p);
        assert false;
      }
    }
  }

  lemma UFFraction(t: Text, ds: seq<digit>, k: nat)
    requires 1 <= |ds| <= 27 && 1 <= k <= 11 && Near(t, 0, MainWords(ds) + [Fraction(k, 0)])
    ensures UF(t, 0) == Some((Amount(false, 0, Value(ds), Pow10(k)), |t|))
  {
    hide N;
    hide Optional;
    hide D2;
    hide Value;
    hide Pow10;
    var z := [Fraction(k, 0)];
    var p1 := NAt(t, 0, ds, z);
    OtherOptional(t, p1, Integral(0), z);
    OtherOptional(t, p1, And, z);
    NStopsNear(t, p1, z);
    D2At(t, p1, k);
  }

  lemma UFIntegral(t: Text, ds: seq<digit>)
    requires 1 <= |ds| <= 27 && Near(t, 0, MainWords(ds) + [Integral(0)])
    ensures UF(t, 0) == Some((Whole(Value(ds)), |t|))
  {
    hide N;
    hide D2;
    hide Value;
    hide Optional;
    hide MainWords;
    hide At;
    var z := [Integral(0)];
    var p1 := NAt(t, 0, ds, z);
    assert z == [Integral(0)] + [];
    var p2 := OptionalAt(t, p1, Integral(0), []);
    NoOptional(t, And);
  }

  lemma NoOptional(t: Text, w: Word)
    ensures Optional(t, |t|, w) == None
  {
  }

  lemma PartWords(ds: seq<digit>, w: Word) returns (ws: seq<Word>)
    requires 1 <= |ds| <= 27 && !w.SignWord?
    ensures ws == NumeralPrinter.IntegralWords(ds, true) + [w]
    ensures NoSigns(ws) && Mains(ws) == MainWords(ds) + [Main(w)] && ws != []
  {
    IntegralMains(ds, true);
    ws := NumeralPrinter.IntegralWords(ds, true) + [w];
    ConcatMains(NumeralPrinter.IntegralWords(ds, true), [w]);
    assert Mains([w]) == [Main(w)];
  }

  // A printed part with the word for a fraction behind it, in any form, is that fraction, and with the word for
  // the integral part that whole number.
  lemma PartAlone(ds: seq<digit>, k: nat, form: nat)
    requires 1 <= |ds| <= 27 && 1 <= k <= 11
    ensures ParseNumber(Join(NumeralPrinter.IntegralWords(ds, true) + [Fraction(k, form)])) ==
      Parsed(Amount(false, 0, Value(ds), Pow10(k)))
    ensures ParseNumber(Join(NumeralPrinter.IntegralWords(ds, true) + [Integral(form)])) == Parsed(Whole(Value(ds)))
  {
    hide Join;
    hide UF;
    hide ParseNumber;
    hide Mains;
    hide MainWords;
    hide NumeralPrinter.IntegralWords;
    var fs := PartWords(ds, Fraction(k, form));
    var f := Join(Mains(fs));
    assert f[0..] == f;
    AtIsNear(f, 0, Mains(fs));
    UFFraction(f, ds, k);
    ParseWords(fs, Amount(false, 0, Value(ds), Pow10(k)));
    var ns := PartWords(ds, Integral(form));
    var i := Join(Mains(ns));
    assert i[0..] == i;
    AtIsNear(i, 0, Mains(ns));
    UFIntegral(i, ds);
    ParseWords(ns, Whole(Value(ds)));
  }
}
