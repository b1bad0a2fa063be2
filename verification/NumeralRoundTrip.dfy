// Parsing a printed numeral gives the number that was printed.
module NumeralRoundTrip {
  import opened Bytes
  import opened NumeralText
  import opened NumeralPrinter
  import opened NumeralGrammar
  import NumeralAgreement

  // ---- positions in a row of words ----

  // The words ws, and nothing else, stand at p.
  predicate At(t: Text, p: nat, ws: seq<Word>) {
    p <= |t| && t[p..] == Join(ws)
  }

  // The position behind the first word and its space.
  function Next(t: Text, p: nat): nat {
    if p + 1 < |t| then p + 2 else |t|
  }

  lemma JoinHead(ws: seq<Word>)
    requires ws != []
    ensures |Join(ws)| >= 1 && Join(ws)[0] == Word(ws[0])
    ensures |ws| == 1 ==> Join(ws) == [Word(ws[0])] && ws[1..] == []
    ensures |ws| > 1 ==> |Join(ws)| > 2 && Join(ws)[1] == Space && Join(ws)[2..] == Join(ws[1..])
  {
    if |ws| > 1 {
      var rest := Join(ws[1..]);
      assert Join(ws) == [Word(ws[0]), Space] + rest;
      assert |rest| >= 1;
    }
  }

  lemma AtHead(t: Text, p: nat, ws: seq<Word>)
    requires At(t, p, ws) && ws != []
    ensures p < |t| && t[p] == Word(ws[0]) && (p + 1 < |t| ==> t[p + 1] == Space)
    ensures p + 1 == |t| <==> ws[1..] == []
    ensures At(t, Next(t, p), ws[1..])
  {
    JoinHead(ws);
    var j := Join(ws);
    assert forall i :: 0 <= i < |j| ==> t[p + i] == j[i];
    assert |t| == p + |j|;
    if |ws| > 1 {
      assert t[p + 2..] == t[p..][2..];
    }
  }

  lemma AtSkip(t: Text, p: nat, ws: seq<Word>)
    requires At(t, p, ws)
    ensures SkipSpaces(t, p) == p
    ensures ws == [] ==> p == |t|
    ensures ws != [] ==> WordEnd(t, p) == p + 1 <= |t| && t[p..p + 1] == [Word(ws[0])]
  {
    if ws != [] {
      AtHead(t, p, ws);
      if p + 1 < |t| {
        assert WordEnd(t, p + 1) == p + 1;
      }
    }
  }

  // The position may still be in front of the space.
  predicate Near(t: Text, p: nat, ws: seq<Word>) {
    p <= |t| && At(t, SkipSpaces(t, p), ws) && (ws == [] ==> p == |t|)
  }

  lemma AtIsNear(t: Text, p: nat, ws: seq<Word>)
    requires At(t, p, ws)
    ensures Near(t, p, ws)
  {
    AtSkip(t, p, ws);
  }

  lemma BehindWord(t: Text, p: nat, ws: seq<Word>)
    requires At(t, p, ws) && ws != []
    ensures Near(t, p + 1, ws[1..])
  {
    AtHead(t, p, ws);
    if p + 1 < |t| {
      AtSkip(t, p + 2, ws[1..]);
      assert SkipSpaces(t, p + 1) == SkipSpaces(t, p + 2);
    }
  }

  // ---- table entries ----

  lemma EntryAt(t: Text, p: nat, ws: seq<Word>, table: Text -> Option<nat>)
    requires At(t, p, ws) && ws != []
    ensures Entry(t, p, table) ==
      if table([Word(ws[0])]).Some? then (table([Word(ws[0])]).value, Next(t, p), true) else (0, p, false)
  {
    AtSkip(t, p, ws);
  }

  lemma EntryEnd(t: Text, p: nat, table: Text -> Option<nat>)
    requires At(t, p, []) && table([]).None?
    ensures Entry(t, p, table) == (0, p, false)
  {
  }

  // The optional word w in front of rest, which does not start with a word of the table.
  lemma Stage(t: Text, p: nat, cond: bool, w: Word, val: nat, rest: seq<Word>, table: Text -> Option<nat>)
    requires At(t, p, When(cond, w) + rest)
    requires table([]).None? && (rest != [] ==> table([Word(rest[0])]).None?)
    requires cond ==> table([Word(w)]) == Some(val)
    ensures var e := Entry(t, p, table);
      e.2 == cond && e.0 == (if cond then val else 0) && At(t, e.1, rest)
  {
    if cond {
      assert ([w] + rest)[1..] == rest;
      EntryAt(t, p, [w] + rest, table);
      AtHead(t, p, [w] + rest);
    } else {
      assert [] + rest == rest;
      if rest == [] {
        EntryEnd(t, p, table);
      } else {
        EntryAt(t, p, rest, table);
      }
    }
  }

  // ---- one group ----

  // The words of a number below a thousand, in their main forms.
  function Small(v: nat): seq<Word> {
    SmallWords(v, false)
  }

  predicate IsSmall(w: Word) {
    w.Hundred? || w.Decade? || w.Unit?
  }

  predicate StopsSmall(rest: seq<Word>) {
    rest == [] || !IsSmall(rest[0])
  }

  lemma SmallSum(v: nat)
    requires v < 1000
    ensures v == 100 * (v / 100) + (if v / 10 % 10 > 1 then 10 * (v / 10 % 10) else 0) + Lead(v)
    ensures v > 0 <==> v / 100 > 0 || v / 10 % 10 > 1 || Lead(v) > 0
  {
    assert v == 100 * (v / 100) + 10 * (v / 10 % 10) + v % 10;
    assert v % 100 == 10 * (v / 10 % 10) + v % 10;
  }

  function HundredPart(v: nat): seq<Word> {
    When(v / 100 > 0, Hundred(v / 100, 0))
  }

  function DecadePart(v: nat): seq<Word> {
    When(v / 10 % 10 > 1, Decade(v / 10 % 10, 0))
  }

  function UnitPart(v: nat): seq<Word> {
    When(Lead(v) > 0, Unit(Lead(v), 0))
  }

  lemma SmallSplit(v: nat, rest: seq<Word>)
    ensures Small(v) + rest == HundredPart(v) + (DecadePart(v) + (UnitPart(v) + rest))
  {
  }

  lemma HundredStage(t: Text, p: nat, v: nat, rest: seq<Word>)
    requires v < 1000 && At(t, p, HundredPart(v) + (DecadePart(v) + (UnitPart(v) + rest))) && StopsSmall(rest)
    ensures var h := Entry(t, p, HundredOf);
      h.2 == (v / 100 > 0) && h.0 == 100 * (v / 100) && At(t, h.1, DecadePart(v) + (UnitPart(v) + rest))
  {
    Stage(t, p, v / 100 > 0, Hundred(v / 100, 0), 100 * (v / 100), DecadePart(v) + (UnitPart(v) + rest), HundredOf);
  }

  lemma DecadeStage(t: Text, p: nat, v: nat, rest: seq<Word>)
    requires At(t, p, DecadePart(v) + (UnitPart(v) + rest)) && StopsSmall(rest)
    ensures var d := Entry(t, p, DecadeOf);
      d.2 == (v / 10 % 10 > 1) && d.0 == (if d.2 then 10 * (v / 10 % 10) else 0) && At(t, d.1, UnitPart(v) + rest)
  {
    Stage(t, p, v / 10 % 10 > 1, Decade(v / 10 % 10, 0), 10 * (v / 10 % 10), UnitPart(v) + rest, DecadeOf);
  }

  lemma UnitStage(t: Text, p: nat, v: nat, rest: seq<Word>)
    requires At(t, p, UnitPart(v) + rest) && StopsSmall(rest)
    ensures var u := Entry(t, p, UnitOf);
      u.2 == (Lead(v) > 0) && u.0 == Lead(v) && At(t, u.1, rest)
  {
    Stage(t, p, Lead(v) > 0, Unit(Lead(v), 0), Lead(v), rest, UnitOf);
  }

  lemma SAt(t: Text, p: nat, v: nat, rest: seq<Word>)
    requires 0 < v < 1000 && At(t, p, Small(v) + rest) && StopsSmall(rest)
    ensures S(t, p).Some? && S(t, p).value.0 == v && At(t, S(t, p).value.1, rest)
  {
    SmallSplit(v, rest);
    AtSkip(t, p, Small(v) + rest);
    HundredStage(t, p, v, rest);
    var h := Entry(t, p, HundredOf);
    DecadeStage(t, h.1, v, rest);
    var d := Entry(t, h.1, DecadeOf);
    UnitStage(t, d.1, v, rest);
    SmallSum(v);
  }

  // Nine hundred, ninety and nineteen in a row are read as 1009.
  lemma OverThousand()
    ensures S(Join([Hundred(9, 0), Decade(9, 0), Unit(19, 0)]), 0).Some?
    ensures S(Join([Hundred(9, 0), Decade(9, 0), Unit(19, 0)]), 0).value.0 == 1009
  {
    hide Join;
    var h, d, u := [Hundred(9, 0)], [Decade(9, 0)], [Unit(19, 0)];
    var t := Join(h + (d + u));
    assert h + (d + u) == [Hundred(9, 0), Decade(9, 0), Unit(19, 0)];
    assert t[0..] == t;
    AtSkip(t, 0, h + (d + u));
    Stage(t, 0, true, h[0], 900, d + u, HundredOf);
    var p1 := Entry(t, 0, HundredOf).1;
    Stage(t, p1, true, d[0], 90, u, DecadeOf);
    assert u + [] == u;
    Stage(t, Entry(t, p1, DecadeOf).1, true, u[0], 19, [], UnitOf);
    JoinHead(h + (d + u));
  }

  lemma SNone(t: Text, p: nat, rest: seq<Word>)
    requires At(t, p, rest) && StopsSmall(rest)
    ensures S(t, p).None?
  {
    AtSkip(t, p, rest);
    if rest != [] {
      EntryAt(t, p, rest, HundredOf);
      EntryAt(t, p, rest, DecadeOf);
      EntryAt(t, p, rest, UnitOf);
    }
  }

  // Words are no digits.
  lemma NoDigits(t: Text, p: nat, ws: seq<Word>)
    requires At(t, p, ws)
    ensures NN(t, p).None? && D(t, p).None? && D3(t, p).None?
  {
    AtSkip(t, p, ws);
    if ws != [] {
      AtHead(t, p, ws);
    }
  }

  lemma RAt(t: Text, p: nat, b: nat, rest: seq<Word>)
    requires 1 <= b <= 8 && At(t, p, [Base(b, 0)] + rest)
    ensures R(t, p).Some? && R(t, p).value.0 == Pow1000(b) && At(t, R(t, p).value.1, rest)
  {
    var ws := [Base(b, 0)] + rest;
    assert ws[1..] == rest;
    AtHead(t, p, ws);
    AtSkip(t, p, ws);
    EntryAt(t, p, ws, BaseOf);
  }

  lemma RNone(t: Text, p: nat, ws: seq<Word>)
    requires At(t, p, ws) && (ws == [] || !ws[0].Base?)
    ensures R(t, p).None?
  {
    AtSkip(t, p, ws);
    if ws != [] {
      EntryAt(t, p, ws, BaseOf);
    }
  }

  // ---- groups with their bases ----

  // The words of the groups in their main forms.
  function MainGroups(vs: seq<nat>): seq<Word> {
    if vs == [] then [] else Small(vs[0]) + When(vs[0] > 0 && |vs| > 1, Base(|vs| - 1, 0)) + MainGroups(vs[1..])
  }

  // The value of all groups but the last.
  function High(vs: seq<nat>): nat
    requires vs != []
  {
    if |vs| == 1 then 0 else vs[0] * Pow1000(|vs| - 1) + High(vs[1..])
  }

  lemma {:induction false} HighTotal(vs: seq<nat>)
    requires vs != []
    ensures Total(vs) == High(vs) + vs[|vs| - 1]
  {
    if |vs| == 1 {
      assert vs[1..] == [];
    } else {
      HighTotal(vs[1..]);
    }
  }

  predicate Stops(rest: seq<Word>) {
    StopsSmall(rest) && (rest == [] || !rest[0].Base?)
  }

  lemma EmptySmall()
    ensures Small(0) == []
  {
  }

  lemma LastGroup(v: nat, rest: seq<Word>)
    ensures MainGroups([v]) + rest == Small(v) + rest
  {
    assert [v][1..] == [] && Small(v) + [] + [] == Small(v);
  }

  // Without a base word the multiplier form does not apply.
  lemma TNone(t: Text, p: nat, v: nat, rest: seq<Word>)
    requires v < 1000 && At(t, p, Small(v) + rest) && Stops(rest)
    ensures T(t, p).None?
  {
    AtSkip(t, p, Small(v) + rest);
    NoDigits(t, p, Small(v) + rest);
    if v == 0 {
      EmptySmall();
      assert [] + rest == rest;
      SNone(t, p, rest);
      RNone(t, p, rest);
    } else {
      SAt(t, p, v, rest);
      RNone(t, S(t, p).value.1, rest);
    }
  }

  // A group above the last one: its words, its base and what follows.
  lemma THead(t: Text, p: nat, v: nat, b: nat, rest: seq<Word>)
    requires 0 < v < 1000 && 1 <= b <= 8 && At(t, p, Small(v) + ([Base(b, 0)] + rest))
    ensures SkipSpaces(t, p) == p && KK(t, p).Some? && KK(t, p).value.0 == v
    ensures var r := R(t, KK(t, p).value.1);
      r.Some? && r.value.0 == Pow1000(b) && At(t, r.value.1, rest)
  {
    AtSkip(t, p, Small(v) + ([Base(b, 0)] + rest));
    SAt(t, p, v, [Base(b, 0)] + rest);
    RAt(t, S(t, p).value.1, b, rest);
  }

  lemma Reassociated(a: seq<Word>, b: seq<Word>, c: seq<Word>, d: seq<Word>)
    ensures a + b + c + d == a + (b + (c + d))
  {
  }

  lemma HeadWords(vs: seq<nat>, rest: seq<Word>)
    requires |vs| > 1
    ensures vs[0] > 0 ==> MainGroups(vs) + rest == Small(vs[0]) + ([Base(|vs| - 1, 0)] + (MainGroups(vs[1..]) + rest))
    ensures vs[0] == 0 ==> MainGroups(vs) + rest == MainGroups(vs[1..]) + rest
  {
    hide Small;
    var tail := MainGroups(vs[1..]);
    if vs[0] == 0 {
      EmptySmall();
      assert [] + [] + tail == tail;
    } else {
      var b := [Base(|vs| - 1, 0)];
      assert MainGroups(vs) == Small(vs[0]) + b + tail;
      Reassociated(Small(vs[0]), b, tail, rest);
    }
  }

  lemma BasePower(b: nat)
    requires b >= 1
    ensures Pow1000(b) >= 1000
  {
    assert Pow1000(b) == 1000 * Pow1000(b - 1);
  }

  lemma {:induction false} HighBound(vs: seq<nat>)
    requires vs != [] && AllGroups(vs)
    ensures High(vs) < Pow1000(|vs|)
  {
    HighTotal(vs);
    TotalBound(vs);
  }

  // What T returns for the groups vs.
  predicate TReads(t: Text, p: nat, vs: seq<nat>, rest: seq<Word>)
    requires p <= |t| && vs != []
  {
    if High(vs) == 0 then T(t, p).None?
    else T(t, p).Some? && T(t, p).value.0.Val() == High(vs) && At(t, T(t, p).value.1, Small(vs[|vs| - 1]) + rest)
  }

  lemma TMultiplier(t: Text, p: nat, kk: nat, p1: nat, r: nat, p2: nat)
    requires p <= |t| && p1 <= |t| && p2 <= |t| && kk < r
    requires SkipSpaces(t, p) == p && KK(t, p) == Some((kk, p1)) && R(t, p1) == Some((r, p2))
    ensures T(t, p2).None? ==> T(t, p) == Some((KR(kk, r), p2))
    ensures T(t, p2).Some? && T(t, p2).value.0.Val() < r ==>
      T(t, p) == Some((KRT(kk, r, T(t, p2).value.0), T(t, p2).value.1))
  {
  }

  lemma TStep(t: Text, p: nat, vs: seq<nat>, rest: seq<Word>, p1: nat, p2: nat)
    requires |vs| > 1 && AllGroups(vs) && vs[0] > 0 && p <= |t| && p1 <= |t| && p2 <= |t|
    requires SkipSpaces(t, p) == p && KK(t, p) == Some((vs[0], p1))
    requires R(t, p1) == Some((Pow1000(|vs| - 1), p2))
    requires TReads(t, p2, vs[1..], rest) && (High(vs[1..]) == 0 ==> At(t, p2, Small(vs[|vs| - 1]) + rest))
    ensures TReads(t, p, vs, rest)
  {
    BasePower(|vs| - 1);
    HighBound(vs[1..]);
    MulMonotone(1, vs[0], Pow1000(|vs| - 1));
    TMultiplier(t, p, vs[0], p1, Pow1000(|vs| - 1), p2);
  }

  lemma {:induction false} SmallLeft(vs: seq<nat>, rest: seq<Word>)
    requires vs != [] && High(vs) == 0
    ensures MainGroups(vs) + rest == Small(vs[|vs| - 1]) + rest
  {
    hide MainGroups;
    hide Small;
    if |vs| == 1 {
      LastGroup(vs[0], rest);
      assert vs == [vs[0]];
    } else {
      if vs[0] > 0 {
        MulMonotone(1, vs[0], Pow1000(|vs| - 1));
      }
      HeadWords(vs, rest);
      SmallLeft(vs[1..], rest);
    }
  }

  lemma NoHigh(vs: seq<nat>)
    requires |vs| == 1
    ensures High(vs) == 0
  {
  }

  lemma TLast(t: Text, p: nat, vs: seq<nat>, rest: seq<Word>)
    requires p <= |t| && |vs| == 1 && T(t, p).None?
    ensures TReads(t, p, vs, rest)
  {
    hide T;
  }

  lemma TZero(t: Text, p: nat, vs: seq<nat>, rest: seq<Word>)
    requires p <= |t| && |vs| > 1 && vs[0] == 0 && TReads(t, p, vs[1..], rest)
    ensures TReads(t, p, vs, rest)
  {
    hide T;
    hide At;
  }

  lemma {:induction false} TAt(t: Text, p: nat, vs: seq<nat>, rest: seq<Word>)
    requires 1 <= |vs| <= 9 && AllGroups(vs) && At(t, p, MainGroups(vs) + rest) && Stops(rest)
    ensures TReads(t, p, vs, rest)
    decreases |vs|
  {
    hide MainGroups;
    hide Small;
    hide KK;
    hide R;
    hide T;
    hide High;
    hide TReads;
    HeadsOf(vs);
    if |vs| == 1 {
      NoHigh(vs);
      SmallLeft(vs, rest);
      TNone(t, p, vs[0], rest);
      TLast(t, p, vs, rest);
    } else if vs[0] == 0 {
      HeadWords(vs, rest);
      TAt(t, p, vs[1..], rest);
      TZero(t, p, vs, rest);
    } else {
      HeadWords(vs, rest);
      THead(t, p, vs[0], |vs| - 1, MainGroups(vs[1..]) + rest);
      var p1 := KK(t, p).value.1;
      var p2 := R(t, p1).value.1;
      TAt(t, p2, vs[1..], rest);
      if High(vs[1..]) == 0 {
        SmallLeft(vs[1..], rest);
      }
      TStep(t, p, vs, rest, p1, p2);
    }
  }

  lemma HeadsOf(vs: seq<nat>)
    requires vs != [] && AllGroups(vs)
    ensures vs[0] < 1000 && AllGroups(vs[1..])
    ensures |vs| > 1 ==> vs[1..][|vs| - 2] == vs[|vs| - 1] < 1000
  {
  }

  // ---- an unsigned integer ----

  // The words of a digit string in their main forms.
  function MainWords(ds: seq<digit>): seq<Word>
    requires ds != []
  {
    if Value(ds) == 0 then [Zero(0)] else MainGroups(Groups(ds))
  }

  lemma {:induction false} SkipTwice(t: Text, p: nat)
    ensures SkipSpaces(t, SkipSpaces(t, p)) == SkipSpaces(t, p)
  {
  }

  // T, K and Z skip spaces first.
  lemma TSkips(t: Text, p: nat)
    requires p <= |t|
    ensures T(t, p) == T(t, SkipSpaces(t, p))
  {
    hide KK;
    hide R;
    hide NN;
    hide SkipSpaces;
    SkipTwice(t, p);
  }

  lemma KSkips(t: Text, p: nat)
    requires p <= |t|
    ensures K(t, p) == K(t, SkipSpaces(t, p)) && (Z(t, p) <==> Z(t, SkipSpaces(t, p)))
  {
    SkipTwice(t, p);
  }

  lemma NSkips(t: Text, p: nat, q: nat)
    requires p <= |t| && q <= |t| && T(t, p) == T(t, q) && K(t, p) == K(t, q) && (Z(t, p) <==> Z(t, q))
    requires SkipSpaces(t, p) == SkipSpaces(t, q)
    ensures N(t, p) == N(t, q)
  {
    hide T;
    hide K;
    hide Z;
    hide SkipSpaces;
  }

  lemma NZero(t: Text, p: nat, rest: seq<Word>)
    requires At(t, p, [Zero(0)] + rest)
    ensures N(t, p).Some? && N(t, p).value.0 == 0 && Near(t, N(t, p).value.1, rest)
  {
    var ws := [Zero(0)] + rest;
    assert ws[1..] == rest;
    AtSkip(t, p, ws);
    SNone(t, p, ws);
    NoDigits(t, p, ws);
    RNone(t, p, ws);
    BehindWord(t, p, ws);
  }

  lemma NSmall(t: Text, p: nat, v: nat, rest: seq<Word>)
    requires 0 < v < 1000 && At(t, p, Small(v) + rest) && T(t, p).None? && Stops(rest)
    ensures N(t, p).Some? && N(t, p).value.0 == v && At(t, N(t, p).value.1, rest)
  {
    AtSkip(t, p, Small(v) + rest);
    NoDigits(t, p, Small(v) + rest);
    SAt(t, p, v, rest);
  }

  lemma NLarge(t: Text, p: nat, x: Multiple, p1: nat, v: nat, rest: seq<Word>)
    requires p <= |t| && T(t, p) == Some((x, p1)) && v < 1000
    requires At(t, p1, Small(v) + rest) && Stops(rest)
    ensures N(t, p).Some? && N(t, p).value.0 == x.Val() + v && At(t, N(t, p).value.1, rest)
  {
    AtSkip(t, p1, Small(v) + rest);
    NoDigits(t, p1, Small(v) + rest);
    if v == 0 {
      EmptySmall();
      assert [] + rest == rest;
      SNone(t, p1, rest);
    } else {
      SAt(t, p1, v, rest);
    }
  }

  lemma NGroups(t: Text, p: nat, vs: seq<nat>, rest: seq<Word>)
    requires 1 <= |vs| <= 9 && AllGroups(vs) && Total(vs) > 0
    requires At(t, p, MainGroups(vs) + rest) && Stops(rest)
    ensures N(t, p).Some? && N(t, p).value.0 == Total(vs) && At(t, N(t, p).value.1, rest)
  {
    TAt(t, p, vs, rest);
    HighTotal(vs);
    if High(vs) == 0 {
      SmallLeft(vs, rest);
      NSmall(t, p, vs[|vs| - 1], rest);
    } else {
      NLarge(t, p, T(t, p).value.0, T(t, p).value.1, vs[|vs| - 1], rest);
    }
  }

  // N reads back the words of any digit string the tables have bases for.
  lemma NAt(t: Text, p: nat, ds: seq<digit>, rest: seq<Word>) returns (p1: nat)
    requires 1 <= |ds| <= MAX_INTEGRAL_DIGITS && Near(t, p, MainWords(ds) + rest) && Stops(rest)
    ensures N(t, p) == Some((Value(ds), p1)) && Near(t, p1, rest)
  {
    var q := SkipSpaces(t, p);
    SkipTwice(t, p);
    TSkips(t, p);
    KSkips(t, p);
    NSkips(t, p, q);
    if Value(ds) == 0 {
      NZero(t, q, rest);
    } else {
      GroupsCount(ds);
      GroupsTotal(ds);
      NGroups(t, q, Groups(ds), rest);
      AtIsNear(t, N(t, q).value.1, rest);
    }
    p1 := N(t, q).value.1;
  }

  // ---- the whole number ----

  lemma OptionalAt(t: Text, p: nat, w: Word, ws: seq<Word>) returns (p1: nat)
    requires Near(t, p, [w] + ws)
    ensures Optional(t, p, w) == Some(p1) && Near(t, p1, ws)
  {
    var q := SkipSpaces(t, p);
    AtHead(t, q, [w] + ws);
    BehindWord(t, q, [w] + ws);
    assert ([w] + ws)[1..] == ws;
    p1 := q + 1;
  }

  lemma D2At(t: Text, p: nat, f: nat)
    requires 1 <= f <= MAX_FRACTIONAL_DIGITS && Near(t, p, [Fraction(f, 0)])
    ensures D2(t, p) == Some((Pow10(f), |t|))
  {
    var q := SkipSpaces(t, p);
    AtHead(t, q, [Fraction(f, 0)]);
    AtSkip(t, q, [Fraction(f, 0)]);
  }

  lemma UFInteger(t: Text, p: nat, ds: seq<digit>)
    requires 1 <= |ds| <= MAX_INTEGRAL_DIGITS && Near(t, p, MainWords(ds))
    ensures UF(t, p) == Some((Whole(Value(ds)), |t|))
  {
    assert MainWords(ds) + [] == MainWords(ds);
    var p1 := NAt(t, p, ds, []);
  }

  // The words of a number with a fraction, in their main forms.
  function MainFloat(ids: seq<digit>, fds: seq<digit>): seq<Word>
    requires ids != [] && fds != []
  {
    MainWords(ids) + ([Integral(0)] + ([And] + (MainWords(fds) + [Fraction(|fds|, 0)])))
  }

  lemma WithBaseAt(t: Text, i: nat, f: nat, p4: nat, k: nat)
    requires 1 <= k <= MAX_FRACTIONAL_DIGITS && Near(t, p4, [Fraction(k, 0)])
    ensures WithBase(t, i, f, p4) == Some((Amount(false, i, f, Pow10(k)), |t|))
  {
    D2At(t, p4, k);
  }

  lemma BehindAt(t: Text, i: nat, p1: nat, p3: nat, fds: seq<digit>)
    requires p1 <= |t| && 1 <= |fds| <= MAX_FRACTIONAL_DIGITS && Near(t, p3, MainWords(fds) + [Fraction(|fds|, 0)])
    ensures Behind(t, i, p1, p3) == Some((Amount(false, i, Value(fds), Pow10(|fds|)), |t|))
  {
    var p4 := NAt(t, p3, fds, [Fraction(|fds|, 0)]);
    WithBaseAt(t, i, Value(fds), p4, |fds|);
  }

  lemma AfterAt(t: Text, i: nat, p1: nat, fds: seq<digit>, ws: seq<Word>)
    requires 1 <= |fds| <= MAX_FRACTIONAL_DIGITS && ws == MainWords(fds) + [Fraction(|fds|, 0)]
    requires Near(t, p1, [Integral(0)] + ([And] + ws))
    ensures After(t, i, p1) == Some((Amount(false, i, Value(fds), Pow10(|fds|)), |t|))
  {
    var p2 := OptionalAt(t, p1, Integral(0), [And] + ws);
    var p3 := OptionalAt(t, p2, And, ws);
    BehindAt(t, i, p1, p3, fds);
  }

  lemma UFFloat(t: Text, p: nat, ids: seq<digit>, fds: seq<digit>)
    requires 1 <= |ids| <= MAX_INTEGRAL_DIGITS && 1 <= |fds| <= MAX_FRACTIONAL_DIGITS
    requires Near(t, p, MainFloat(ids, fds))
    ensures UF(t, p) == Some((Amount(false, Value(ids), Value(fds), Pow10(|fds|)), |t|))
  {
    var ws := MainWords(fds) + [Fraction(|fds|, 0)];
    var p1 := NAt(t, p, ids, [Integral(0)] + ([And] + ws));
    AfterAt(t, Value(ids), p1, fds, ws);
  }

  // ---- normalizing what was printed ----

  function Main(w: Word): Word {
    if w.SignWord? then w else NormalForm(w).w
  }

  function Mains(ws: seq<Word>): (r: seq<Word>)
    ensures |r| == |ws| && forall i :: 0 <= i < |ws| ==> r[i] == Main(ws[i])
  {
    if ws == [] then [] else [Main(ws[0])] + Mains(ws[1..])
  }

  lemma MainsConcat(a: seq<Word>, b: seq<Word>)
    ensures Mains(a + b) == Mains(a) + Mains(b)
  {
    hide Mains;
    hide Main;
    var x, y := Mains(a + b), Mains(a) + Mains(b);
    assert |x| == |y| && forall i :: 0 <= i < |x| ==> x[i] == y[i];
  }

  predicate NoSigns(ws: seq<Word>) {
    forall i :: 0 <= i < |ws| ==> !ws[i].SignWord?
  }

  lemma NormalizeStep(t: Text, p: nat, ws: seq<Word>, done: seq<Word>)
    requires At(t, p, ws) && ws != [] && !ws[0].SignWord?
    ensures NormalizeFrom(t, p, Join(done)) == NormalizeFrom(t, p + 2, Join(done + [Main(ws[0])]))
  {
    AtSkip(t, p, ws);
    AtHead(t, p, ws);
    JoinSnoc(done, Main(ws[0]));
  }

  lemma NormalizeEnd(t: Text, p: nat, acc: Text)
    requires p >= |t|
    ensures NormalizeFrom(t, p, acc) == acc
  {
  }

  lemma MainsStep(done: seq<Word>, ws: seq<Word>)
    requires ws != []
    ensures done + [Main(ws[0])] + Mains(ws[1..]) == done + Mains(ws)
  {
    hide Mains;
    hide Main;
    assert Mains(ws) == [Main(ws[0])] + Mains(ws[1..]) by {
      MainsHead(ws);
    }
  }

  lemma MainsHead(ws: seq<Word>)
    requires ws != []
    ensures Mains(ws) == [Main(ws[0])] + Mains(ws[1..])
  {
    hide Main;
  }

  lemma {:induction false} NormalizeAt(t: Text, p: nat, ws: seq<Word>, done: seq<Word>)
    requires At(t, p, ws) && NoSigns(ws)
    ensures NormalizeFrom(t, p, Join(done)) == Join(done + Mains(ws))
    decreases |ws|
  {
    hide NormalizeFrom;
    hide Main;
    hide Join;
    if ws == [] {
      assert done + [] == done;
      AtSkip(t, p, ws);
      NormalizeEnd(t, p, Join(done));
    } else {
      NormalizeStep(t, p, ws, done);
      MainsStep(done, ws);
      AtHead(t, p, ws);
      if p + 1 < |t| {
        NormalizeAt(t, p + 2, ws[1..], done + [Main(ws[0])]);
      } else {
        NormalizeEnd(t, p + 2, Join(done + [Main(ws[0])]));
        assert done + [Main(ws[0])] + [] == done + [Main(ws[0])];
      }
    }
  }

  // Words stand at even positions, single spaces between them.
  lemma {:induction false} JoinShape(ws: seq<Word>)
    ensures |Join(ws)| == if ws == [] then 0 else 2 * |ws| - 1
    ensures forall i :: 0 <= i < |Join(ws)| ==> (Join(ws)[i] == Space <==> i % 2 == 1)
    ensures forall i :: 0 <= i < |Join(ws)| ==> (Join(ws)[i].Word? <==> i % 2 == 0)
  {
    if |ws| > 1 {
      JoinShape(ws[1..]);
      var rest := Join(ws[1..]);
      assert forall i :: 2 <= i < |Join(ws)| ==> Join(ws)[i] == rest[i - 2];
    }
  }

  lemma {:induction false} AllKept(t: Text, n: nat)
    requires n <= |t| && forall i :: n <= i < |t| ==> Kept(t, i)
    ensures DeleteFrom(t, n) == t[n..]
    decreases |t| - n
  {
    if n < |t| {
      AllKept(t, n + 1);
    }
  }

  lemma JoinKept(ws: seq<Word>)
    ensures DeleteFrom(Join(ws), SkipSpaces(Join(ws), 0)) == Join(ws)
    ensures ws != [] ==> !NoNumerals(Join(ws))
  {
    var t := Join(ws);
    JoinShape(ws);
    assert SkipSpaces(t, 0) == 0;
    forall i | 0 <= i < |t| ensures Kept(t, i) {
      if i % 2 == 1 {
        assert i < |t| - 1;
        assert t[i + 1].Word?;
      }
    }
    AllKept(t, 0);
    if ws != [] {
      assert t[0].Word?;
    }
  }

  // ---- the main forms of the printed words ----

  lemma SmallMains(v: nat, feminine: bool)
    requires v < 1000
    ensures Mains(SmallWords(v, feminine)) == Small(v) && NoSigns(SmallWords(v, feminine))
  {
    hide Mains;
    var x, y := Mains(SmallWords(v, feminine)), Small(v);
    assert |x| == |y| && forall i :: 0 <= i < |x| ==> x[i] == y[i];
  }

  lemma GroupMains(v: nat, b: nat, float: bool)
    requires v < 1000 && b <= 8
    ensures Mains(GroupWords(v, b, float)) == Small(v) + When(v > 0 && b > 0, Base(b, 0))
    ensures NoSigns(GroupWords(v, b, float))
  {
    hide SmallWords;
    hide Small;
    hide Lead;
    hide Mains;
    var base := When(v > 0 && b > 0, Base(b, BaseForm(Lead(v))));
    SmallMains(v, Feminine(b, float));
    MainsConcat(SmallWords(v, Feminine(b, float)), base);
    assert Mains(base) == When(v > 0 && b > 0, Base(b, 0));
  }

  lemma FirstGroup(vs: seq<nat>, float: bool) returns (a: seq<Word>)
    requires 1 <= |vs| <= 9 && vs[0] < 1000
    ensures GroupsWords(vs, float) == a + GroupsWords(vs[1..], float) && NoSigns(a)
    ensures MainGroups(vs) == Mains(a) + MainGroups(vs[1..])
  {
    hide Small;
    hide GroupWords;
    a := GroupWords(vs[0], |vs| - 1, float);
    GroupMains(vs[0], |vs| - 1, float);
  }

  lemma {:induction false} GroupsMains(vs: seq<nat>, float: bool)
    requires |vs| <= 9 && AllGroups(vs)
    ensures Mains(GroupsWords(vs, float)) == MainGroups(vs) && NoSigns(GroupsWords(vs, float))
  {
    if vs != [] {
      GroupsMains(vs[1..], float);
      var a := FirstGroup(vs, float);
      ConcatMains(a, GroupsWords(vs[1..], float));
    }
  }

  lemma ConcatMains(a: seq<Word>, b: seq<Word>)
    requires NoSigns(a) && NoSigns(b)
    ensures Mains(a + b) == Mains(a) + Mains(b) && NoSigns(a + b)
  {
    MainsConcat(a, b);
  }

  lemma IntegralMains(ds: seq<digit>, float: bool)
    requires 1 <= |ds| <= MAX_INTEGRAL_DIGITS
    ensures Mains(IntegralWords(ds, float)) == MainWords(ds) && NoSigns(IntegralWords(ds, float))
  {
    if Value(ds) > 0 {
      GroupsCount(ds);
      GroupsMains(Groups(ds), float);
    }
  }

  lemma Reassociate(a: seq<Word>, i: seq<Word>, d: seq<Word>, b: seq<Word>, z: seq<Word>)
    ensures a + (i + d) + b + z == a + (i + (d + (b + z)))
  {
  }

  lemma FloatMains(ids: seq<digit>, fds: seq<digit>)
    requires 1 <= |ids| <= MAX_INTEGRAL_DIGITS && 1 <= |fds| <= MAX_FRACTIONAL_DIGITS
    ensures Mains(FloatWords(ids, fds)) == MainFloat(ids, fds) && NoSigns(FloatWords(ids, fds))
  {
    hide Mains;
    hide IntegralWords;
    hide MainWords;
    var a, b := IntegralWords(ids, true), IntegralWords(fds, true);
    var m, z := [Integral(IntegralForm(ids)), And], [Fraction(|fds|, FractionForm(fds))];
    IntegralMains(ids, true);
    IntegralMains(fds, true);
    FourMains(a, m, b, z);
    JointMains(IntegralForm(ids), |fds|, FractionForm(fds));
    Reassociate(MainWords(ids), [Integral(0)], [And], MainWords(fds), [Fraction(|fds|, 0)]);
  }

  lemma JointMains(form: nat, f: nat, end: nat)
    requires 1 <= f <= MAX_FRACTIONAL_DIGITS
    ensures Mains([Integral(form), And]) == [Integral(0)] + [And] && Mains([Fraction(f, end)]) == [Fraction(f, 0)]
  {
  }

  lemma FourMains(a: seq<Word>, m: seq<Word>, b: seq<Word>, z: seq<Word>)
    ensures Mains(a + m + b + z) == Mains(a) + Mains(m) + Mains(b) + Mains(z)
    ensures NoSigns(a) && NoSigns(m) && NoSigns(b) && NoSigns(z) ==> NoSigns(a + m + b + z)
  {
    MainsConcat(a, m);
    MainsConcat(a + m, b);
    MainsConcat(a + m + b, z);
  }

  // ---- the main results ----

  lemma NothingJoined()
    ensures Join([]) == []
  {
  }

  lemma ParseWords(ws: seq<Word>, v: Amount)
    requires ws != [] && NoSigns(ws)
    requires UF(Join(Mains(ws)), 0) == Some((v, |Join(Mains(ws))|)) && !v.negative
    ensures ParseNumber(Join(ws)) == Parsed(v)
  {
    hide Join;
    hide Mains;
    hide UF;
    hide NormalizeFrom;
    hide DeleteFrom;
    hide SkipSpaces;
    hide NoNumerals;
    var t := Join(ws);
    assert t[0..] == t;
    NothingJoined();
    NormalizeAt(t, 0, ws, []);
    assert [] + Mains(ws) == Mains(ws);
    JoinKept(Mains(ws));
    JoinHead(Mains(ws));
  }

  lemma IntegerParsed(ds: seq<digit>)
    requires 1 <= |ds| <= MAX_INTEGRAL_DIGITS
    ensures ParseNumber(Join(IntegralWords(ds, false))) == Parsed(Whole(Value(ds)))
  {
    var t := Join(MainWords(ds));
    assert t[0..] == t;
    AtIsNear(t, 0, MainWords(ds));
    UFInteger(t, 0, ds);
    IntegralMains(ds, false);
    ParseWords(IntegralWords(ds, false), Whole(Value(ds)));
  }

  lemma FloatParsed(ids: seq<digit>, fds: seq<digit>)
    requires 1 <= |ids| <= MAX_INTEGRAL_DIGITS && 1 <= |fds| <= MAX_FRACTIONAL_DIGITS
    ensures ParseNumber(Join(FloatWords(ids, fds))) == Parsed(Amount(false, Value(ids), Value(fds), Pow10(|fds|)))
  {
    var t := Join(MainFloat(ids, fds));
    assert t[0..] == t;
    AtIsNear(t, 0, MainFloat(ids, fds));
    UFFloat(t, 0, ids, fds);
    FloatMains(ids, fds);
    ParseWords(FloatWords(ids, fds), Amount(false, Value(ids), Value(fds), Pow10(|fds|)));
  }

  lemma IntegerPrinting(number: Text)
    requires IsDecimal(number) && DotPos(number) == |number| && 1 <= |number| <= MAX_INTEGRAL_DIGITS
    ensures AllDigits(number)
    ensures Printing(number) == Numeral(Join(IntegralWords(Digits(number), false)))
  {
    assert number[..|number|] == number;
  }

  predicate PrintableDecimal(number: Text) {
    && IsDecimal(number)
    && 1 <= DotPos(number) <= 27
    && 1 <= |number| - DotPos(number) - 1 <= 11
  }

  function IntegralDigits(number: Text): (ds: seq<digit>)
    requires PrintableDecimal(number)
    ensures 1 <= |ds| <= MAX_INTEGRAL_DIGITS
  {
    Digits(number[..DotPos(number)])
  }

  function FractionalDigits(number: Text): (ds: seq<digit>)
    requires PrintableDecimal(number)
    ensures 1 <= |ds| <= MAX_FRACTIONAL_DIGITS
  {
    Digits(number[DotPos(number) + 1..])
  }

  lemma DecimalPrinting(number: Text)
    requires PrintableDecimal(number)
    ensures Printing(number) == Numeral(Join(FloatWords(IntegralDigits(number), FractionalDigits(number))))
  {
  }

  // A number of up to 27 digits without a fraction, leading zeros included.
  lemma IntegerRoundTrip(number: Text)
    requires IsDecimal(number) && DotPos(number) == |number| && 1 <= |number| <= 27
    ensures AllDigits(number) && Printing(number).Numeral?
    ensures ParseNumber(Printing(number).text) == Parsed(Whole(Value(Digits(number))))
  {
    IntegerPrinting(number);
    IntegerParsed(Digits(number));
  }

  // A number with up to 27 digits in front of the separator and up to eleven behind it.
  lemma DecimalRoundTrip(number: Text)
    requires PrintableDecimal(number)
    ensures Printing(number).Numeral?
    ensures var ids, fds := IntegralDigits(number), FractionalDigits(number);
      ParseNumber(Printing(number).text) == Parsed(Amount(false, Value(ids), Value(fds), Pow10(|fds|)))
  {
    DecimalPrinting(number);
    FloatParsed(IntegralDigits(number), FractionalDigits(number));
  }

  // ---- signs ----

  // What follows a sign in normalized form.
  function BehindSign(ws: seq<Word>): Text {
    if ws == [] then [] else [Space] + Join(ws)
  }

  lemma AppendBehind(s: Sym, done: seq<Word>, w: Word)
    ensures SpaceBefore([s] + BehindSign(done)) + [Word(w)] == [s] + BehindSign(done + [w])
  {
    hide Join;
    NothingJoined();
    JoinSnoc(done, w);
    assert done == [] || [s] + BehindSign(done) == [s, Space] + Join(done);
    assert [s] + BehindSign(done + [w]) == [s, Space] + Join(done + [w]);
  }

  lemma SignedStep(t: Text, p: nat, ws: seq<Word>, s: Sym, done: seq<Word>)
    requires At(t, p, ws) && ws != [] && !ws[0].SignWord?
    ensures NormalizeFrom(t, p, [s] + BehindSign(done)) == NormalizeFrom(t, p + 2, [s] + BehindSign(done + [Main(ws[0])]))
  {
    hide Join;
    AtSkip(t, p, ws);
    AtHead(t, p, ws);
    AppendBehind(s, done, Main(ws[0]));
  }

  lemma {:induction false} SignedAt(t: Text, p: nat, ws: seq<Word>, s: Sym, done: seq<Word>)
    requires At(t, p, ws) && NoSigns(ws)
    ensures NormalizeFrom(t, p, [s] + BehindSign(done)) == [s] + BehindSign(done + Mains(ws))
    decreases |ws|
  {
    hide NormalizeFrom;
    hide BehindSign;
    if ws == [] {
      assert done + [] == done;
      AtSkip(t, p, ws);
      NormalizeEnd(t, p, [s] + BehindSign(done));
    } else {
      SignedStep(t, p, ws, s, done);
      MainsStep(done, ws);
      AtHead(t, p, ws);
      if p + 1 < |t| {
        SignedAt(t, p + 2, ws[1..], s, done + [Main(ws[0])]);
      } else {
        NormalizeEnd(t, p + 2, [s] + BehindSign(done + [Main(ws[0])]));
        assert done + [Main(ws[0])] + [] == done + [Main(ws[0])];
      }
    }
  }

  lemma NothingBehind(s: Sym)
    ensures [s] + BehindSign([]) == [s]
  {
  }

  // The first word with the space behind it, and a sign with the first word.
  lemma FirstWord(t: Text)
    requires |t| >= 2 && t[0].Word? && t[1] == Space
    ensures SkipSpaces(t, 0) == 0 && WordEnd(t, 0) == 1 && t[0..1] == [t[0]]
  {
    assert WordEnd(t, 1) == 1;
  }

  lemma FirstSigned(t: Text)
    requires |t| >= 2 && t[0].Sign? && t[1].Word? && (|t| == 2 || t[2] == Space)
    ensures SkipSpaces(t, 0) == 0 && WordEnd(t, 0) == 2 && t[1..2] == [t[1]]
  {
    assert WordEnd(t, 2) == 2;
    assert WordEnd(t, 1) == 2;
  }

  lemma RunForms(w: Word)
    ensures w.SignWord? ==> NormalRun([Word(w)]) == [Sign(w.minus)]
    ensures !w.SignWord? ==> NormalRun([Word(w)]) == [Word(Main(w))]
  {
  }

  // A sign as a word of its own.
  lemma WordSigned(t: Text, minus: bool, form: nat, ws: seq<Word>)
    requires ws != [] && NoSigns(ws) && t == [Word(SignWord(minus, form)), Space] + Join(ws)
    ensures NormalizeFrom(t, 0, []) == [Sign(minus)] + BehindSign(Mains(ws))
  {
    hide Join;
    hide Mains;
    hide SkipSpaces;
    hide WordEnd;
    hide NormalizeFrom;
    hide NormalRun;
    hide BehindSign;
    assert t[2..] == Join(ws);
    FirstWord(t);
    RunForms(SignWord(minus, form));
    NormalizeWord(t, 0, []);
    NothingBehind(Sign(minus));
    assert [] + [Sign(minus)] == [Sign(minus)];
    SignedAt(t, 2, ws, Sign(minus), []);
    assert [] + Mains(ws) == Mains(ws);
  }

  // A sign attached to the first word.
  lemma Attached(t: Text, minus: bool, ws: seq<Word>)
    requires ws != [] && NoSigns(ws) && t == [Sign(minus)] + Join(ws)
    ensures NormalizeFrom(t, 0, []) == [Sign(minus)] + BehindSign(Mains(ws))
  {
    hide Join;
    hide Mains;
    hide Main;
    hide SkipSpaces;
    hide WordEnd;
    hide NormalizeFrom;
    hide NormalRun;
    hide BehindSign;
    assert t[1..] == Join(ws);
    AtHead(t, 1, ws);
    FirstSigned(t);
    RunForms(ws[0]);
    NormalizeWord(t, 0, []);
    assert [] + [Sign(minus)] == [Sign(minus)];
    AttachedStart(minus, Main(ws[0]));
    AttachedRest(t, minus, ws);
  }

  lemma AttachedStart(minus: bool, w: Word)
    ensures SpaceBefore([Sign(minus)]) + [Word(w)] == [Sign(minus)] + BehindSign([w])
  {
    NothingBehind(Sign(minus));
    AppendBehind(Sign(minus), [], w);
    assert [] + [w] == [w];
  }

  lemma AttachedRest(t: Text, minus: bool, ws: seq<Word>)
    requires At(t, 1, ws) && ws != [] && NoSigns(ws)
    ensures NormalizeFrom(t, 3, [Sign(minus)] + BehindSign([Main(ws[0])])) == [Sign(minus)] + BehindSign(Mains(ws))
  {
    hide Join;
    hide Mains;
    hide Main;
    hide NormalizeFrom;
    hide BehindSign;
    AtHead(t, 1, ws);
    MainsStep([], ws);
    assert [] + [Main(ws[0])] + Mains(ws[1..]) == [Main(ws[0])] + Mains(ws[1..]);
    assert [] + Mains(ws) == Mains(ws);
    if 2 < |t| {
      SignedAt(t, 3, ws[1..], Sign(minus), [Main(ws[0])]);
    } else {
      NormalizeEnd(t, 3, [Sign(minus)] + BehindSign([Main(ws[0])]));
      MainsHead(ws);
      assert [Main(ws[0])] + Mains([]) == [Main(ws[0])];
    }
  }

  lemma SignedShape(s: Sym, ws: seq<Word>)
    requires s.Sign? && ws != []
    ensures var t := [s] + BehindSign(ws);
      && |t| == 2 * |ws| + 1
      && (forall i :: 0 <= i < |t| ==> (t[i] == Space <==> i % 2 == 1))
      && (forall i :: 0 < i < |t| ==> (t[i].Word? <==> i % 2 == 0))
      && t[0] == s
  {
    var t, j := [s] + BehindSign(ws), Join(ws);
    JoinShape(ws);
    hide Join;
    assert t == [s, Space] + j;
    forall i | 0 < i < |t|
      ensures (t[i] == Space <==> i % 2 == 1) && (t[i].Word? <==> i % 2 == 0)
    {
      if i >= 2 {
        assert t[i] == j[i - 2];
      }
    }
  }

  lemma SignedKept(s: Sym, ws: seq<Word>)
    requires s.Sign? && ws != []
    ensures var t := [s] + BehindSign(ws);
      DeleteFrom(t, SkipSpaces(t, 0)) == t && !NoNumerals(t)
  {
    hide BehindSign;
    hide DeleteFrom;
    var t := [s] + BehindSign(ws);
    SignedShape(s, ws);
    assert SkipSpaces(t, 0) == 0;
    forall i | 0 <= i < |t| ensures Kept(t, i) {
      if i % 2 == 1 {
        assert t[i + 1].Word?;
      }
    }
    AllKept(t, 0);
    assert t[0..] == t;
  }

  lemma SignedNear(s: Sym, ws: seq<Word>)
    requires ws != []
    ensures Near([s] + BehindSign(ws), 1, ws)
  {
    hide Join;
    var t := [s] + BehindSign(ws);
    assert t == [s, Space] + Join(ws) && t[2..] == Join(ws);
    AtSkip(t, 2, ws);
    assert SkipSpaces(t, 1) == SkipSpaces(t, 2);
  }

  // The two ways to write a sign in front of a numeral.
  function Signed(minus: bool, form: nat, attached: bool, text: Text): Text {
    if attached then [Sign(minus)] + text else [Word(SignWord(minus, form)), Space] + text
  }

  lemma SignedWords(ws: seq<Word>, v: Amount, minus: bool, form: nat, attached: bool)
    requires ws != [] && NoSigns(ws) && !v.negative
    requires var t := [Sign(minus)] + BehindSign(Mains(ws)); UF(t, 1) == Some((v, |t|))
    ensures ParseNumber(Signed(minus, form, attached, Join(ws))) == Parsed(v.(negative := minus))
  {
    hide Join;
    hide Mains;
    hide BehindSign;
    hide UF;
    hide NormalizeFrom;
    hide DeleteFrom;
    hide SkipSpaces;
    hide NoNumerals;
    var t := Signed(minus, form, attached, Join(ws));
    if attached {
      Attached(t, minus, ws);
    } else {
      WordSigned(t, minus, form, ws);
    }
    SignedKept(Sign(minus), Mains(ws));
  }

  // A printed integer behind a sign, as a word of any form or attached, is parsed as its value with that sign.
  lemma SignedInteger(number: Text, minus: bool, form: nat, attached: bool)
    requires IsDecimal(number) && DotPos(number) == |number| && 1 <= |number| <= 27
    ensures AllDigits(number) && Printing(number).Numeral?
    ensures ParseNumber(Signed(minus, form, attached, Printing(number).text)) ==
      Parsed(Amount(minus, Value(Digits(number)), 0, 1))
  {
    IntegerPrinting(number);
    var ds := Digits(number);
    var ws := IntegralWords(ds, false);
    IntegralMains(ds, false);
    NumeralAgreement.PartRows(ds, false);
    assert |Mains(ws)| == |ws|;
    SignedNear(Sign(minus), MainWords(ds));
    UFInteger([Sign(minus)] + BehindSign(MainWords(ds)), 1, ds);
    SignedWords(ws, Whole(Value(ds)), minus, form, attached);
  }

  // The same for a printed decimal.
  lemma SignedDecimal(number: Text, minus: bool, form: nat, attached: bool)
    requires PrintableDecimal(number)
    ensures Printing(number).Numeral?
    ensures var ids, fds := IntegralDigits(number), FractionalDigits(number);
      ParseNumber(Signed(minus, form, attached, Printing(number).text)) ==
      Parsed(Amount(minus, Value(ids), Value(fds), Pow10(|fds|)))
  {
    DecimalPrinting(number);
    var ids, fds := IntegralDigits(number), FractionalDigits(number);
    var ws := FloatWords(ids, fds);
    FloatMains(ids, fds);
    SignedNear(Sign(minus), MainFloat(ids, fds));
    UFFloat([Sign(minus)] + BehindSign(MainFloat(ids, fds)), 1, ids, fds);
    SignedWords(ws, Amount(false, Value(ids), Value(fds), Pow10(|fds|)), minus, form, attached);
  }
}
