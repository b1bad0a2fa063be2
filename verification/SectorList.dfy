// The memory allocator as a list of sector sizes, the position of the current sector and its used bytes.
module SectorList {

  // size_t( -1 )
  const LIMIT := 0xFFFF_FFFF_FFFF_FFFF
  const RESERVED := 16

  // sectors: the payload sizes in list order.
  datatype Arena = Arena(sectors: seq<nat>, cur: nat, used: nat)
  {
    predicate Good() {
      if sectors == [] then cur == 0 && used == 0
      else cur < |sectors| && used <= sectors[cur] && used % 4 == 0 && Total(sectors) <= LIMIT
    }

    // Used bytes of the sector at position i.
    function Bound(i: nat): nat
      requires Good() && sectors != [] && i <= cur
    {
      if i == cur then used else sectors[i]
    }
  }

  // Bytes obtained for the sectors.
  function Total(sectors: seq<nat>): nat {
    if sectors == [] then 0 else Total(sectors[..|sectors| - 1]) + sectors[|sectors| - 1] + RESERVED
  }

  function Rounded(n: nat): (r: nat)
    ensures n <= r < n + 4 && r % 4 == 0
  {
    n + if n % 4 != 0 then 4 - n % 4 else 0
  }

  // The first sector from `from` on that can hold n bytes, or the number of sectors.
  function FirstFit(sectors: seq<nat>, from: nat, n: nat): (j: nat)
    requires from <= |sectors|
    ensures from <= j <= |sectors|
    ensures forall k :: from <= k < j ==> sectors[k] < n
    ensures j < |sectors| ==> sectors[j] >= n
    decreases |sectors| - from
  {
    if from == |sectors| || sectors[from] >= n then from else FirstFit(sectors, from + 1, n)
  }

  // Sector j goes right behind the current one.
  function Moved<T>(s: seq<T>, cur: nat, j: nat): (r: seq<T>)
    requires cur < j < |s|
    ensures |r| == |s| && r[..cur + 1] == s[..cur + 1] && r[cur + 1] == s[j]
  {
    s[..cur + 1] + [s[j]] + s[cur + 1..j] + s[j + 1..]
  }

  // A new sector goes right behind the current one.
  function Grown<T>(s: seq<T>, cur: nat, x: T): (r: seq<T>)
    requires cur < |s|
    ensures |r| == |s| + 1 && r[..cur + 1] == s[..cur + 1] && r[cur + 1] == x
  {
    s[..cur + 1] + [x] + s[cur + 1..]
  }

  predicate OverLimit(n: nat, full: nat) {
    LIMIT - n <= RESERVED || LIMIT - full <= RESERVED + n
  }

  // The payload of the first sector, and of a further one.
  function FirstPayload(n: nat, first: nat): nat
    requires first > RESERVED
  {
    if first < n + RESERVED then n else first - RESERVED
  }

  function NextPayload(n: nat, full: nat, step: nat): nat
    requires step > RESERVED
  {
    if step < n + RESERVED || LIMIT - step <= full then n else step - RESERVED
  }

  // A block: its sector, offset and size.
  datatype Spot = Spot(pos: nat, off: nat, len: nat)

  datatype Outcome = Denied | Given(arena: Arena, spot: Spot)

  // Sizes set by the constructor.
  predicate Sizes(first: nat, step: nat) {
    RESERVED < first < LIMIT && RESERVED < step < LIMIT
  }

  // What a request for n > 0 bytes, a multiple of four, does; `malloc` says whether memory can be had.
  function Placed(a: Arena, n: nat, first: nat, step: nat, malloc: bool): Outcome
    requires a.Good() && Sizes(first, step)
  {
    if a.sectors == [] then
      if OverLimit(n, 0) || !malloc then Denied
      else Given(Arena([FirstPayload(n, first)], 0, n), Spot(0, 0, n))
    else if n <= a.sectors[a.cur] - a.used then
      Given(a.(used := a.used + n), Spot(a.cur, a.used, n))
    else
      var j := FirstFit(a.sectors, a.cur + 1, n);
      if j < |a.sectors| then Given(Arena(Moved(a.sectors, a.cur, j), a.cur + 1, n), Spot(a.cur + 1, 0, n))
      else if OverLimit(n, Total(a.sectors)) || !malloc then Denied
      else
        var payload := NextPayload(n, Total(a.sectors), step);
        Given(Arena(Grown(a.sectors, a.cur, payload), a.cur + 1, n), Spot(a.cur + 1, 0, n))
  }

  function Allocation(a: Arena, size: nat, first: nat, step: nat, malloc: bool): Outcome
    requires a.Good() && Sizes(first, step)
  {
    if size == 0 || LIMIT - size <= 4 then Denied else Placed(a, Rounded(size), first, step, malloc)
  }

  function Rewound(a: Arena): Arena {
    Arena(a.sectors, 0, 0)
  }

  // ---- sizes ----

  lemma {:induction false} TotalConcat(a: seq<nat>, b: seq<nat>)
    ensures Total(a + b) == Total(a) + Total(b)
  {
    if b == [] {
      assert a + b == a;
    } else {
      var c := b[..|b| - 1];
      assert (a + b)[..|a + b| - 1] == a + c;
      TotalConcat(a, c);
    }
  }

  lemma TotalOne(x: nat)
    ensures Total([x]) == x + RESERVED
  {
    assert [x][..0] == [];
  }

  lemma TotalBetween(a: seq<nat>, x: nat, b: seq<nat>)
    ensures Total(a + [x] + b) == Total(a + b) + x + RESERVED
  {
    hide Total;
    TotalConcat(a + [x], b);
    TotalConcat(a, [x]);
    TotalConcat(a, b);
    TotalOne(x);
  }

  lemma TotalGrown(s: seq<nat>, cur: nat, x: nat)
    requires cur < |s|
    ensures Total(Grown(s, cur, x)) == Total(s) + x + RESERVED
  {
    hide Total;
    hide Grown;
    TotalBetween(s[..cur + 1], x, s[cur + 1..]);
    GrownPieces(s, cur, x);
  }

  lemma GrownPieces(s: seq<nat>, cur: nat, x: nat)
    requires cur < |s|
    ensures Grown(s, cur, x) == s[..cur + 1] + [x] + s[cur + 1..]
    ensures s[..cur + 1] + s[cur + 1..] == s
  {
  }

  lemma TotalMoved(s: seq<nat>, cur: nat, j: nat)
    requires cur < j < |s|
    ensures Total(Moved(s, cur, j)) == Total(s)
  {
    hide Total;
    hide Moved;
    var a, b, c, x := s[..cur + 1], s[cur + 1..j], s[j + 1..], [s[j]];
    TotalOfFour(a, x, b, c);
    TotalOfFour(a, b, x, c);
    MovedPieces(s, cur, j);
  }

  lemma MovedPieces<T>(s: seq<T>, cur: nat, j: nat)
    requires cur < j < |s|
    ensures Moved(s, cur, j) == s[..cur + 1] + [s[j]] + s[cur + 1..j] + s[j + 1..]
    ensures s[..cur + 1] + s[cur + 1..j] + [s[j]] + s[j + 1..] == s
  {
  }

  // Moving a sector loses none and repeats none.
  lemma MovedSame<T>(s: seq<T>, cur: nat, j: nat)
    requires cur < j < |s|
    ensures multiset(Moved(s, cur, j)) == multiset(s)
  {
    hide Moved;
    MovedPieces(s, cur, j);
    SameBag(s[..cur + 1], s[cur + 1..j], [s[j]], s[j + 1..]);
  }

  lemma SameBag<T>(a: seq<T>, b: seq<T>, x: seq<T>, c: seq<T>)
    ensures multiset(a + x + b + c) == multiset(a + b + x + c)
  {
  }

  lemma TotalOfFour(a: seq<nat>, b: seq<nat>, c: seq<nat>, d: seq<nat>)
    ensures Total(a + b + c + d) == Total(a) + Total(b) + Total(c) + Total(d)
  {
    TotalConcat(a + b + c, d);
    TotalConcat(a + b, c);
    TotalConcat(a, b);
  }

  // ---- what one request keeps ----

  lemma GivenGood(a: Arena, size: nat, first: nat, step: nat, malloc: bool)
    requires a.Good() && Sizes(first, step) && Allocation(a, size, first, step, malloc).Given?
    ensures var b := Allocation(a, size, first, step, malloc).arena;
      b.Good() && b.sectors != [] && a.cur <= b.cur && (a.sectors != [] ==> b.sectors[..a.cur + 1] == a.sectors[..a.cur + 1])
  {
    hide Total;
    hide FirstFit;
    hide Moved;
    hide Grown;
    var n, s := Rounded(size), a.sectors;
    if s == [] {
      TotalOne(FirstPayload(n, first));
    } else if n > s[a.cur] - a.used {
      var j := FirstFit(s, a.cur + 1, n);
      if j < |s| {
        TotalMoved(s, a.cur, j);
      } else {
        TotalGrown(s, a.cur, NextPayload(n, Total(s), step));
      }
    }
  }

  // ---- live blocks ----

  predicate Apart(x: Spot, y: Spot) {
    x.pos != y.pos || x.off + x.len <= y.off || y.off + y.len <= x.off
  }

  predicate Inside(x: Spot, a: Arena) {
    a.Good() && a.sectors != [] && x.pos <= a.cur && x.off + x.len <= a.Bound(x.pos) && x.off % 4 == 0
  }

  // The blocks lie in the used parts of the sectors up to the current one, and do not overlap.
  predicate Held(blocks: seq<Spot>, a: Arena) {
    a.Good()
    && (a.sectors == [] ==> blocks == [])
    && (forall i :: 0 <= i < |blocks| ==> Inside(blocks[i], a))
    && forall i, j :: 0 <= i < j < |blocks| ==> Apart(blocks[i], blocks[j])
  }

  lemma InsideKept(x: Spot, a: Arena, size: nat, first: nat, step: nat, malloc: bool)
    requires Inside(x, a) && Sizes(first, step) && Allocation(a, size, first, step, malloc).Given?
    ensures var g := Allocation(a, size, first, step, malloc); Inside(x, g.arena) && Apart(x, g.spot)
  {
    hide Total;
    GivenGood(a, size, first, step, malloc);
    var b := Allocation(a, size, first, step, malloc).arena;
    assert b.sectors[..a.cur + 1][x.pos] == a.sectors[..a.cur + 1][x.pos];
  }

  lemma SpotInside(a: Arena, size: nat, first: nat, step: nat, malloc: bool)
    requires a.Good() && Sizes(first, step) && Allocation(a, size, first, step, malloc).Given?
    ensures var g := Allocation(a, size, first, step, malloc); Inside(g.spot, g.arena) && g.spot.len >= size
  {
    GivenGood(a, size, first, step, malloc);
  }

  // A new block leaves the others where they are and touches none of them.
  lemma HeldKept(blocks: seq<Spot>, a: Arena, size: nat, first: nat, step: nat, malloc: bool)
    requires Held(blocks, a) && Sizes(first, step) && Allocation(a, size, first, step, malloc).Given?
    ensures var g := Allocation(a, size, first, step, malloc); Held(blocks + [g.spot], g.arena)
  {
    hide Allocation;
    hide Inside;
    GivenGood(a, size, first, step, malloc);
    SpotInside(a, size, first, step, malloc);
    forall i | 0 <= i < |blocks|
      ensures var g := Allocation(a, size, first, step, malloc); Inside(blocks[i], g.arena) && Apart(blocks[i], g.spot)
    {
      InsideKept(blocks[i], a, size, first, step, malloc);
    }
  }

  // ---- a run of requests, and the same run after a rewind ----

  datatype Request = Request(size: nat, step: nat, malloc: bool)

  predicate Legal(rs: seq<Request>, first: nat) {
    forall i :: 0 <= i < |rs| ==> Sizes(first, rs[i].step)
  }

  // The arena and the blocks after the requests.
  function After(a: Arena, rs: seq<Request>, first: nat): (r: (Arena, seq<Outcome>))
    requires a.Good() && Legal(rs, first)
    ensures r.0.Good() && |r.1| == |rs|
    decreases |rs|
  {
    if rs == [] then (a, [])
    else
      var n := |rs| - 1;
      var (b, os) := After(a, rs[..n], first);
      var o := Allocation(b, rs[n].size, first, rs[n].step, rs[n].malloc);
      if o.Denied? then (b, os + [o]) else
      GivenGood(b, rs[n].size, first, rs[n].step, rs[n].malloc);
      (o.arena, os + [o])
  }

  lemma AfterLast(a: Arena, rs: seq<Request>, first: nat) returns (b: Arena, os: seq<Outcome>, o: Outcome)
    requires a.Good() && Legal(rs, first) && rs != []
    ensures b.Good() && After(a, rs[..|rs| - 1], first) == (b, os)
    ensures o == Allocation(b, rs[|rs| - 1].size, first, rs[|rs| - 1].step, rs[|rs| - 1].malloc)
    ensures After(a, rs, first) == (if o.Denied? then b else o.arena, os + [o])
  {
    var n := |rs| - 1;
    b, os := After(a, rs[..n], first).0, After(a, rs[..n], first).1;
    o := Allocation(b, rs[n].size, first, rs[n].step, rs[n].malloc);
  }

  predicate AllGiven(os: seq<Outcome>) {
    forall i :: 0 <= i < |os| ==> os[i].Given?
  }

  const Empty := Arena([], 0, 0)

  // From the empty arena on, the current sector is the last.
  predicate AtEnd(a: Arena) {
    a.Good() && (a.sectors == [] || a.cur == |a.sectors| - 1)
  }

  lemma EndKept(a: Arena, r: Request, first: nat)
    requires AtEnd(a) && Sizes(first, r.step) && Allocation(a, r.size, first, r.step, r.malloc).Given?
    ensures var b := Allocation(a, r.size, first, r.step, r.malloc).arena;
      AtEnd(b) && b.sectors != [] && a.sectors <= b.sectors
  {
    hide Total;
    GivenGood(a, r.size, first, r.step, r.malloc);
  }

  // The same request in an arena that already has the sectors obtained later: no memory is asked for.
  lemma ReplayStep(a: Arena, full: seq<nat>, r: Request, again: Request, first: nat)
    requires AtEnd(a) && Sizes(first, r.step) && Sizes(first, again.step) && again.size == r.size
    requires Allocation(a, r.size, first, r.step, r.malloc).Given?
    requires Allocation(a, r.size, first, r.step, r.malloc).arena.sectors <= full && Total(full) <= LIMIT
    ensures var o := Allocation(a, r.size, first, r.step, r.malloc);
      && Arena(full, a.cur, a.used).Good()
      && Allocation(Arena(full, a.cur, a.used), again.size, first, again.step, again.malloc)
         == Given(Arena(full, o.arena.cur, o.arena.used), o.spot)
  {
    hide Total;
    hide Rounded;
    hide FirstFit;
    hide Moved;
    hide Grown;
    hide OverLimit;
    EndKept(a, r, first);
    var n, s := Rounded(r.size), a.sectors;
    if s != [] && n > s[a.cur] - a.used {
      NextFits(full, a.cur, n);
    }
  }

  lemma NextFits(full: seq<nat>, cur: nat, n: nat)
    requires cur + 1 < |full| && full[cur + 1] >= n
    ensures FirstFit(full, cur + 1, n) == cur + 1 && Moved(full, cur, cur + 1) == full
  {
  }

  // Same sizes, with any memory step and any answer of malloc.
  predicate SameSizes(rs: seq<Request>, again: seq<Request>) {
    |rs| == |again| && forall i :: 0 <= i < |rs| ==> again[i].size == rs[i].size
  }

  lemma {:induction false} FreshRun(rs: seq<Request>, first: nat)
    requires Legal(rs, first) && AllGiven(After(Empty, rs, first).1)
    ensures AtEnd(After(Empty, rs, first).0)
    ensures rs != [] ==>
      var (b, os) := After(Empty, rs[..|rs| - 1], first);
      AllGiven(os) && AtEnd(b) && b.sectors <= After(Empty, rs, first).0.sectors
      && After(Empty, rs, first).1[|rs| - 1].Given?
  {
    if rs != [] {
      var n := |rs| - 1;
      var b, os, o := AfterLast(Empty, rs, first);
      hide After;
      assert (os + [o])[n] == o;
      AllGivenBefore(os + [o], os);
      FreshRun(rs[..n], first);
      EndKept(b, rs[n], first);
    }
  }

  lemma AllGivenBefore(os: seq<Outcome>, before: seq<Outcome>)
    requires AllGiven(os) && before <= os
    ensures AllGiven(before)
  {
  }

  // Repeating a run of granted requests after a rewind hands out the same blocks of the same sectors,
  // in the same order, even when no more memory can be had.
  lemma {:induction false} Replay(rs: seq<Request>, again: seq<Request>, first: nat, full: seq<nat>)
    requires Legal(rs, first) && Legal(again, first) && SameSizes(rs, again)
    requires AllGiven(After(Empty, rs, first).1)
    requires After(Empty, rs, first).0.sectors <= full && full != [] && Total(full) <= LIMIT
    ensures Arena(full, 0, 0).Good()
    ensures var (b, os) := After(Empty, rs, first);
      var (c, ps) := After(Arena(full, 0, 0), again, first);
      c == Arena(full, b.cur, b.used) && AllGiven(ps) && forall i :: 0 <= i < |os| ==> ps[i].spot == os[i].spot
  {
    if rs != [] {
      var n := |rs| - 1;
      var b, os, o := AfterLast(Empty, rs, first);
      FreshRun(rs, first);
      Replay(rs[..n], again[..n], first, full);
      var c, ps, p := AfterLast(Arena(full, 0, 0), again, first);
      hide After;
      hide Allocation;
      assert (os + [o])[n] == o;
      ReplayStep(b, full, rs[n], again[n], first);
    }
  }

  // ---- what is refused, and what a new sector saves ----

  // No room in the current sector, and none in a later one.
  predicate NoRoom(a: Arena, n: nat)
    requires a.Good()
  {
    a.sectors != [] ==>
      n > a.sectors[a.cur] - a.used && forall k :: a.cur < k < |a.sectors| ==> a.sectors[k] < n
  }

  // A request is refused exactly if it is empty or too large to be rounded, or if there is no room for it and
  // no memory for another sector.
  lemma DeniedExactly(a: Arena, size: nat, first: nat, step: nat, malloc: bool)
    requires a.Good() && Sizes(first, step)
    ensures Allocation(a, size, first, step, malloc).Denied? <==>
      || size == 0 || size + 4 >= 0xFFFF_FFFF_FFFF_FFFF
      || (NoRoom(a, Rounded(size))
          && (!malloc || Total(a.sectors) + Rounded(size) + 16 >= 0xFFFF_FFFF_FFFF_FFFF))
  {
    hide Rounded;
    hide Moved;
    hide Grown;
    assert a.sectors == [] ==> Total(a.sectors) == 0;
  }

  function Needs(sizes: seq<nat>): nat {
    if sizes == [] then 0 else Needs(sizes[..|sizes| - 1]) + Rounded(sizes[|sizes| - 1])
  }

  predicate NoneEmpty(sizes: seq<nat>) {
    forall i :: 0 <= i < |sizes| ==> sizes[i] > 0
  }

  function SizesOnly(rs: seq<Request>): (r: seq<nat>)
    ensures |r| == |rs| && forall i :: 0 <= i < |rs| ==> r[i] == rs[i].size
  {
    seq(|rs|, i requires 0 <= i < |rs| => rs[i].size)
  }

  // Requests that together fit the current sector are granted in it one behind the other, whatever malloc says.
  lemma {:induction false} FitTogether(a: Arena, rs: seq<Request>, first: nat)
    requires a.Good() && a.sectors != [] && Legal(rs, first) && NoneEmpty(SizesOnly(rs))
    requires a.used + Needs(SizesOnly(rs)) <= a.sectors[a.cur]
    ensures var (b, os) := After(a, rs, first);
      && b == a.(used := a.used + Needs(SizesOnly(rs))) && AllGiven(os)
      && forall i :: 0 <= i < |os| ==> os[i].spot.pos == a.cur
  {
    hide Rounded;
    hide Total;
    if rs != [] {
      var n := |rs| - 1;
      var b, os, o := AfterLast(a, rs, first);
      assert SizesOnly(rs)[..n] == SizesOnly(rs[..n]);
      assert forall i :: 0 <= i < n ==> SizesOnly(rs[..n])[i] == SizesOnly(rs)[i];
      FitTogether(a, rs[..n], first);
      hide After;
      CurrentFits(b, rs[n], first);
    }
  }

  lemma CurrentFits(b: Arena, r: Request, first: nat)
    requires b.Good() && b.sectors != [] && Sizes(first, r.step) && r.size > 0
    requires b.used + Rounded(r.size) <= b.sectors[b.cur]
    ensures Allocation(b, r.size, first, r.step, r.malloc) ==
      Given(b.(used := b.used + Rounded(r.size)), Spot(b.cur, b.used, Rounded(r.size)))
  {
    hide Rounded;
    SectorSmaller(b.sectors, b.cur);
  }

  lemma {:induction false} SectorSmaller(s: seq<nat>, i: nat)
    requires i < |s|
    ensures s[i] + 16 <= Total(s)
  {
    if i < |s| - 1 {
      SectorSmaller(s[..|s| - 1], i);
    }
  }

  // A request that gets a new sector gets one of the memory step, if it fits that and the total stays below the
  // limit. Further requests are then granted without any memory as long as all together keep to the step.
  lemma StepSaves(a: Arena, size: nat, first: nat, step: nat, rs: seq<Request>)
    requires a.Good() && a.sectors != [] && Sizes(first, step) && Legal(rs, first) && NoneEmpty(SizesOnly(rs))
    requires size > 0 && NoRoom(a, Rounded(size)) && Total(a.sectors) + step < 0xFFFF_FFFF_FFFF_FFFF
    requires Rounded(size) + Needs(SizesOnly(rs)) + 16 <= step
    ensures var o := Allocation(a, size, first, step, true);
      && o.Given? && o.arena.Good() && |o.arena.sectors| == |a.sectors| + 1
      && o.arena.sectors[o.arena.cur] == step - 16
      && var (b, os) := After(o.arena, rs, first);
         b.sectors == o.arena.sectors && AllGiven(os)
  {
    hide Rounded;
    hide Total;
    var n, o := Rounded(size), Allocation(a, size, first, step, true);
    NewSector(a, size, first, step);
    GivenGood(a, size, first, step, true);
    FitTogether(o.arena, rs, first);
  }

  lemma NewSector(a: Arena, size: nat, first: nat, step: nat)
    requires a.Good() && a.sectors != [] && Sizes(first, step)
    requires size > 0 && NoRoom(a, Rounded(size)) && Total(a.sectors) + step < 0xFFFF_FFFF_FFFF_FFFF
    requires Rounded(size) + 16 <= step
    ensures Allocation(a, size, first, step, true) ==
      Given(Arena(Grown<nat>(a.sectors, a.cur, step - 16), a.cur + 1, Rounded(size)), Spot(a.cur + 1, 0, Rounded(size)))
  {
    hide Rounded;
    hide Total;
    hide Moved;
    hide Grown;
    hide FirstFit;
    var n := Rounded(size);
    assert FirstFit(a.sectors, a.cur + 1, n) == |a.sectors|;
    assert !OverLimit(n, Total(a.sectors));
    assert NextPayload(n, Total(a.sectors), step) == step - 16;
  }

  lemma FirstSector(size: nat, first: nat, step: nat)
    requires Sizes(first, step) && size > 0 && Rounded(size) + 16 <= first
    ensures Empty.Good()
    ensures Allocation(Empty, size, first, step, true) ==
      Given(Arena([first - 16], 0, Rounded(size)), Spot(0, 0, Rounded(size)))
  {
    hide Rounded;
  }

  // The same for the first sector.
  lemma FirstSaves(size: nat, first: nat, step: nat, rs: seq<Request>)
    requires Sizes(first, step) && Legal(rs, first) && NoneEmpty(SizesOnly(rs))
    requires size > 0 && Rounded(size) + Needs(SizesOnly(rs)) + 16 <= first
    ensures var o := Allocation(Empty, size, first, step, true);
      && o.Given? && o.arena.Good() && o.arena.sectors == [first - 16]
      && var (b, os) := After(o.arena, rs, first);
         b.sectors == [first - 16] && AllGiven(os)
  {
    hide Rounded;
    hide Total;
    FirstSector(size, first, step);
    GivenGood(Empty, size, first, step, true);
    FitTogether(Allocation(Empty, size, first, step, true).arena, rs, first);
  }
}
