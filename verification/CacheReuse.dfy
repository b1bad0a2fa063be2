// Inserts that share their base key: which of them can hurt a reader.
module CacheReuse {
  import opened Bytes
  import opened CacheKeys
  import opened CacheStore
  import opened CacheProtocol

  // Part i is in both inserts, and not the same.
  predicate DifferAt(a: Insert, b: Insert, i: nat) {
    i < a.Parts() && i < b.Parts() && a.Part(i) != b.Part(i)
  }

  // Two inserts of one key, process and second that a reader can mix up: sizes differ and a common part does,
  // or sizes agree and two parts differ.
  predicate Clash(a: Insert, b: Insert) {
    && !Differ(a, b) && a.key != []
    && exists i :: 0 <= i < a.Parts() && DifferAt(a, b, i)
         && (|a.data| != |b.data| || exists j :: 0 <= j < a.Parts() && j != i && DifferAt(a, b, j))
  }

  // The data of the reader is that of no insert of its key, or it was refused as corrupt or ran over its buffer.
  ghost predicate Hurt(s: State, r: Reader) {
    r.stage == Ended(Corrupt) || r.stage == Ended(Overrun)
    || (r.stage.Ended? && r.stage.reply.Found?
        && forall w :: 0 <= w < |s.writers| && s.writers[w].ins.key == r.key ==>
             s.writers[w].ins.data != r.stage.reply.data)
  }

  // The run starts inserts of this set only.
  predicate Only(ts: seq<Step>, inserts: set<Insert>) {
    forall i :: 0 <= i < |ts| && ts[i].StartInsert? ==> ts[i].ins in inserts
  }

  // ---- without a clash nobody is hurt ----

  predicate NoClash(ws: seq<Writer>) {
    forall v, w :: 0 <= v < |ws| && 0 <= w < |ws| ==> !Clash(ws[v].ins, ws[w].ins)
  }

  // The reader has the beginning of one insert of its key.
  predicate Trails(w: Writer, r: Reader) {
    w.ins.key == r.key
    && exists i: nat :: i <= w.ins.Parts() && Reach(w.ins, i) <= |w.ins.data| && r.stage == At(w.ins, i)
  }

  predicate TrailOk(ws: seq<Writer>, r: Reader) {
    r.key != []
    && (r.stage == Begin || r.stage == Ended(NotFound) || exists w :: 0 <= w < |ws| && Trails(ws[w], r))
  }

  predicate TrailInv(s: State, inserts: set<Insert>) {
    WritersOk(s.writers) && StoreOk(s.store, s.writers)
    && (forall w :: 0 <= w < |s.writers| ==> s.writers[w].ins in inserts)
    && forall r :: 0 <= r < |s.readers| ==> TrailOk(s.writers, s.readers[r])
  }

  lemma TrailLater(ws: seq<Writer>, xs: seq<Writer>, r: Reader)
    requires Later(ws, xs) && TrailOk(ws, r)
    ensures TrailOk(xs, r)
  {
    if r.stage != Begin && r.stage != Ended(NotFound) {
      var w :| 0 <= w < |ws| && Trails(ws[w], r);
      assert Trails(xs[w], r);
    }
  }

  // Inserts that differ in one part only agree up to it.
  lemma {:induction false} SameBeginning(a: Insert, b: Insert, i: nat)
    requires |a.data| == |b.data| && i <= a.Parts() && a.Parts() > 0
    requires forall k: nat :: k < i ==> a.Part(k) == b.Part(k)
    ensures Reach(a, i) == Reach(b, i) <= |a.data| && a.data[..Reach(a, i)] == b.data[..Reach(b, i)]
  {
    hide PartsOf;
    if i > 0 {
      SameBeginning(a, b, i - 1);
      PartJoins(a, i - 1);
      PartJoins(b, i - 1);
    } else {
      assert a.data[..0] == b.data[..0];
    }
  }

  // A part of another insert is the same part, or makes the reader one of that other insert.
  lemma OtherPart(a: Insert, b: Insert, i: nat)
    requires !Differ(a, b) && a.key != [] && !Clash(a, b) && i < a.Parts() && i < b.Parts() && Reach(a, i) <= |a.data|
    requires a.Part(i) != b.Part(i)
    ensures Reach(b, i) <= |b.data| && At(a, i) == At(b, i)
  {
    hide PartsOf;
    hide BaseKey;
    assert DifferAt(a, b, i);
    assert |a.data| == |b.data|;
    forall k: nat | k < i
      ensures a.Part(k) == b.Part(k)
    {
      assert !DifferAt(a, b, k);
    }
    SameBeginning(a, b, i);
  }

  lemma TrailSteps(store: Store, ws: seq<Writer>, w: nat, r: Reader)
    requires WritersOk(ws) && StoreOk(store, ws) && NoClash(ws) && w < |ws| && Trails(ws[w], r) && r.key != []
    ensures TrailOk(ws, r.(stage := Get(store, r.key, r.stage)))
  {
    hide StoreOk;
    hide PartsOf;
    hide Clash;
    var ins := ws[w].ins;
    var after := r.(stage := Get(store, r.key, r.stage));
    var i: nat :| i <= ins.Parts() && Reach(ins, i) <= |ins.data| && r.stage == At(ins, i);
    if i == ins.Parts() {
      assert Trails(ws[w], after);
    } else if PartKey(ins.Base(), i) in store {
      var v := PartWritten(store, ws, ins, i);
      var other := ws[v].ins;
      if other.Part(i) != ins.Part(i) {
        OtherPart(ins, other, i);
        PartRead(store, other, i);
        assert Trails(ws[v], after);
      } else {
        SameBase(ins, other);
        PartRead(store, ins, i);
        assert Trails(ws[w], after);
      }
    }
  }

  lemma SameBase(a: Insert, b: Insert)
    requires !Differ(a, b)
    ensures a.Base() == b.Base()
  {
  }

  lemma TrailBegins(store: Store, ws: seq<Writer>, key: Key)
    requires WritersOk(ws) && StoreOk(store, ws) && key != []
    ensures TrailOk(ws, Reader(key, Get(store, key, Begin)))
  {
    hide StoreOk;
    if CtlKey(key) in store {
      var w := ControlSeen(store, ws, key);
      ControlRead(store, ws[w].ins);
      assert Get(store, key, Begin) == At(ws[w].ins, 0);
      assert Trails(ws[w], Reader(key, Get(store, key, Begin)));
    }
  }

  lemma ReaderTrails(store: Store, ws: seq<Writer>, r: Reader)
    requires WritersOk(ws) && StoreOk(store, ws) && NoClash(ws) && TrailOk(ws, r)
    ensures TrailOk(ws, r.(stage := Get(store, r.key, r.stage)))
  {
    hide StoreOk;
    hide NoClash;
    hide Trails;
    if r.stage == Begin {
      TrailBegins(store, ws, r.key);
    } else if r.stage != Ended(NotFound) {
      var w :| 0 <= w < |ws| && Trails(ws[w], r);
      TrailSteps(store, ws, w, r);
    }
  }

  predicate Peaceful(inserts: set<Insert>) {
    forall a, b :: a in inserts && b in inserts ==> !Clash(a, b)
  }

  lemma TrailSet(s: State, w: nat, inserts: set<Insert>)
    requires TrailInv(s, inserts) && Enabled(s, Set(w))
    ensures TrailInv(Do(s, Set(w)), inserts)
  {
    hide TrailOk;
    hide StoreOk;
    hide Write;
    var x := s.writers[w];
    var xs := s.writers[w := x.(sets := x.sets + 1)];
    StoreWritten(s.store, s.writers, w);
    forall v | 0 <= v < |xs|
      ensures xs[v].ins in inserts
    {
      assert xs[v].ins == s.writers[v].ins;
    }
    forall r | 0 <= r < |s.readers|
      ensures TrailOk(xs, s.readers[r])
    {
      TrailLater(s.writers, xs, s.readers[r]);
    }
  }

  lemma TrailAdded(s: State, ins: Insert, inserts: set<Insert>)
    requires TrailInv(s, inserts) && Enabled(s, StartInsert(ins)) && ins in inserts
    ensures TrailInv(Do(s, StartInsert(ins)), inserts)
  {
    hide TrailOk;
    hide StoreOk;
    var xs := s.writers + [Writer(ins, 0)];
    StoreAdded(s.store, s.writers, ins);
    forall v | 0 <= v < |xs|
      ensures xs[v].ins in inserts
    {
      assert v < |s.writers| ==> xs[v] == s.writers[v];
    }
    forall r | 0 <= r < |s.readers|
      ensures TrailOk(xs, s.readers[r])
    {
      TrailLater(s.writers, xs, s.readers[r]);
    }
  }

  lemma TrailKept(s: State, t: Step, inserts: set<Insert>)
    requires TrailInv(s, inserts) && Enabled(s, t) && Peaceful(inserts) && (t.StartInsert? ==> t.ins in inserts)
    ensures TrailInv(Do(s, t), inserts)
  {
    hide TrailOk;
    hide StoreOk;
    hide Clash;
    match t
    case StartInsert(ins) => TrailAdded(s, ins, inserts);
    case Set(w) => TrailSet(s, w, inserts);
    case GetNext(r) =>
      assert NoClash(s.writers);
      ReaderTrails(s.store, s.writers, s.readers[r]);
    case StartRead(key) => TrailFresh(s.writers, key);
    case Evict(k) => StoreShrinks(s.store, s.writers, k);
    case Delete(key) => StoreShrinks(s.store, s.writers, CtlKey(key));
  }

  lemma TrailFresh(ws: seq<Writer>, key: Key)
    requires key != []
    ensures TrailOk(ws, Reader(key, Begin))
  {
  }

  lemma StoreShrinks(store: Store, ws: seq<Writer>, k: Key)
    requires WritersOk(ws) && StoreOk(store, ws)
    ensures StoreOk(store - {k}, ws)
  {
  }

  lemma {:induction false} TrailRun(s: State, ts: seq<Step>, inserts: set<Insert>)
    requires TrailInv(s, inserts) && Playable(s, ts) && Only(ts, inserts) && Peaceful(inserts)
    ensures TrailInv(Run(s, ts), inserts)
    decreases |ts|
  {
    hide TrailInv;
    hide Do;
    hide Clash;
    if ts != [] {
      assert ts[0].StartInsert? ==> ts[0].ins in inserts;
      TrailKept(s, ts[0], inserts);
      TrailRun(Do(s, ts[0]), ts[1..], inserts);
    }
  }

  // In every run of inserts without a clash, base keys reused or not, no reader is hurt.
  lemma PeacefulReads(ts: seq<Step>, inserts: set<Insert>, r: nat)
    requires Playable(Start, ts) && Only(ts, inserts) && Peaceful(inserts) && r < |Run(Start, ts).readers|
    ensures !Hurt(Run(Start, ts), Run(Start, ts).readers[r])
  {
    TrailRun(Start, ts, inserts);
    var s := Run(Start, ts);
    var x := s.readers[r];
    assert TrailOk(s.writers, x);
    if x.stage != Begin && x.stage != Ended(NotFound) {
      var w :| 0 <= w < |s.writers| && Trails(s.writers[w], x);
    }
  }

  // ---- putting runs together ----

  // The steps lead from s to t and start inserts of this set only.
  predicate Leads(s: State, ts: seq<Step>, t: State, inserts: set<Insert>) {
    Playable(s, ts) && Only(ts, inserts) && Run(s, ts) == t
  }

  lemma {:induction false} Chain(s: State, ts: seq<Step>, t: State, us: seq<Step>, u: State, inserts: set<Insert>)
    requires Leads(s, ts, t, inserts) && Leads(t, us, u, inserts)
    ensures Leads(s, ts + us, u, inserts)
    decreases |ts|
  {
    hide Do;
    hide Enabled;
    if ts == [] {
      assert ts + us == us;
    } else {
      assert (ts + us)[1..] == ts[1..] + us && (ts + us)[0] == ts[0];
      Chain(Do(s, ts[0]), ts[1..], t, us, u, inserts);
    }
  }

  lemma OneStep(s: State, t: Step, inserts: set<Insert>)
    requires Enabled(s, t) && (t.StartInsert? ==> t.ins in inserts)
    ensures Leads(s, [t], Do(s, t), inserts)
  {
    assert [t][1..] == [];
    assert Run(Do(s, t), []) == Do(s, t);
  }

  lemma AndStep(s: State, ts: seq<Step>, t: State, x: Step, inserts: set<Insert>)
    requires Leads(s, ts, t, inserts) && Enabled(t, x) && (x.StartInsert? ==> x.ins in inserts)
    ensures Leads(s, ts + [x], Do(t, x), inserts)
  {
    OneStep(t, x, inserts);
    Chain(s, ts, t, [x], Do(t, x), inserts);
  }

  // A new writer that has stored its first n parts.
  function Writing(s: State, ins: Insert, n: nat): State
    requires n <= ins.Parts()
  {
    s.(store := PartsSet(s.store, ins, n), writers := s.writers + [Writer(ins, n)])
  }

  lemma {:induction false} WriteParts(s: State, ins: Insert, n: nat, inserts: set<Insert>) returns (ts: seq<Step>)
    requires ins.Legal() && n <= ins.Parts() && ins in inserts
    ensures Leads(s, ts, Writing(s, ins, n), inserts)
  {
    hide Leads;
    if n == 0 {
      OneStep(s, StartInsert(ins), inserts);
      ts := [StartInsert(ins)];
    } else {
      var us := WriteParts(s, ins, n - 1, inserts);
      var w := Set(|s.writers|);
      AndStep(s, us, Writing(s, ins, n - 1), w, inserts);
      assert Do(Writing(s, ins, n - 1), w) == Writing(s, ins, n);
      ts := us + [w];
    }
  }

  // A whole insert.
  lemma WriteAll(s: State, ins: Insert, inserts: set<Insert>) returns (ts: seq<Step>, t: State)
    requires ins.Legal() && ins in inserts
    ensures Leads(s, ts, t, inserts)
    ensures t.store == Inserted(s.store, ins) && t.readers == s.readers
    ensures t.writers == s.writers + [Writer(ins, ins.Parts() + 1)]
  {
    hide Leads;
    var n := ins.Parts();
    var us := WriteParts(s, ins, n, inserts);
    var w := Set(|s.writers|);
    AndStep(s, us, Writing(s, ins, n), w, inserts);
    ts, t := us + [w], Do(Writing(s, ins, n), w);
  }

  // Gets of reader r that take it through these stages.
  lemma {:induction false} ReadThrough(s: State, r: nat, stages: seq<Stage>, inserts: set<Insert>) returns (ts: seq<Step>)
    requires r < |s.readers| && stages != [] && s.readers[r].stage == stages[0]
    requires forall k :: 0 <= k < |stages| - 1 ==> stages[k + 1] == Get(s.store, s.readers[r].key, stages[k])
    ensures Leads(s, ts, s.(readers := s.readers[r := s.readers[r].(stage := stages[|stages| - 1])]), inserts)
  {
    hide Leads;
    hide Get;
    var n := |stages| - 1;
    if n == 0 {
      ts := [];
      Stay(s, inserts);
      assert s.readers[r := s.readers[r].(stage := stages[0])] == s.readers;
    } else {
      var us := ReadThrough(s, r, stages[..n], inserts);
      var t := s.(readers := s.readers[r := s.readers[r].(stage := stages[n - 1])]);
      AndStep(s, us, t, GetNext(r), inserts);
      assert stages[n] == Get(s.store, s.readers[r].key, stages[n - 1]);
      assert Do(t, GetNext(r)) == s.(readers := s.readers[r := s.readers[r].(stage := stages[n])]);
      ts := us + [GetNext(r)];
    }
  }

  lemma Stay(s: State, inserts: set<Insert>)
    ensures Leads(s, [], s, inserts)
  {
  }

  // A reader that has the first i parts of an insert.
  lemma ReadSome(a: Insert, i: nat, inserts: set<Insert>) returns (ts: seq<Step>, t: State)
    requires a.Legal() && a.key != [] && i <= a.Parts() && a.Parts() > 0 && a in inserts && Reach(a, i) <= |a.data|
    ensures Leads(Start, ts, t, inserts)
    ensures t.writers == [Writer(a, a.Parts() + 1)] && t.readers == [Reader(a.key, At(a, i))]
    ensures t.store == Inserted(map[], a)
  {
    hide PartsOf;
    hide Leads;
    var us, u := WriteAll(Start, a, inserts);
    AndStep(Start, us, u, StartRead(a.key), inserts);
    var v := Do(u, StartRead(a.key));
    assert v.readers[0] == Reader(a.key, Begin);
    var stages := BeginStages(v.store, a, i);
    var ws := ReadThrough(v, 0, stages, inserts);
    ts := us + [StartRead(a.key)] + ws;
    t := v.(readers := v.readers[0 := v.readers[0].(stage := At(a, i))]);
    Chain(Start, us + [StartRead(a.key)], v, ws, t, inserts);
  }

  // The control record and the first i parts.
  lemma {:induction false} BeginStages(store: Store, a: Insert, i: nat) returns (stages: seq<Stage>)
    requires a.Legal() && i <= a.Parts() && a.Parts() > 0 && store == Inserted(map[], a) && Reach(a, i) <= |a.data|
    ensures |stages| == i + 2 && stages[0] == Begin && stages[i + 1] == At(a, i)
    ensures forall k :: 0 <= k < |stages| - 1 ==> stages[k + 1] == Get(store, a.key, stages[k])
  {
    hide PartsOf;
    hide Get;
    hide Inserted;
    if i == 0 {
      PartsMeanLarge(a);
      InsertedControl(a);
      ControlRead(store, a);
      stages := [Begin, At(a, 0)];
    } else {
      PartEnds(a, i - 1);
      PartJoins(a, i - 1);
      var before := BeginStages(store, a, i - 1);
      InsertedPart(a, i - 1);
      PartRead(store, a, i - 1);
      stages := before + [At(a, i)];
    }
  }

  lemma PartsMeanLarge(a: Insert)
    ensures a.Parts() > 0 <==> |a.data| >= PART
  {
  }

  lemma InsertedControl(a: Insert)
    requires a.Legal()
    ensures CtlKey(a.key) in Inserted(map[], a) && Inserted(map[], a)[CtlKey(a.key)] == a.Control()
  {
  }

  lemma InsertedPart(a: Insert, i: nat)
    requires a.Legal() && i < a.Parts()
    ensures HasPart(Inserted(map[], a), a, i)
  {
    hide PartsOf;
    PartsSetHas(map[], a, a.Parts(), i);
    PartIsNotCtl(a.Base(), i, a.key);
  }

  // ---- a clash hurts: sizes differ ----

  lemma PartsOrder(a: Insert, b: Insert)
    requires |a.data| <= |b.data|
    ensures a.Parts() <= b.Parts()
  {
  }

  // The reader of the shorter insert a whose first k parts came from b.
  function Over(a: Insert, b: Insert, k: nat): Stage
    requires |a.data| < |b.data| && k <= a.Parts() <= b.Parts() && k * PART <= |b.data| + PART
  {
    if k == a.Parts() then if Reach(b, k) > |a.data| then Ended(Overrun) else Ended(Found(b.data[..|a.data|]))
    else Reading(a.Parts(), |a.data|, a.Base(), k, b.data[..if k * PART <= |b.data| then k * PART else 0])
  }

  lemma OverStep(store: Store, a: Insert, b: Insert, k: nat)
    requires |a.data| < |b.data| && !Differ(a, b) && k < a.Parts() <= b.Parts() && HasPart(store, b, k)
    ensures k * PART <= |b.data| && (k + 1) * PART <= |b.data| + PART
    ensures Get(store, a.key, Over(a, b, k)) == Over(a, b, k + 1)
  {
    hide PartsOf;
    SameBase(a, b);
    PartEnds(a, k);
    PartEnds(b, k);
    PartJoins(b, k);
    var acc := b.data[..k * PART] + b.Part(k);
    assert acc == b.data[..Reach(b, k + 1)] && |acc| == Reach(b, k + 1);
  }

  lemma {:induction false} OverStages(store: Store, a: Insert, b: Insert, n: nat) returns (stages: seq<Stage>)
    requires |a.data| < |b.data| && !Differ(a, b) && 0 < a.Parts() <= b.Parts() && n <= a.Parts()
    requires forall k: nat :: k < a.Parts() ==> HasPart(store, b, k)
    ensures n * PART <= |b.data| + PART && |stages| == n + 1 && stages[0] == At(a, 0) && stages[n] == Over(a, b, n)
    ensures forall k :: 0 <= k < |stages| - 1 ==> stages[k + 1] == Get(store, a.key, stages[k])
  {
    hide PartsOf;
    hide Get;
    if n == 0 {
      assert b.data[..0] == a.data[..0];
      stages := [At(a, 0)];
    } else {
      var before := OverStages(store, a, b, n - 1);
      assert HasPart(store, b, n - 1);
      OverStep(store, a, b, n - 1);
      stages := before + [Over(a, b, n)];
    }
  }

  // Equal data has equal parts.
  lemma PrefixParts(a: Insert, b: Insert, i: nat)
    requires i < a.Parts() && i < b.Parts() && |a.data| < |b.data| && |a.data| == a.Parts() * PART
    requires a.data == b.data[..|a.data|]
    ensures a.Part(i) == b.Part(i)
  {
    hide PartsOf;
    assert (i + 1) * PART <= |a.data|;
    assert a.Part(i) == a.data[i * PART..(i + 1) * PART];
    assert b.Part(i) == b.data[i * PART..(i + 1) * PART];
  }

  lemma LongerHurts(a: Insert, b: Insert, i: nat, inserts: set<Insert>) returns (ts: seq<Step>, t: State)
    requires a.Legal() && b.Legal() && a in inserts && b in inserts && !Differ(a, b) && a.key != []
    requires DifferAt(a, b, i) && |a.data| < |b.data|
    ensures Leads(Start, ts, t, inserts) && |t.readers| == 1 && Hurt(t, t.readers[0])
  {
    hide PartsOf;
    hide Leads;
    var n := a.Parts();
    PartsOrder(a, b);
    var us, u := ReadSome(a, 0, inserts);
    var vs := WriteParts(u, b, n, inserts);
    var v := Writing(u, b, n);
    forall k: nat | k < n
      ensures HasPart(v.store, b, k)
    {
      PartsSetHas(u.store, b, n, k);
    }
    var stages := OverStages(v.store, a, b, n);
    var ws := ReadThrough(v, 0, stages, inserts);
    t := v.(readers := v.readers[0 := v.readers[0].(stage := stages[n])]);
    Chain(Start, us, u, vs, v, inserts);
    Chain(Start, us + vs, v, ws, t, inserts);
    ts := us + vs + ws;
    OverEnds(a, b, i);
  }

  // Where such a reader ends: over its buffer, or with data of neither insert.
  lemma OverEnds(a: Insert, b: Insert, i: nat)
    requires |a.data| < |b.data| && a.Parts() <= b.Parts() && DifferAt(a, b, i) && a.Parts() * PART <= |b.data| + PART
    ensures Over(a, b, a.Parts()) == Ended(Overrun)
      || (exists d :: Over(a, b, a.Parts()) == Ended(Found(d)) && d != a.data && d != b.data)
  {
    hide PartsOf;
    var n, d := a.Parts(), b.data[..|a.data|];
    PartEnds(a, n - 1);
    if Reach(b, n) <= |a.data| {
      assert n * PART == |a.data|;
      if d == a.data {
        PrefixParts(a, b, i);
      }
      assert |d| != |b.data|;
      assert Over(a, b, n) == Ended(Found(d));
    }
  }

  // ---- a clash hurts: two parts differ ----

  // A reader that has the first i parts of a while the parts from i to j came from b.
  function Mixed(a: Insert, b: Insert, i: nat, j: nat): Stage
    requires i <= j <= b.Parts() && |a.data| == |b.data| && Reach(b, i) <= Reach(b, j) <= |b.data|
  {
    var acc := a.data[..Reach(b, i)] + b.data[Reach(b, i)..Reach(b, j)];
    if j == b.Parts() then Ended(Found(acc)) else Reading(b.Parts(), |b.data|, b.Base(), j, acc)
  }

  lemma ReachOrder(ins: Insert, i: nat, j: nat)
    requires i <= j <= ins.Parts()
    ensures Reach(ins, i) <= Reach(ins, j) <= |ins.data|
  {
  }

  lemma MixedStep(store: Store, a: Insert, b: Insert, i: nat, j: nat)
    requires i <= j < b.Parts() && |a.data| == |b.data| && HasPart(store, b, j)
    ensures Reach(b, i) <= Reach(b, j) <= Reach(b, j + 1) <= |b.data|
    ensures Get(store, a.key, Mixed(a, b, i, j)) == Mixed(a, b, i, j + 1)
  {
    hide PartsOf;
    ReachOrder(b, i, j);
    ReachOrder(b, j, j + 1);
    PartJoins(b, j);
    var p, q, r := Reach(b, i), Reach(b, j), Reach(b, j + 1);
    assert b.data[p..q] + b.Part(j) == b.data[p..r];
    assert a.data[..p] + b.data[p..q] + b.Part(j) == a.data[..p] + b.data[p..r];
  }

  lemma {:induction false} MixedStages(store: Store, a: Insert, b: Insert, i: nat, j: nat) returns (stages: seq<Stage>)
    requires i <= j <= b.Parts() && 0 < b.Parts() && i < b.Parts() && |a.data| == |b.data| && !Differ(a, b)
    requires forall k: nat :: k < b.Parts() ==> HasPart(store, b, k)
    ensures Reach(b, i) <= Reach(b, j) <= |b.data|
    ensures |stages| == j - i + 1 && stages[0] == At(a, i) && stages[j - i] == Mixed(a, b, i, j)
    ensures forall k :: 0 <= k < |stages| - 1 ==> stages[k + 1] == Get(store, a.key, stages[k])
  {
    hide PartsOf;
    hide Get;
    ReachOrder(b, i, j);
    if j == i {
      SameBase(a, b);
      assert b.data[Reach(b, i)..Reach(b, i)] == [];
      assert a.data[..Reach(a, i)] + [] == a.data[..Reach(a, i)];
      stages := [At(a, i)];
    } else {
      var before := MixedStages(store, a, b, i, j - 1);
      assert HasPart(store, b, j - 1);
      MixedStep(store, a, b, i, j - 1);
      stages := before + [Mixed(a, b, i, j)];
    }
  }

  // The beginning of a with part i, and the end of b with part j, are neither.
  lemma MixIsNeither(a: Insert, b: Insert, i: nat, j: nat)
    requires |a.data| == |b.data| && i < j && DifferAt(a, b, i) && DifferAt(a, b, j)
    ensures Reach(b, i + 1) <= |b.data|
    ensures var d := a.data[..Reach(b, i + 1)] + b.data[Reach(b, i + 1)..|b.data|]; d != a.data && d != b.data
  {
    hide PartsOf;
    ReachOrder(b, i + 1, j);
    PartEnds(b, i);
    PartEnds(b, j);
    var p := Reach(b, i + 1);
    var d := a.data[..p] + b.data[p..|b.data|];
    assert p == (i + 1) * PART <= j * PART;
    var e := if (j + 1) * PART < |b.data| then (j + 1) * PART else |b.data|;
    SliceFront(a.data[..p], b.data[p..|b.data|], i * PART, p);
    SliceBack(a.data[..p], b.data[p..|b.data|], j * PART, e);
    assert d[i * PART..p] == a.Part(i);
    assert d[j * PART..e] == b.Part(j);
    assert a.data[j * PART..e] == a.Part(j) && b.data[i * PART..p] == b.Part(i);
  }

  lemma SliceFront(x: seq<byte>, y: seq<byte>, i: nat, j: nat)
    requires i <= j <= |x|
    ensures (x + y)[i..j] == x[i..j]
  {
  }

  lemma SliceBack(x: seq<byte>, y: seq<byte>, i: nat, j: nat)
    requires |x| <= i <= j <= |x| + |y|
    ensures (x + y)[i..j] == y[i - |x|..j - |x|]
  {
  }

  lemma MixHurts(a: Insert, b: Insert, i: nat, j: nat, inserts: set<Insert>) returns (ts: seq<Step>, t: State)
    requires a.Legal() && b.Legal() && a in inserts && b in inserts && !Differ(a, b) && a.key != []
    requires |a.data| == |b.data| && i < j && DifferAt(a, b, i) && DifferAt(a, b, j)
    ensures Leads(Start, ts, t, inserts) && |t.readers| == 1 && Hurt(t, t.readers[0])
  {
    hide PartsOf;
    hide Leads;
    var n := b.Parts();
    ReachOrder(a, i + 1, n);
    var us, u := ReadSome(a, i + 1, inserts);
    var vs := WriteParts(u, b, n, inserts);
    var v := Writing(u, b, n);
    forall k: nat | k < n
      ensures HasPart(v.store, b, k)
    {
      PartsSetHas(u.store, b, n, k);
    }
    var stages := MixedStages(v.store, a, b, i + 1, n);
    var ws := ReadThrough(v, 0, stages, inserts);
    t := v.(readers := v.readers[0 := v.readers[0].(stage := stages[n - (i + 1)])]);
    Chain(Start, us, u, vs, v, inserts);
    Chain(Start, us + vs, v, ws, t, inserts);
    ts := us + vs + ws;
    MixIsNeither(a, b, i, j);
  }

  // ---- exactly the clashes hurt ----

  lemma ClashHurts(a: Insert, b: Insert, inserts: set<Insert>) returns (ts: seq<Step>, t: State)
    requires a.Legal() && b.Legal() && a in inserts && b in inserts && Clash(a, b)
    ensures Leads(Start, ts, t, inserts) && |t.readers| == 1 && Hurt(t, t.readers[0])
  {
    hide Leads;
    hide Hurt;
    var i: nat :| i < a.Parts() && DifferAt(a, b, i)
      && (|a.data| != |b.data| || exists j :: 0 <= j < a.Parts() && j != i && DifferAt(a, b, j));
    if |a.data| < |b.data| {
      ts, t := LongerHurts(a, b, i, inserts);
    } else if |b.data| < |a.data| {
      assert DifferAt(b, a, i);
      ts, t := LongerHurts(b, a, i, inserts);
    } else {
      var j: nat :| j < a.Parts() && j != i && DifferAt(a, b, j);
      if i < j {
        ts, t := MixHurts(a, b, i, j, inserts);
      } else {
        ts, t := MixHurts(a, b, j, i, inserts);
      }
    }
  }

  // Some run of these inserts hurts a reader.
  ghost predicate CanHurt(inserts: set<Insert>) {
    exists ts, r: nat :: Hurts(ts, r, inserts)
  }

  ghost predicate Hurts(ts: seq<Step>, r: nat, inserts: set<Insert>) {
    Playable(Start, ts) && Only(ts, inserts) && r < |Run(Start, ts).readers|
    && Hurt(Run(Start, ts), Run(Start, ts).readers[r])
  }

  // With the inserts known before, whether a reader can be hurt is a question of their keys, processes,
  // seconds, sizes and data alone, whatever the order of the gets and sets, crashes and evictions.
  lemma ReuseHurtsExactly(inserts: set<Insert>)
    requires forall a :: a in inserts ==> a.Legal()
    ensures CanHurt(inserts) <==> exists a, b :: a in inserts && b in inserts && Clash(a, b)
  {
    hide Clash;
    hide Hurt;
    if CanHurt(inserts) && Peaceful(inserts) {
      var ts, r: nat :| Hurts(ts, r, inserts);
      PeacefulReads(ts, inserts, r);
    }
    if !Peaceful(inserts) {
      var a, b :| a in inserts && b in inserts && Clash(a, b);
      var ts, t := ClashHurts(a, b, inserts);
      assert Hurts(ts, 0, inserts);
    }
  }

  // Two seconds are enough to be safe; one second is not: two values of two parts, of one size or of two.
  lemma ClashExamples(key: Key, pid: nat, time: nat)
    requires key != []
    ensures var a := Insert(key, seq(1_000_001, _ => 1), pid, time);
      && Clash(a, Insert(key, seq(1_000_001, _ => 2), pid, time))
      && Clash(a, Insert(key, seq(1_000_002, _ => 2), pid, time))
      && !Clash(a, Insert(key, seq(1_000_002, _ => 2), pid, time + 1))
  {
    var a := Insert(key, seq(1_000_001, _ => 1), pid, time);
    var b := Insert(key, seq(1_000_001, _ => 2), pid, time);
    var c := Insert(key, seq(1_000_002, _ => 2), pid, time);
    assert a.Part(0)[0] == 1 && b.Part(0)[0] == 2 && c.Part(0)[0] == 2;
    assert a.Part(1)[0] == 1 && b.Part(1)[0] == 2;
    assert DifferAt(a, b, 0) && DifferAt(a, b, 1) && DifferAt(a, c, 0);
  }
}
