// Writers, readers, crashes and evictions interleaved at single gets and sets.
module CacheProtocol {
  import opened Bytes
  import opened CacheKeys
  import opened CacheStore

  // A writer and the number of its completed sets. One that stops for good has crashed.
  datatype Writer = Writer(ins: Insert, sets: nat)
  {
    predicate Published() {
      sets > ins.Parts()
    }
  }

  datatype Reader = Reader(key: Key, stage: Stage)

  datatype State = State(store: Store, writers: seq<Writer>, readers: seq<Reader>)

  datatype Step =
    | StartInsert(ins: Insert)
    | Set(w: nat)
    | StartRead(key: Key)
    | GetNext(r: nat)
    | Evict(k: Key)
    | Delete(key: Key)

  const Start := State(map[], [], [])

  // The next set of a writer: the parts in order, then the control record.
  function Write(store: Store, w: Writer): Store
    requires w.ins.Legal() && !w.Published()
  {
    if w.sets < w.ins.Parts() then store[PartKey(w.ins.Base(), w.sets) := Record(w.ins.Part(w.sets), false)]
    else store[CtlKey(w.ins.key) := w.ins.Control()]
  }

  // The two calls of InsertData do not share key, process and second.
  predicate Differ(a: Insert, b: Insert) {
    a.key != b.key || a.pid != b.pid || a.time != b.time
  }

  predicate Enabled(s: State, t: Step) {
    match t
    case StartInsert(ins) => ins.Legal()
    case Set(w) => w < |s.writers| && s.writers[w].ins.Legal() && !s.writers[w].Published()
    case StartRead(key) => 0 < |key| <= MAX_KEY
    case GetNext(r) => r < |s.readers|
    case Evict(_) => true
    case Delete(_) => true
  }

  // A new insert builds a base key of its own.
  predicate Fresh(s: State, t: Step) {
    t.StartInsert? ==> forall w :: 0 <= w < |s.writers| ==> Differ(s.writers[w].ins, t.ins)
  }

  function Do(s: State, t: Step): State
    requires Enabled(s, t)
  {
    match t
    case StartInsert(ins) => s.(writers := s.writers + [Writer(ins, 0)])
    case Set(w) =>
      var x := s.writers[w];
      s.(store := Write(s.store, x), writers := s.writers[w := x.(sets := x.sets + 1)])
    case StartRead(key) => s.(readers := s.readers + [Reader(key, Begin)])
    case GetNext(r) =>
      var x := s.readers[r];
      s.(readers := s.readers[r := x.(stage := Get(s.store, x.key, x.stage))])
    case Evict(k) => s.(store := s.store - {k})
    case Delete(key) => s.(store := s.store - {CtlKey(key)})
  }

  // ---- the invariant ----

  // The writer w has stored this record under this key.
  predicate Wrote(w: Writer, k: Key, rec: Record)
    requires w.ins.Legal()
  {
    (w.Published() && k == CtlKey(w.ins.key) && rec == w.ins.Control())
    || exists i: nat ::
      i < w.ins.Parts() && i < w.sets && k == PartKey(w.ins.Base(), i) && rec == Record(w.ins.Part(i), false)
  }

  predicate WritersOk(ws: seq<Writer>) {
    forall w :: 0 <= w < |ws| ==> ws[w].ins.Legal() && ws[w].sets <= ws[w].ins.Parts() + 1
  }

  // Every writer has a base key of its own.
  predicate AllApart(ws: seq<Writer>) {
    forall v, w :: 0 <= v < w < |ws| ==> Differ(ws[v].ins, ws[w].ins)
  }

  predicate Justified(ws: seq<Writer>, k: Key, rec: Record)
    requires WritersOk(ws)
  {
    exists w :: 0 <= w < |ws| && Wrote(ws[w], k, rec)
  }

  predicate StoreOk(store: Store, ws: seq<Writer>)
    requires WritersOk(ws)
  {
    forall k :: k in store ==> Justified(ws, k, store[k])
  }

  // The reader is on its way through the parts of one published insert of its key, or has its data.
  predicate Follows(w: Writer, r: Reader) {
    w.Published() && w.ins.key == r.key
    && exists i: nat :: i <= w.ins.Parts() && Reach(w.ins, i) <= |w.ins.data| && r.stage == At(w.ins, i)
  }

  predicate ReaderOk(ws: seq<Writer>, r: Reader) {
    r.stage == Begin || r.stage == Ended(NotFound) || exists w :: 0 <= w < |ws| && Follows(ws[w], r)
  }

  predicate Inv(s: State) {
    WritersOk(s.writers) && AllApart(s.writers) && StoreOk(s.store, s.writers)
    && forall r :: 0 <= r < |s.readers| ==> ReaderOk(s.writers, s.readers[r])
  }

  // ---- what writers do to the invariant ----

  // Writers are added, and their sets increase.
  predicate Later(ws: seq<Writer>, xs: seq<Writer>) {
    |ws| <= |xs| && forall w :: 0 <= w < |ws| ==> xs[w].ins == ws[w].ins && xs[w].sets >= ws[w].sets
  }

  lemma JustifiedLater(ws: seq<Writer>, xs: seq<Writer>, k: Key, rec: Record)
    requires WritersOk(ws) && WritersOk(xs) && Later(ws, xs) && Justified(ws, k, rec)
    ensures Justified(xs, k, rec)
  {
    var w :| 0 <= w < |ws| && Wrote(ws[w], k, rec);
    assert Wrote(xs[w], k, rec);
  }

  lemma ReaderLater(ws: seq<Writer>, xs: seq<Writer>, r: Reader)
    requires Later(ws, xs) && ReaderOk(ws, r)
    ensures ReaderOk(xs, r)
  {
    if r.stage != Begin && r.stage != Ended(NotFound) {
      var w :| 0 <= w < |ws| && Follows(ws[w], r);
      assert Follows(xs[w], r);
    }
  }

  lemma StoreAdded(store: Store, ws: seq<Writer>, ins: Insert)
    requires WritersOk(ws) && StoreOk(store, ws) && ins.Legal()
    ensures WritersOk(ws + [Writer(ins, 0)]) && StoreOk(store, ws + [Writer(ins, 0)])
  {
    hide Justified;
    var xs := ws + [Writer(ins, 0)];
    forall k | k in store
      ensures Justified(xs, k, store[k])
    {
      JustifiedLater(ws, xs, k, store[k]);
    }
  }

  lemma AddedWriter(s: State, ins: Insert)
    requires Inv(s) && ins.Legal() && Fresh(s, StartInsert(ins))
    ensures Inv(Do(s, StartInsert(ins)))
  {
    hide StoreOk;
    hide ReaderOk;
    var xs := s.writers + [Writer(ins, 0)];
    StoreAdded(s.store, s.writers, ins);
    forall r | 0 <= r < |s.readers|
      ensures ReaderOk(xs, s.readers[r])
    {
      ReaderLater(s.writers, xs, s.readers[r]);
    }
  }

  lemma WrittenIsJustified(ws: seq<Writer>, w: nat, store: Store)
    requires WritersOk(ws) && w < |ws| && !ws[w].Published()
    requires WritersOk(ws[w := ws[w].(sets := ws[w].sets + 1)])
    ensures var k := if ws[w].sets < ws[w].ins.Parts() then PartKey(ws[w].ins.Base(), ws[w].sets) else CtlKey(ws[w].ins.key);
      Write(store, ws[w]) == store[k := Write(store, ws[w])[k]]
      && Justified(ws[w := ws[w].(sets := ws[w].sets + 1)], k, Write(store, ws[w])[k])
  {
    var x := ws[w].(sets := ws[w].sets + 1);
    var k := if ws[w].sets < ws[w].ins.Parts() then PartKey(ws[w].ins.Base(), ws[w].sets) else CtlKey(ws[w].ins.key);
    assert Wrote(x, k, Write(store, ws[w])[k]);
    assert ws[w := x][w] == x;
  }

  lemma StoreWritten(store: Store, ws: seq<Writer>, w: nat)
    requires WritersOk(ws) && StoreOk(store, ws) && w < |ws| && !ws[w].Published()
    ensures var xs := ws[w := ws[w].(sets := ws[w].sets + 1)];
      WritersOk(xs) && Later(ws, xs) && StoreOk(Write(store, ws[w]), xs)
  {
    hide Justified;
    hide Write;
    var xs := ws[w := ws[w].(sets := ws[w].sets + 1)];
    WrittenIsJustified(ws, w, store);
    var after := Write(store, ws[w]);
    forall k | k in after
      ensures Justified(xs, k, after[k])
    {
      if k in store && store[k] == after[k] {
        JustifiedLater(ws, xs, k, store[k]);
      }
    }
  }

  lemma SetWriter(s: State, w: nat)
    requires Inv(s) && Enabled(s, Set(w))
    ensures Inv(Do(s, Set(w)))
  {
    hide StoreOk;
    hide ReaderOk;
    hide Write;
    var x := s.writers[w];
    var xs := s.writers[w := x.(sets := x.sets + 1)];
    StoreWritten(s.store, s.writers, w);
    forall r | 0 <= r < |s.readers|
      ensures ReaderOk(xs, s.readers[r])
    {
      ReaderLater(s.writers, xs, s.readers[r]);
    }
  }

  // ---- what readers see ----

  // A control key leads to a published insert of that key.
  lemma ControlSeen(store: Store, ws: seq<Writer>, key: Key) returns (w: nat)
    requires WritersOk(ws) && StoreOk(store, ws) && CtlKey(key) in store
    ensures w < |ws| && ws[w].Published() && ws[w].ins.key == key && store[CtlKey(key)] == ws[w].ins.Control()
  {
    var k := CtlKey(key);
    assert Justified(ws, k, store[k]);
    w :| 0 <= w < |ws| && Wrote(ws[w], k, store[k]);
    var x := ws[w];
    if x.Published() && k == CtlKey(x.ins.key) && store[k] == x.ins.Control() {
      CtlKeysDiffer(key, x.ins.key);
    } else {
      var i: nat :| i < x.ins.Parts() && k == PartKey(x.ins.Base(), i);
      PartIsNotCtl(x.ins.Base(), i, key);
    }
  }

  // A part key leads to that very part of some insert with that base key.
  lemma PartWritten(store: Store, ws: seq<Writer>, ins: Insert, i: nat) returns (v: nat)
    requires WritersOk(ws) && StoreOk(store, ws) && i < ins.Parts() && PartKey(ins.Base(), i) in store
    ensures v < |ws| && !Differ(ins, ws[v].ins) && i < ws[v].ins.Parts() && HasPart(store, ws[v].ins, i)
  {
    hide BaseKey;
    var k := PartKey(ins.Base(), i);
    assert Justified(ws, k, store[k]);
    v :| 0 <= v < |ws| && Wrote(ws[v], k, store[k]);
    var x := ws[v].ins;
    if ws[v].Published() && k == CtlKey(x.key) && store[k] == x.Control() {
      PartIsNotCtl(ins.Base(), i, x.key);
    } else {
      var j: nat :| j < x.Parts() && k == PartKey(x.Base(), j) && store[k] == Record(x.Part(j), false);
      SamePart(ins, i, x, j);
    }
  }

  // With base keys of their own, it is the part of that very insert.
  lemma PartSeen(store: Store, ws: seq<Writer>, w: nat, i: nat)
    requires WritersOk(ws) && AllApart(ws) && StoreOk(store, ws) && w < |ws| && i < ws[w].ins.Parts()
    requires PartKey(ws[w].ins.Base(), i) in store
    ensures HasPart(store, ws[w].ins, i)
  {
    var v := PartWritten(store, ws, ws[w].ins, i);
    AllDiffer(ws, w, v);
  }

  lemma AllDiffer(ws: seq<Writer>, v: nat, w: nat)
    requires AllApart(ws) && v < |ws| && w < |ws|
    ensures v != w ==> Differ(ws[v].ins, ws[w].ins)
  {
    if w < v {
      assert Differ(ws[w].ins, ws[v].ins);
    }
  }

  lemma SamePart(a: Insert, i: nat, b: Insert, j: nat)
    requires PartKey(a.Base(), i) == PartKey(b.Base(), j)
    ensures i == j && !Differ(a, b)
  {
    IsBaseKey(a);
    IsBaseKey(b);
    PartKeysDiffer(a.Base(), i, b.Base(), j);
    BaseKeysDiffer(a.key, a.pid, a.time, b.key, b.pid, b.time);
  }

  lemma ReaderSteps(store: Store, ws: seq<Writer>, r: Reader)
    requires WritersOk(ws) && AllApart(ws) && StoreOk(store, ws) && ReaderOk(ws, r)
    ensures ReaderOk(ws, r.(stage := Get(store, r.key, r.stage)))
  {
    if r.stage == Begin {
      BeginSteps(store, ws, r.key);
    } else if r.stage != Ended(NotFound) {
      var w :| 0 <= w < |ws| && Follows(ws[w], r);
      FollowSteps(store, ws, w, r);
    }
  }

  lemma BeginSteps(store: Store, ws: seq<Writer>, key: Key)
    requires WritersOk(ws) && StoreOk(store, ws)
    ensures ReaderOk(ws, Reader(key, Get(store, key, Begin)))
  {
    hide StoreOk;
    hide Justified;
    if CtlKey(key) in store {
      var w := ControlSeen(store, ws, key);
      ControlRead(store, ws[w].ins);
      assert Get(store, key, Begin) == At(ws[w].ins, 0);
      assert Follows(ws[w], Reader(key, Get(store, key, Begin)));
    }
  }

  lemma FollowSteps(store: Store, ws: seq<Writer>, w: nat, r: Reader)
    requires WritersOk(ws) && AllApart(ws) && StoreOk(store, ws) && w < |ws| && Follows(ws[w], r)
    ensures ReaderOk(ws, r.(stage := Get(store, r.key, r.stage)))
  {
    hide StoreOk;
    hide Justified;
    var ins := ws[w].ins;
    var after := r.(stage := Get(store, r.key, r.stage));
    var i: nat :| i <= ins.Parts() && Reach(ins, i) <= |ins.data| && r.stage == At(ins, i);
    if i == ins.Parts() {
      assert Follows(ws[w], after);
    } else if PartKey(ins.Base(), i) in store {
      PartSeen(store, ws, w, i);
      PartRead(store, ins, i);
      assert Follows(ws[w], after);
    }
  }

  lemma GetReader(s: State, r: nat)
    requires Inv(s) && Enabled(s, GetNext(r))
    ensures Inv(Do(s, GetNext(r)))
  {
    hide StoreOk;
    hide ReaderOk;
    ReaderSteps(s.store, s.writers, s.readers[r]);
  }

  // ---- every run ----

  lemma InvKept(s: State, t: Step)
    requires Inv(s) && Enabled(s, t) && Fresh(s, t)
    ensures Inv(Do(s, t))
  {
    match t
    case StartInsert(ins) => AddedWriter(s, ins);
    case Set(w) => SetWriter(s, w);
    case GetNext(r) => GetReader(s, r);
    case StartRead(key) => assert ReaderOk(s.writers, Reader(key, Begin));
    case Evict(k) =>
    case Delete(key) =>
  }

  predicate Playable(s: State, ts: seq<Step>)
    decreases |ts|
  {
    ts == [] || (Enabled(s, ts[0]) && Playable(Do(s, ts[0]), ts[1..]))
  }

  function Run(s: State, ts: seq<Step>): State
    requires Playable(s, ts)
    decreases |ts|
  {
    if ts == [] then s else Run(Do(s, ts[0]), ts[1..])
  }

  // No insert of the run reuses a base key.
  predicate AllFresh(s: State, ts: seq<Step>)
    requires Playable(s, ts)
    decreases |ts|
  {
    ts == [] || (Fresh(s, ts[0]) && AllFresh(Do(s, ts[0]), ts[1..]))
  }

  lemma {:induction false} RunKeeps(s: State, ts: seq<Step>)
    requires Inv(s) && Playable(s, ts) && AllFresh(s, ts)
    ensures Inv(Run(s, ts))
    decreases |ts|
  {
    hide Inv;
    hide Do;
    if ts != [] {
      InvKept(s, ts[0]);
      RunKeeps(Do(s, ts[0]), ts[1..]);
    }
  }

  // A reader that succeeds has the whole data of one published insert of its key; it never sees corrupt
  // data and never writes behind its buffer.
  lemma CompleteReads(ts: seq<Step>, r: nat)
    requires Playable(Start, ts) && AllFresh(Start, ts) && r < |Run(Start, ts).readers|
    ensures var s := Run(Start, ts);
      var x := s.readers[r];
      && x.stage != Ended(Corrupt) && x.stage != Ended(Overrun)
      && (x.stage.Ended? && x.stage.reply.Found? ==>
            exists w :: 0 <= w < |s.writers| && s.writers[w].Published() && s.writers[w].ins.key == x.key
              && s.writers[w].ins.data == x.stage.reply.data)
  {
    RunKeeps(Start, ts);
    var s := Run(Start, ts);
    var x := s.readers[r];
    assert ReaderOk(s.writers, x);
    if x.stage != Begin && x.stage != Ended(NotFound) {
      var w :| 0 <= w < |s.writers| && Follows(s.writers[w], x);
    }
  }

  // ---- what a writer changes for others ----

  // The parts of an insert are invisible before its control record: no key is answered differently.
  lemma PartsInvisible(s: State, w: nat, key: Key)
    requires Inv(s) && Enabled(s, Set(w)) && s.writers[w].sets < s.writers[w].ins.Parts()
    ensures Answer(Do(s, Set(w)).store, key) == Answer(s.store, key)
  {
    hide Answer;
    var ins, n := s.writers[w].ins, s.writers[w].sets;
    var a, b := s.store, Do(s, Set(w)).store;
    PartIsNotCtl(ins.Base(), n, key);
    if Get(a, key, Begin).Reading? {
      var v := ControlSeen(a, s.writers, key);
      ControlRead(a, s.writers[v].ins);
      forall i
        ensures SameAt(a, b, PartKey(Get(a, key, Begin).base, i))
      {
        OtherBase(s.writers, v, w, i, n);
      }
    }
    AnswerAgrees(a, b, key);
  }

  // Readers already on their way end as they would have.
  lemma PartsDisturbNobody(s: State, w: nat, r: nat)
    requires Inv(s) && Enabled(s, Set(w)) && s.writers[w].sets < s.writers[w].ins.Parts() && r < |s.readers|
    ensures var x := s.readers[r];
      Finish(Do(s, Set(w)).store, x.key, x.stage) == Finish(s.store, x.key, x.stage)
  {
    var x := s.readers[r];
    assert ReaderOk(s.writers, x);
    if x.stage == Begin {
      PartsInvisible(s, w, x.key);
    } else if x.stage.Reading? {
      var v :| 0 <= v < |s.writers| && Follows(s.writers[v], x);
      forall i
        ensures SameAt(Do(s, Set(w)).store, s.store, PartKey(x.stage.base, i))
      {
        OtherBase(s.writers, v, w, i, s.writers[w].sets);
      }
      FinishAgrees(Do(s, Set(w)).store, s.store, x.key, x.stage);
    }
  }

  lemma OtherBase(ws: seq<Writer>, v: nat, w: nat, i: nat, n: nat)
    requires AllApart(ws) && v < |ws| && w < |ws| && v != w
    ensures PartKey(ws[v].ins.Base(), i) != PartKey(ws[w].ins.Base(), n)
  {
    hide BaseKey;
    AllDiffer(ws, v, w);
    if PartKey(ws[v].ins.Base(), i) == PartKey(ws[w].ins.Base(), n) {
      SamePart(ws[v].ins, i, ws[w].ins, n);
    }
  }

  // The control record publishes the insert at once, and changes no other key.
  lemma ControlPublishes(s: State, w: nat, key: Key)
    requires Inv(s) && Enabled(s, Set(w)) && s.writers[w].sets == s.writers[w].ins.Parts()
    requires forall j: nat :: j < s.writers[w].ins.Parts() ==> HasPart(s.store, s.writers[w].ins, j)
    ensures var ins, b := s.writers[w].ins, Do(s, Set(w)).store;
      Answer(b, key) == if key == ins.key then Found(ins.data) else Answer(s.store, key)
  {
    hide Answer;
    var ins, b := s.writers[w].ins, Do(s, Set(w)).store;
    if key == ins.key {
      forall j: nat | j < ins.Parts()
        ensures HasPart(b, ins, j)
      {
        assert HasPart(s.store, ins, j);
        PartIsNotCtl(ins.Base(), j, key);
      }
      CompleteRead(b, ins);
    } else {
      OnlyControl(s.store, b, ins.key, key);
    }
  }
}
