// Children and master joined by a status pipe, which a restart of the children replaces by a new one.
module ProcessProtocol {
  import opened ProcessTable
  import ChildServer

  // A process that was forked: whether it still runs, whether it can take a client, whether its pipe was
  // closed by a restart, and whether one of its messages could not be written. Stale: when it was forked, the
  // last pending message under its pid, of an earlier child, said TAKEN, and it has written nothing since.
  datatype Kid = Kid(alive: bool, avail: bool, cut: bool, leaving: bool, stale: bool)

  // The master's table, the pipe in the order of writing, and all processes ever forked.
  datatype World = World(table: Table, pipe: seq<Status>, kids: map<int, Kid>)

  datatype Step =
    | Fork(pid: int)
    | ForkFails
    | Accept(pid: int, written: bool)
    | Finish(pid: int, written: bool)
    | Exit(pid: int)
    | Receive
    | Bury(pid: int)
    | Grow(n: nat)
    | Restart

  predicate Runs(w: World, pid: int) {
    pid in w.kids && w.kids[pid].alive
  }

  // The pid of a buried child may be used again; a child accepts when it is free and finishes what it accepted;
  // an exited child is buried. Nobody reads a closed pipe, so nothing can be written there.
  predicate Enabled(w: World, t: Step) {
    match t
    case Fork(pid) => pid > 0 && !Runs(w, pid) && !Knows(w.table, pid) && FreeSlot(w.table) < |w.table|
    case ForkFails => FreeSlot(w.table) < |w.table|
    case Accept(pid, written) =>
      Runs(w, pid) && w.kids[pid].avail && !w.kids[pid].leaving && (written ==> !w.kids[pid].cut)
    case Finish(pid, written) => Runs(w, pid) && !w.kids[pid].avail && (written ==> !w.kids[pid].cut)
    case Exit(pid) => Runs(w, pid)
    case Receive => w.pipe != []
    case Bury(pid) => pid in w.kids && !w.kids[pid].alive
    case Grow(_) => true
    case Restart => true
  }

  // The child pid changes to avail and writes that, or fails to.
  function Told(w: World, pid: int, avail: bool, written: bool): World
    requires pid in w.kids
  {
    var k := w.kids[pid];
    w.(pipe := w.pipe + (if written then [Status(pid, avail)] else []),
       kids := w.kids[pid := k.(avail := avail, leaving := k.leaving || !written, stale := k.stale && !written)])
  }

  function Do(w: World, t: Step): World
    requires Enabled(w, t)
  {
    match t
    case Fork(pid) =>
      w.(table := Spawned(w.table, pid),
         kids := w.kids[pid := Kid(true, true, false, false, !Replay(w.pipe, pid, true))])
    case ForkFails => w.(table := Spawned(w.table, -1))
    case Accept(pid, written) => Told(w, pid, false, written)
    case Finish(pid, written) => Told(w, pid, true, written)
    case Exit(pid) => w.(kids := w.kids[pid := w.kids[pid].(alive := false)])
    case Receive => w.(table := Noted(w.table, w.pipe[0]), pipe := w.pipe[1..])
    case Bury(pid) => w.(table := Buried(w.table, pid))
    case Grow(n) => w.(table := w.table + seq(n, _ => NOTHING))
    case Restart => w.(pipe := [], kids := map pid | pid in w.kids :: w.kids[pid].(cut := true))
  }

  // The flag after the messages of one child.
  function Replay(pipe: seq<Status>, pid: int, flag: bool): bool {
    if pipe == [] then flag else Replay(pipe[1..], pid, if pipe[0].pid == pid then pipe[0].avail else flag)
  }

  lemma {:induction false} ReplayAppend(pipe: seq<Status>, pid: int, flag: bool, s: Status)
    ensures Replay(pipe + [s], pid, flag) == if s.pid == pid then s.avail else Replay(pipe, pid, flag)
  {
    if pipe != [] {
      assert (pipe + [s])[1..] == pipe[1..] + [s];
      ReplayAppend(pipe[1..], pid, if pipe[0].pid == pid then pipe[0].avail else flag, s);
    }
  }

  // Replaying what is pending over the master's flag gives the truth about a running child.
  predicate Tracked(w: World, pid: int) {
    pid in w.kids && Knows(w.table, pid)
    && Replay(w.pipe, pid, w.table[SlotOf(w.table, pid)].avail) == w.kids[pid].avail
  }

  // That is so unless the child is stale, and then it has not accepted yet.
  predicate Followed(w: World, pid: int) {
    pid in w.kids && (Tracked(w, pid) <==> !w.kids[pid].stale) && (w.kids[pid].stale ==> w.kids[pid].avail)
  }

  // A child whose messages all went to the pipe the master reads.
  predicate Reports(w: World, pid: int) {
    Runs(w, pid) && !w.kids[pid].cut && !w.kids[pid].leaving
  }

  // Every slot, message and process has a positive pid that was forked, and messages are those of children
  // of this pipe.
  predicate Known(w: World) {
    && Unique(w.table)
    && (forall i :: 0 <= i < |w.table| && w.table[i].pid > 0 ==> w.table[i].pid in w.kids)
    && (forall i :: 0 <= i < |w.pipe| ==> w.pipe[i].pid in w.kids && !w.kids[w.pipe[i].pid].cut)
    && forall pid :: pid in w.kids ==> pid > 0
  }

  ghost predicate Inv(w: World) {
    Known(w) && forall pid :: Runs(w, pid) ==> Knows(w.table, pid) && (Reports(w, pid) ==> Followed(w, pid))
  }

  function Start(slots: nat): World {
    World(seq(slots, _ => NOTHING), [], map[])
  }

  // ---- the slot of a child ----

  lemma SlotIs(fs: Table, i: nat)
    requires Unique(fs) && i < |fs| && fs[i].pid > 0
    ensures SlotOf(fs, fs[i].pid) == i
  {
    var k := SlotOf(fs, fs[i].pid);
    assert k <= i && fs[k].pid == fs[i].pid;
  }

  // A slot that still holds its child is still the slot of that child.
  lemma SlotKept(fs: Table, after: Table, pid: int)
    requires Unique(after) && pid > 0 && Knows(fs, pid)
    requires SlotOf(fs, pid) < |after| && after[SlotOf(fs, pid)].pid == pid
    ensures SlotOf(after, pid) == SlotOf(fs, pid)
  {
    SlotIs(after, SlotOf(fs, pid));
  }

  lemma SpawnTracked(w: World, pid: int)
    requires Inv(w) && Enabled(w, Fork(pid))
    ensures Inv(Do(w, Fork(pid)))
  {
    hide Unique;
    hide Replay;
    var after := Do(w, Fork(pid));
    var i := FreeSlot(w.table);
    UniqueKept(w.table, pid, Status(0, true));
    SlotIs(after.table, i);
    forall q | Runs(after, q)
      ensures Knows(after.table, q) && (Reports(after, q) ==> Followed(after, q))
    {
      if q != pid {
        assert Runs(w, q);
        SlotKept(w.table, after.table, q);
      }
    }
  }

  lemma FailTracked(w: World)
    requires Inv(w) && Enabled(w, ForkFails)
    ensures Inv(Do(w, ForkFails))
  {
    hide Unique;
    hide Replay;
    var after := Do(w, ForkFails);
    UniqueKept(w.table, -1, Status(0, true));
    forall q | Runs(after, q)
      ensures Knows(after.table, q) && (Reports(after, q) ==> Followed(after, q))
    {
      assert Runs(w, q);
      SlotKept(w.table, after.table, q);
    }
  }

  lemma {:induction false} NoMessages(pipe: seq<Status>, pid: int, flag: bool)
    requires forall i :: 0 <= i < |pipe| ==> pipe[i].pid != pid
    ensures Replay(pipe, pid, flag) == flag
  {
    if pipe != [] {
      NoMessages(pipe[1..], pid, flag);
    }
  }

  lemma MessageTracked(w: World, pid: int, avail: bool, written: bool)
    requires Inv(w) && Runs(w, pid) && (written ==> !w.kids[pid].cut)
    ensures Inv(Told(w, pid, avail, written))
  {
    hide Unique;
    hide Replay;
    hide SlotOf;
    var after := Told(w, pid, avail, written);
    forall q | Runs(after, q)
      ensures Knows(after.table, q) && (Reports(after, q) ==> Followed(after, q))
    {
      assert Runs(w, q);
      if written {
        ReplayAppend(w.pipe, q, w.table[SlotOf(w.table, q)].avail, Status(pid, avail));
      } else {
        assert w.pipe + [] == w.pipe;
      }
    }
  }

  // A message changes the flag of its child and of no other.
  lemma NotedFlag(fs: Table, s: Status, q: int)
    requires Unique(fs) && q > 0 && Knows(fs, q)
    ensures Knows(Noted(fs, s), q)
    ensures Noted(fs, s)[SlotOf(Noted(fs, s), q)].avail == if s.pid == q then s.avail else fs[SlotOf(fs, q)].avail
  {
    hide Unique;
    UniqueKept(fs, 0, s);
    SlotKept(fs, Noted(fs, s), q);
  }

  lemma ReplayHead(pipe: seq<Status>, pid: int, flag: bool)
    requires pipe != []
    ensures Replay(pipe, pid, flag) == Replay(pipe[1..], pid, if pipe[0].pid == pid then pipe[0].avail else flag)
  {
  }

  lemma ReceiveTracked(w: World)
    requires Inv(w) && w.pipe != []
    ensures Inv(Do(w, Receive))
  {
    hide Unique;
    hide Replay;
    hide SlotOf;
    var after, s := Do(w, Receive), w.pipe[0];
    UniqueKept(w.table, 0, s);
    forall q | Runs(after, q)
      ensures Knows(after.table, q) && (Reports(after, q) ==> Followed(after, q))
    {
      hide Noted;
      assert Runs(w, q);
      NotedFlag(w.table, s, q);
      ReplayHead(w.pipe, q, w.table[SlotOf(w.table, q)].avail);
    }
  }

  lemma BuryTracked(w: World, pid: int)
    requires Inv(w) && Enabled(w, Bury(pid))
    ensures Inv(Do(w, Bury(pid)))
  {
    hide Unique;
    hide Replay;
    var after := Do(w, Bury(pid));
    UniqueKept(w.table, 0, Status(pid, true));
    forall q | Runs(after, q)
      ensures Knows(after.table, q) && (Reports(after, q) ==> Followed(after, q))
    {
      assert Runs(w, q);
      SlotKept(w.table, after.table, q);
    }
  }

  lemma GrowTracked(w: World, n: nat)
    requires Inv(w)
    ensures Inv(Do(w, Grow(n)))
  {
    hide Unique;
    hide Replay;
    var after := Do(w, Grow(n));
    UniqueGrows(w.table, n);
    forall q | Runs(after, q)
      ensures Knows(after.table, q) && (Reports(after, q) ==> Followed(after, q))
    {
      assert Runs(w, q);
      SlotKept(w.table, after.table, q);
    }
  }

  lemma InvKept(w: World, t: Step)
    requires Inv(w) && Enabled(w, t)
    ensures Inv(Do(w, t))
  {
    hide Inv;
    match t
    case Fork(pid) => SpawnTracked(w, pid);
    case ForkFails => FailTracked(w);
    case Accept(pid, written) => MessageTracked(w, pid, false, written);
    case Finish(pid, written) => MessageTracked(w, pid, true, written);
    case Exit(pid) => ExitTracked(w, pid);
    case Receive => ReceiveTracked(w);
    case Bury(pid) => BuryTracked(w, pid);
    case Grow(n) => GrowTracked(w, n);
    case Restart => RestartTracked(w);
  }

  lemma RestartTracked(w: World)
    requires Inv(w)
    ensures Inv(Do(w, Restart))
  {
    hide Unique;
    hide Replay;
    var after := Do(w, Restart);
    forall q | Runs(after, q)
      ensures Knows(after.table, q) && !Reports(after, q)
    {
      assert Runs(w, q);
    }
  }

  lemma ExitTracked(w: World, pid: int)
    requires Inv(w) && Enabled(w, Exit(pid))
    ensures Inv(Do(w, Exit(pid)))
  {
    hide Unique;
    hide Replay;
    hide SlotOf;
    var after := Do(w, Exit(pid));
    forall q | Runs(after, q)
      ensures Knows(after.table, q) && (Reports(after, q) ==> Followed(after, q))
    {
      assert Runs(w, q);
    }
  }

  // ---- every run ----

  predicate LegalRun(w: World, ts: seq<Step>)
    decreases |ts|
  {
    ts == [] || (Enabled(w, ts[0]) && LegalRun(Do(w, ts[0]), ts[1..]))
  }

  function Run(w: World, ts: seq<Step>): World
    requires LegalRun(w, ts)
    decreases |ts|
  {
    if ts == [] then w else Run(Do(w, ts[0]), ts[1..])
  }

  lemma {:induction false} RunKeeps(w: World, ts: seq<Step>)
    requires Inv(w) && LegalRun(w, ts)
    ensures Inv(Run(w, ts))
    decreases |ts|
  {
    hide Inv;
    hide Do;
    hide Enabled;
    if ts != [] {
      InvKept(w, ts[0]);
      RunKeeps(Do(w, ts[0]), ts[1..]);
    }
  }

  lemma StartInv(slots: nat)
    ensures Inv(Start(slots))
  {
  }

  // Whatever the children and the master did, the pending messages of a running child lead the master's
  // flag to the truth, unless its pipe was replaced or one of its messages could not be written, exactly if
  // it is not stale; with an empty pipe the flag then is the truth.
  lemma AvailabilityTracked(slots: nat, ts: seq<Step>, pid: int)
    requires LegalRun(Start(slots), ts) && Reports(Run(Start(slots), ts), pid)
    ensures var w := Run(Start(slots), ts);
      && Knows(w.table, pid)
      && var flag, truth := w.table[SlotOf(w.table, pid)].avail, w.kids[pid].avail;
         && (Replay(w.pipe, pid, flag) == truth <==> !w.kids[pid].stale)
         && (w.pipe == [] ==> (flag == truth <==> !w.kids[pid].stale))
  {
    StartInv(slots);
    RunKeeps(Start(slots), ts);
    assert Followed(Run(Start(slots), ts), pid);
  }

  function Forks(ts: seq<Step>, pid: int): nat {
    if ts == [] then 0 else (if ts[0] == Fork(pid) then 1 else 0) + Forks(ts[1..], pid)
  }

  lemma FreshFork(w: World, t: Step, pid: int)
    requires Inv(w) && Enabled(w, t) && (t == Fork(pid) ==> pid !in w.kids)
    requires pid in w.kids ==> !w.kids[pid].stale
    ensures pid in Do(w, t).kids ==> !Do(w, t).kids[pid].stale
    ensures pid in Do(w, t).kids ==> pid in w.kids || t == Fork(pid)
  {
    if t == Fork(pid) {
      NoMessages(w.pipe, pid, true);
    }
  }

  // A child whose pid was not used before is never stale.
  lemma {:induction false} StaleIsReused(w: World, ts: seq<Step>, pid: int)
    requires Inv(w) && LegalRun(w, ts) && Forks(ts, pid) <= (if pid in w.kids then 0 else 1)
    requires pid in w.kids ==> !w.kids[pid].stale
    ensures pid in Run(w, ts).kids ==> !Run(w, ts).kids[pid].stale
    decreases |ts|
  {
    hide Inv;
    hide Do;
    hide Enabled;
    if ts != [] {
      FreshFork(w, ts[0], pid);
      InvKept(w, ts[0]);
      StaleIsReused(Do(w, ts[0]), ts[1..], pid);
    }
  }

  // The first child with pid 5 exits with a message pending; the second one never took a client, and with
  // nothing pending any more the master takes it for busy.
  lemma ReuseMisleads()
    ensures var ts := [Fork(5), Accept(5, true), Exit(5), Bury(5), Fork(5), Receive];
      && LegalRun(Start(1), ts)
      && var w := Run(Start(1), ts);
         Reports(w, 5) && w.pipe == [] && w.kids[5].avail && w.table == [Filter(5, false, 1)]
  {
    hide Run;
    hide LegalRun;
    hide Do;
    hide Enabled;
    var w0 := Start(1);
    var w4 := FirstLife();
    var w5 := SecondLife(w4);
    RunOne(w4, Fork(5), [Receive], [Fork(5), Receive]);
    RunTogether(w0, [Fork(5), Accept(5, true), Exit(5), Bury(5)], [Fork(5), Receive]);
    assert [Fork(5), Accept(5, true), Exit(5), Bury(5)] + [Fork(5), Receive]
      == [Fork(5), Accept(5, true), Exit(5), Bury(5), Fork(5), Receive];
  }

  // A child accepts, exits and is buried with its message pending.
  lemma FirstLife() returns (w: World)
    ensures LegalRun(Start(1), [Fork(5), Accept(5, true), Exit(5), Bury(5)])
    ensures w == Run(Start(1), [Fork(5), Accept(5, true), Exit(5), Bury(5)])
    ensures w.table == [NOTHING] && w.pipe == [Status(5, false)] && 5 in w.kids && !w.kids[5].alive
  {
    hide Run;
    hide LegalRun;
    hide Spawned;
    hide Buried;
    hide Noted;
    hide FreeSlot;
    hide Knows;
    hide Replay;
    OneSlot();
    var w0 := Start(1);
    assert w0.table == [NOTHING];
    var w1 := Do(w0, Fork(5));
    assert w1.table == [Filter(5, true, 0)];
    var w2 := Do(w1, Accept(5, true));
    var w3 := Do(w2, Exit(5));
    w := Do(w3, Bury(5));
    RunNone(w);
    RunOne(w3, Bury(5), [], [Bury(5)]);
    RunOne(w2, Exit(5), [Bury(5)], [Exit(5), Bury(5)]);
    RunOne(w1, Accept(5, true), [Exit(5), Bury(5)], [Accept(5, true), Exit(5), Bury(5)]);
    RunOne(w0, Fork(5), [Accept(5, true), Exit(5), Bury(5)], [Fork(5), Accept(5, true), Exit(5), Bury(5)]);
  }

  // The next child with its pid receives the message in its name.
  lemma SecondLife(w: World) returns (v: World)
    requires w.table == [NOTHING] && w.pipe == [Status(5, false)] && 5 in w.kids && !w.kids[5].alive
    ensures Enabled(w, Fork(5)) && v == Do(w, Fork(5)) && LegalRun(v, [Receive])
    ensures var u := Run(v, [Receive]);
      Reports(u, 5) && u.pipe == [] && u.kids[5].avail && u.table == [Filter(5, false, 1)]
  {
    hide Run;
    hide LegalRun;
    hide Spawned;
    hide Buried;
    hide Noted;
    hide FreeSlot;
    hide Knows;
    hide Replay;
    OneSlot();
    v := Do(w, Fork(5));
    assert v.table == [Filter(5, true, 0)];
    var u := Do(v, Receive);
    RunNone(u);
    RunOne(v, Receive, [], [Receive]);
  }

  lemma RunNone(w: World)
    ensures LegalRun(w, []) && Run(w, []) == w
  {
  }

  lemma RunOne(w: World, t: Step, rest: seq<Step>, ts: seq<Step>)
    requires Enabled(w, t) && LegalRun(Do(w, t), rest) && ts == [t] + rest
    ensures LegalRun(w, ts) && Run(w, ts) == Run(Do(w, t), rest)
  {
    hide Do;
    hide Enabled;
    assert ts[1..] == rest;
  }

  // The table of one slot in the two lives.
  lemma OneSlot()
    ensures FreeSlot([NOTHING]) == 0 && !Knows([NOTHING], 5) && Spawned([NOTHING], 5) == [Filter(5, true, 0)]
    ensures Buried([Filter(5, true, 0)], 5) == [NOTHING]
    ensures Noted([Filter(5, true, 0)], Status(5, false)) == [Filter(5, false, 1)]
  {
  }

  // ---- children of a replaced pipe ----

  predicate IsOld(w: World, pid: int) {
    pid in w.kids && w.kids[pid].cut
  }

  // The master's flag of a child.
  predicate Flagged(w: World, pid: int, flag: bool) {
    Knows(w.table, pid) && w.table[SlotOf(w.table, pid)].avail == flag
  }

  lemma OldStep(w: World, t: Step, pid: int, flag: bool)
    requires Inv(w) && Enabled(w, t) && t != Fork(pid) && IsOld(w, pid) && Runs(w, pid) && Flagged(w, pid, flag)
    ensures IsOld(Do(w, t), pid) && Flagged(Do(w, t), pid, flag)
  {
    hide Unique;
    hide Replay;
    var after := Do(w, t);
    InvKept(w, t);
    SlotKept(w.table, after.table, pid);
  }

  // What was forked and does not run never runs again, unless its pid is used again.
  lemma {:induction false} RanBefore(w: World, ts: seq<Step>, pid: int)
    requires LegalRun(w, ts) && pid in w.kids && Forks(ts, pid) == 0 && Runs(Run(w, ts), pid)
    ensures Runs(w, pid)
    decreases |ts|
  {
    if ts != [] {
      RanBefore(Do(w, ts[0]), ts[1..], pid);
    }
  }

  lemma {:induction false} FlagFrozen(w: World, ts: seq<Step>, pid: int, flag: bool)
    requires Inv(w) && LegalRun(w, ts) && Forks(ts, pid) == 0 && Runs(Run(w, ts), pid)
    requires IsOld(w, pid) && Flagged(w, pid, flag)
    ensures Flagged(Run(w, ts), pid, flag)
    decreases |ts|
  {
    hide Inv;
    hide Do;
    hide Enabled;
    hide Flagged;
    if ts != [] {
      RanBefore(w, ts, pid);
      OldStep(w, ts[0], pid, flag);
      InvKept(w, ts[0]);
      FlagFrozen(Do(w, ts[0]), ts[1..], pid, flag);
    }
  }

  // After a restart, with everything pending dropped, the master's flag of an older child never changes
  // again, however long the child runs. (Its pid is not forked again as long as it runs.)
  lemma RestartFreezes(w: World, ts: seq<Step>, pid: int)
    requires Inv(w) && Runs(w, pid) && Forks(ts, pid) == 0
    requires LegalRun(w, [Restart] + ts) && Runs(Run(w, [Restart] + ts), pid)
    ensures var end := Run(w, [Restart] + ts);
      && Knows(w.table, pid) && Knows(end.table, pid)
      && end.table[SlotOf(end.table, pid)].avail == w.table[SlotOf(w.table, pid)].avail
  {
    var after := Do(w, Restart);
    assert ([Restart] + ts)[1..] == ts;
    RestartTracked(w);
    FlagFrozen(after, ts, pid, w.table[SlotOf(w.table, pid)].avail);
  }

  function Accepts(ts: seq<Step>, pid: int): nat {
    if ts == [] then 0
    else (if ts[0].Accept? && ts[0].pid == pid then 1 else 0) + Accepts(ts[1..], pid)
  }

  predicate CanAccept(w: World, pid: int) {
    Runs(w, pid) && w.kids[pid].avail && !w.kids[pid].leaving
  }

  // An older child takes one more client at most, and none if it was serving one at the restart.
  lemma {:induction false} OldServesOne(w: World, ts: seq<Step>, pid: int)
    requires LegalRun(w, ts) && IsOld(w, pid) && Forks(ts, pid) == 0
    ensures Accepts(ts, pid) <= if CanAccept(w, pid) then 1 else 0
    decreases |ts|
  {
    if ts != [] {
      OldServesOne(Do(w, ts[0]), ts[1..], pid);
    }
  }

  // At the restart the flag left is the truth exactly when the dropped messages would not have changed it, or
  // for a stale child when they would have.
  lemma RestartForgets(w: World, pid: int)
    requires Inv(w) && Reports(w, pid)
    ensures var flag, after := w.table[SlotOf(w.table, pid)].avail, Do(w, Restart);
      Flagged(after, pid, after.kids[pid].avail) <==> (Replay(w.pipe, pid, flag) == flag <==> !w.kids[pid].stale)
  {
    assert Followed(w, pid);
  }

  // ---- the request loop of a child takes these steps ----

  // What a pass of the loop does to the world.
  function PassSteps(e: ChildServer.Event, pid: int): seq<Step> {
    match e.what
    case Client(taken, avail) => [Accept(pid, taken), Finish(pid, avail)]
    case _ => []
  }

  function LoopSteps(events: seq<ChildServer.Event>, pid: int): seq<Step> {
    if events == [] then []
    else LoopSteps(events[..|events| - 1], pid) + PassSteps(events[|events| - 1], pid)
  }

  function Sent(sent: seq<bool>, pid: int): (r: seq<Status>)
    ensures |r| == |sent| && forall i :: 0 <= i < |sent| ==> r[i] == Status(pid, sent[i])
  {
    seq(|sent|, i requires 0 <= i < |sent| => Status(pid, sent[i]))
  }

  predicate WriteFails(e: ChildServer.Event) {
    e.what.Client? && !(e.what.taken && e.what.avail)
  }

  // Nothing is written to a closed pipe.
  predicate Possible(cut: bool, events: seq<ChildServer.Event>) {
    cut ==> forall i :: 0 <= i < |events| && events[i].what.Client? ==> !events[i].what.taken && !events[i].what.avail
  }

  lemma {:induction false} RunTogether(w: World, a: seq<Step>, b: seq<Step>)
    requires LegalRun(w, a) && LegalRun(Run(w, a), b)
    ensures LegalRun(w, a + b) && Run(w, a + b) == Run(Run(w, a), b)
    decreases |a|
  {
    hide Do;
    hide Enabled;
    if a == [] {
      assert a + b == b;
    } else {
      assert (a + b)[0] == a[0] && (a + b)[1..] == a[1..] + b;
      RunTogether(Do(w, a[0]), a[1..], b);
    }
  }

  // The child after it sent these messages.
  function After(k: Kid, sent: seq<bool>, fails: bool): Kid {
    k.(leaving := fails, stale := k.stale && sent == [])
  }

  lemma PassRun(w: World, pid: int, e: ChildServer.Event)
    requires CanAccept(w, pid) && Possible(w.kids[pid].cut, [e])
    ensures LegalRun(w, PassSteps(e, pid))
    ensures Run(w, PassSteps(e, pid)) ==
      World(w.table, w.pipe + Sent(ChildServer.Messages(e), pid),
            w.kids[pid := After(w.kids[pid], ChildServer.Messages(e), WriteFails(e))])
  {
    assert e == [e][0];
    var ts := PassSteps(e, pid);
    match e.what
    case Client(taken, avail) =>
      var mid := Told(w, pid, false, taken);
      var end := Told(mid, pid, true, avail);
      assert ts[1..] == [Finish(pid, avail)] && ts[1..][1..] == [];
      assert Run(mid, ts[1..]) == end;
      assert end.pipe == w.pipe + Sent(ChildServer.Messages(e), pid);
      assert end.kids == w.kids[pid := After(w.kids[pid], ChildServer.Messages(e), WriteFails(e))];
    case _ =>
      assert w.pipe + Sent([], pid) == w.pipe;
      assert w.kids[pid := w.kids[pid]] == w.kids;
  }

  // The passes of the request loop of a free child are steps of the protocol, and what the loop sends goes
  // into the pipe in order. The child is marked as leaving exactly when the last pass could not write, and
  // then the loop has ended.
  lemma {:induction false} LoopRuns(w: World, pid: int, events: seq<ChildServer.Event>, max_requests: int)
    requires CanAccept(w, pid) && Possible(w.kids[pid].cut, events)
    requires events == [] || ChildServer.Serve(events[..|events| - 1], max_requests).ended.None?
    ensures LegalRun(w, LoopSteps(events, pid))
    ensures var end, c := Run(w, LoopSteps(events, pid)), ChildServer.Serve(events, max_requests);
      var fails := events != [] && WriteFails(events[|events| - 1]);
      && end == World(w.table, w.pipe + Sent(c.sent, pid), w.kids[pid := After(w.kids[pid], c.sent, fails)])
      && (fails ==> c.ended.Some? && c.ended.value == 0)
    decreases |events|
  {
    hide Run;
    hide LegalRun;
    hide Sent;
    hide PassSteps;
    hide LoopSteps;
    hide ChildServer.Serve;
    hide ChildServer.Pass;
    hide ChildServer.Messages;
    hide WriteFails;
    LastPass(events, pid, max_requests);
    if events == [] {
      NoPasses(w, pid);
    } else {
      var n := |events| - 1;
      var front, e := events[..n], events[n];
      var c := ChildServer.Serve(front, max_requests);
      FrontOpen(front, max_requests);
      LoopRuns(w, pid, front, max_requests);
      var mid := Run(w, LoopSteps(front, pid));
      assert [e][0] == events[n];
      PassRun(mid, pid, e);
      RunTogether(w, LoopSteps(front, pid), PassSteps(e, pid));
      SentMore(w.pipe, c.sent, ChildServer.Messages(e), pid);
    }
  }

  lemma NoPasses(w: World, pid: int)
    requires pid in w.kids
    ensures LegalRun(w, []) && Run(w, []) == w
    ensures w.pipe + Sent([], pid) == w.pipe && w.kids[pid := w.kids[pid]] == w.kids
  {
  }

  // What the last pass does.
  lemma LastPass(events: seq<ChildServer.Event>, pid: int, max_requests: int)
    ensures events == [] ==> LoopSteps(events, pid) == [] && ChildServer.Serve(events, max_requests).sent == []
    ensures events != [] ==>
      var front, e := events[..|events| - 1], events[|events| - 1];
      && LoopSteps(events, pid) == LoopSteps(front, pid) + PassSteps(e, pid)
      && var b, c := ChildServer.Serve(front, max_requests), ChildServer.Serve(events, max_requests);
         (b.ended.None? ==>
           c.sent == b.sent + ChildServer.Messages(e) && (WriteFails(e) ==> c.ended.Some? && c.ended.value == 0))
  {
  }

  lemma SentMore(pipe: seq<Status>, a: seq<bool>, b: seq<bool>, pid: int)
    ensures pipe + Sent(a, pid) + Sent(b, pid) == pipe + Sent(a + b, pid)
  {
  }

  // A loop that is still open was open before its last pass, and that pass could write.
  lemma FrontOpen(events: seq<ChildServer.Event>, max_requests: int)
    requires ChildServer.Serve(events, max_requests).ended.None?
    ensures events != [] ==>
      ChildServer.Serve(events[..|events| - 1], max_requests).ended.None? && !WriteFails(events[|events| - 1])
  {
  }
}
