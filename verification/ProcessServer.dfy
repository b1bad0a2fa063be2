// The pre-fork master: its table of children, its counters and one pass of its main loop.
module ProcessServer {
  import opened Bytes
  import opened ProcessTable

  datatype Config = Config(start_filters: nat, max_filters: nat, min_spare_filters: nat)

  const DEFAULT_MAX_FILTERS := 50

  // config_check_values
  function Checked(c: Config): (r: Config)
    ensures r.max_filters > 0 && r.start_filters <= r.max_filters && r.min_spare_filters <= r.max_filters
    ensures c.max_filters > 0 ==> r.max_filters == c.max_filters
    ensures r.start_filters == c.start_filters || r.start_filters == r.max_filters < c.start_filters
    ensures r.min_spare_filters == c.min_spare_filters || r.min_spare_filters == r.max_filters < c.min_spare_filters
  {
    var max := if c.max_filters > 0 then c.max_filters else DEFAULT_MAX_FILTERS;
    Config(if c.start_filters <= max then c.start_filters else max, max,
           if c.min_spare_filters < max then c.min_spare_filters else max)
  }

  // What happens outside during one pass of the main loop.
  datatype Events = Events(
    exited: seq<int>,
    startDue: bool,
    fork: int,
    status: Option<Status>,
    connection: bool,
    reread: Option<Config>,
    realloc: bool)

  function BuriedAll(fs: Table, pids: seq<int>): (r: Table)
    ensures |r| == |fs|
  {
    if pids == [] then fs else Buried(BuriedAll(fs, pids[..|pids| - 1]), pids[|pids| - 1])
  }

  // The table with free slots up to n.
  function GrownTo(fs: Table, n: nat): (r: Table)
    ensures |r| >= n && fs <= r
  {
    if n > |fs| then fs + seq(n - |fs|, _ => NOTHING) else fs
  }

  // The table after several reports.
  function BuriedIn(fs: Table, reports: seq<seq<int>>): (r: Table)
    ensures |r| == |fs|
  {
    if reports == [] then fs
    else BuriedAll(BuriedIn(fs, reports[..|reports| - 1]), reports[|reports| - 1])
  }

  predicate Reported(reports: seq<seq<int>>) {
    forall i, k :: 0 <= i < |reports| && 0 <= k < |reports[i]| ==> reports[i][k] > 0
  }

  lemma BuriedNone(fs: Table, reports: seq<seq<int>>)
    ensures BuriedIn(fs, reports[..0]) == fs
  {
  }

  lemma BuriedNext(fs: Table, reports: seq<seq<int>>, i: nat)
    requires i < |reports|
    ensures BuriedIn(fs, reports[..i + 1]) == BuriedAll(BuriedIn(fs, reports[..i]), reports[i])
  {
    assert reports[..i + 1][..i] == reports[..i];
  }

  // Burying adds no child.
  lemma {:induction false} LiveLess(fs: Table, pids: seq<int>)
    requires forall k :: 0 <= k < |pids| ==> pids[k] > 0
    ensures Live(BuriedAll(fs, pids)) <= Live(fs)
  {
    hide Live;
    if pids != [] {
      var front := BuriedAll(fs, pids[..|pids| - 1]);
      LiveLess(fs, pids[..|pids| - 1]);
      if Knows(front, pids[|pids| - 1]) {
        CountsUpdate(front, SlotOf(front, pids[|pids| - 1]), NOTHING);
      }
    }
  }

  lemma {:induction false} BuriedRest(fs: Table, reports: seq<seq<int>>, i: nat)
    requires i <= |reports| && Reported(reports) && Live(BuriedIn(fs, reports[..i])) == 0
    ensures Live(BuriedIn(fs, reports)) == 0
    decreases |reports| - i
  {
    hide Live;
    hide BuriedAll;
    hide BuriedIn;
    if i < |reports| {
      BuriedNext(fs, reports, i);
      LiveLess(BuriedIn(fs, reports[..i]), reports[i]);
      BuriedRest(fs, reports, i + 1);
    } else {
      assert reports[..i] == reports;
    }
  }

  lemma NotGrown(fs: Table)
    ensures GrownTo(fs, |fs|) == fs
  {
  }

  // The kernel reports children, and a new child has a pid that no child in the table has.
  predicate Possible(fs: Table, e: Events) {
    (forall i :: 0 <= i < |e.exited| ==> e.exited[i] > 0)
    && (e.fork == -1 || (e.fork > 0 && !Knows(BuriedAll(fs, e.exited), e.fork)))
    && (e.status.Some? ==> e.status.value.pid > 0)
  }

  // The table after burying and spawning.
  function Renewed(fs: Table, e: Events, spawned: bool): (r: Table)
    ensures |r| == |fs|
  {
    var buried := BuriedAll(fs, e.exited);
    if spawned then Spawned(buried, e.fork) else buried
  }

  // The old slots of the table after one pass.
  function Passed(fs: Table, e: Events, spawned: bool): (r: Table)
    ensures |r| == |fs|
  {
    var table := Renewed(fs, e, spawned);
    if e.status.Some? then Noted(table, e.status.value) else table
  }

  // A configuration is cut down to the table when the table cannot grow.
  function Bounded(c: Config, alloc: nat, realloc: bool): (r: Config)
    ensures realloc || c.max_filters <= alloc ==> r == c
    ensures !realloc && c.max_filters > alloc ==>
      r.max_filters == alloc && r.start_filters <= alloc && r.min_spare_filters <= alloc
    ensures r.start_filters == c.start_filters || r.start_filters == alloc < c.start_filters
    ensures r.min_spare_filters == c.min_spare_filters || r.min_spare_filters == alloc < c.min_spare_filters
  {
    if realloc || c.max_filters <= alloc then c
    else Config(if c.start_filters > alloc then alloc else c.start_filters, alloc,
                if c.min_spare_filters > alloc then alloc else c.min_spare_filters)
  }

  // The children still to be started, after a client was seen waiting.
  function Asked(start: nat, spare: nat, num: nat, max: nat, connection: bool): nat {
    start + if connection && start == 0 && spare == 0 && num < max then 1 else 0
  }

  // And after a look at the spare children.
  function Wanted(start: nat, spare: nat, min_spare: nat, num: nat, alloc: nat): nat {
    if start == 0 && spare < min_spare && num < alloc then 1 else start
  }

  // Pids that no child has, all different.
  predicate Fresh(fs: Table, pids: seq<int>) {
    && (forall i :: 0 <= i < |pids| ==> pids[i] > 0 && !Knows(fs, pids[i]))
    && forall i, j :: 0 <= i < j < |pids| ==> pids[i] != pids[j]
  }

  function Max(a: nat, b: nat): nat {
    if a < b then b else a
  }

  // The spare children after n starts at most, with room for some more children, if min are wanted.
  function Supplied(spare: nat, min: nat, room: int, n: nat): nat {
    if spare >= min || room <= 0 then spare
    else spare + if n <= min - spare && n <= room then n else if min - spare <= room then min - spare else room
  }

  lemma BuriedNobody(fs: Table)
    ensures BuriedAll(fs, []) == fs
  {
  }

  lemma SpawnedCounts(fs: Table, pid: int)
    requires pid > 0
    ensures FreeSlot(fs) < |fs| ==> Live(Spawned(fs, pid)) == Live(fs) + 1 && Idle(Spawned(fs, pid)) == Idle(fs) + 1
  {
    hide Live;
    hide Idle;
    if FreeSlot(fs) < |fs| {
      CountsUpdate(fs, FreeSlot(fs), Filter(pid, true, 0));
    }
  }

  lemma FreshFirst(fs: Table, pids: seq<int>)
    requires Fresh(fs, pids) && pids != []
    ensures pids[0] > 0 && !Knows(fs, pids[0])
    ensures Fresh(fs, pids[1..]) && Fresh(Spawned(fs, pids[0]), pids[1..])
  {
    var after := Spawned(fs, pids[0]);
    forall i | 1 <= i < |pids|
      ensures !Knows(fs, pids[i]) && !Knows(after, pids[i])
    {
      KnowsWho(fs, pids[i]);
      KnowsWho(after, pids[i]);
    }
  }

  lemma KnowsWho(fs: Table, pid: int)
    ensures Knows(fs, pid) <==> exists k :: 0 <= k < |fs| && fs[k].pid == pid
  {
  }

  // A client waits, no child is free for it, and one more is allowed.
  predicate NoneSpare(table: Table, failed: nat, max: nat, connection: bool) {
    connection && Idle(table) + failed == 0 && Live(table) + failed < max
  }

  lemma DemandMeans(left: nat, table: Table, failed: nat, max: nat, connection: bool, spare: nat, min_spare: nat,
                    num: nat, alloc: nat)
    ensures var start := Wanted(Asked(left, Idle(table) + failed, Live(table) + failed, max, connection),
                                spare, min_spare, num, alloc);
      && (left > 0 ==> start == left)
      && (left == 0 ==> start <= 1)
      && (left == 0 ==>
            (start == 1 <==> NoneSpare(table, failed, max, connection) || (spare < min_spare && num < alloc)))
  {
    hide Idle;
    hide Live;
  }

  class Server {
    var filters: Table
    var num_filters: nat
    var spare_filters: nat
    var start: nat
    var config: Config
    // forks that failed so far
    ghost var failed: nat

    ghost predicate Valid()
      reads this
    {
      && Unique(filters) && 0 < config.max_filters <= |filters|
      && config.min_spare_filters <= config.max_filters
      && num_filters == Live(filters) + failed
      && spare_filters == Idle(filters) + failed
    }

    constructor (c: Config)
      ensures Valid() && failed == 0 && config == Checked(c) && start == config.start_filters && num_filters == 0
    {
      var cc := Checked(c);
      config := cc;
      filters := seq(cc.max_filters, _ => NOTHING);
      num_filters, spare_filters, start, failed := 0, 0, cc.start_filters, 0;
      CountsEmpty(cc.max_filters);
    }

    // A child in the first free slot. The counters move whether or not the fork succeeds.
    method spawn_filter(pid: int)
      requires Valid() && start > 0 && num_filters < config.max_filters
      requires pid == -1 || (pid > 0 && !Knows(filters, pid))
      modifies this
      ensures Valid() && config == old(config)
      ensures FreeSlot(old(filters)) < |filters| && filters == Spawned(old(filters), pid)
      ensures start == old(start) - 1 && num_filters == old(num_filters) + 1 && spare_filters == old(spare_filters) + 1
      ensures failed == old(failed) + if pid == -1 then 1 else 0
    {
      hide Unique;
      hide Live;
      hide Idle;
      hide Spawned;
      hide FreeSlot;
      hide Knows;
      FreeWhenFew(filters);
      var i := 0;
      while i < |filters| && filters[i].pid > 0
        invariant i <= FreeSlot(filters)
      {
        i := i + 1;
      }
      UniqueKept(filters, pid, Status(0, false));
      SpawnedAt(filters, pid);
      CountsUpdate(filters, i, Filter(pid, true, 0));
      filters := filters[i := Filter(pid, true, 0)];
      failed := failed + if pid == -1 then 1 else 0;
      start := start - 1;
      num_filters := num_filters + 1;
      spare_filters := spare_filters + 1;
    }

    // A message sets the flag of its child, and the spare count follows.
    method note_status(s: Status)
      requires Valid() && s.pid > 0
      modifies this`filters, this`spare_filters
      ensures Valid() && filters == Noted(old(filters), s)
    {
      hide Unique;
      hide Live;
      hide Idle;
      var i := 0;
      while i < |filters| && filters[i].pid != s.pid
        invariant i <= SlotOf(filters, s.pid)
      {
        i := i + 1;
      }
      UniqueKept(filters, 0, s);
      if i < |filters| {
        var f := filters[i];
        CountsUpdate(filters, i, Filter(s.pid, s.avail, f.usage + if s.avail then 0 else 1));
        IdleIsLive(filters[i := f.(avail := false)]);
        if !s.avail {
          f := f.(usage := f.usage + 1);
        }
        if !f.avail && s.avail {
          spare_filters := spare_filters + 1;
        }
        if f.avail && !s.avail {
          spare_filters := spare_filters - 1;
        }
        filters := filters[i := f.(avail := s.avail)];
      }
    }

    // A pending message is noted; a waiting client asks for a child when there is none to take it and one
    // may be started.
    method check_filter_statuses(status: Option<Status>, connection: bool)
      requires Valid() && (status.Some? ==> status.value.pid > 0)
      modifies this`filters, this`spare_filters, this`start
      ensures Valid()
      ensures filters == if status.Some? then Noted(old(filters), status.value) else old(filters)
      ensures start == Asked(old(start), old(spare_filters), num_filters, config.max_filters, connection)
    {
      var watched := start == 0 && spare_filters == 0 && num_filters < config.max_filters;
      if status.Some? {
        note_status(status.value);
      }
      if watched && connection {
        start := start + 1;
      }
    }

    // One exited child leaves its slot; a process that is not in the table changes nothing.
    method bury_child(pid: int)
      requires Valid() && pid > 0
      modifies this`filters, this`num_filters, this`spare_filters
      ensures Valid() && filters == Buried(old(filters), pid)
      ensures num_filters == old(num_filters) - if Knows(old(filters), pid) then 1 else 0
    {
      hide Unique;
      hide Live;
      hide Idle;
      hide SlotOf;
      var i := 0;
      while i < |filters| && filters[i].pid != pid
        invariant i <= SlotOf(filters, pid)
      {
        i := i + 1;
      }
      UniqueKept(filters, 0, Status(pid, false));
      if i < |filters| {
        CountsUpdate(filters, i, NOTHING);
        IdleIsLive(filters);
        num_filters := num_filters - 1;
        if filters[i].avail {
          spare_filters := spare_filters - 1;
        }
        filters := filters[i := NOTHING];
      }
    }

    method bury_childs(pids: seq<int>)
      requires Valid() && forall i :: 0 <= i < |pids| ==> pids[i] > 0
      modifies this`filters, this`num_filters, this`spare_filters
      ensures Valid() && filters == BuriedAll(old(filters), pids)
    {
      for i := 0 to |pids|
        invariant Valid() && filters == BuriedAll(old(filters), pids[..i])
      {
        assert pids[..i + 1][..i] == pids[..i];
        bury_child(pids[i]);
      }
      assert pids[..|pids|] == pids;
    }

    // A new configuration; the table grows when it has to, and bounds the configuration when it cannot.
    method reread_config(c: Config, realloc: bool)
      requires Valid()
      modifies this`filters, this`config
      ensures Valid()
      ensures config == Bounded(Checked(c), old(|filters|), realloc)
      ensures |filters| == if realloc && config.max_filters > old(|filters|) then config.max_filters else old(|filters|)
      ensures filters == GrownTo(old(filters), |filters|)
    {
      hide Live;
      hide Idle;
      var cc := Checked(c);
      if cc.max_filters > |filters| {
        if realloc {
          CountsGrow(filters, cc.max_filters - |filters|);
          UniqueGrows(filters, cc.max_filters - |filters|);
          filters := filters + seq(cc.max_filters - |filters|, _ => NOTHING);
        } else {
          cc := cc.(max_filters := |filters|);
          if cc.start_filters > cc.max_filters {
            cc := cc.(start_filters := cc.max_filters);
          }
          if cc.min_spare_filters > cc.max_filters {
            cc := cc.(min_spare_filters := cc.max_filters);
          }
        }
      }
      config := cc;
    }

    // The first half of a pass: exited children leave, and a wanted one is started.
    method renew(e: Events) returns (spawned: bool)
      requires Valid() && Possible(filters, e)
      modifies this
      ensures Valid() && config == old(config)
      ensures var buried := BuriedAll(old(filters), e.exited);
        spawned == (old(start) > 0 && Live(buried) + old(failed) < config.max_filters && e.startDue)
      ensures filters == Renewed(old(filters), e, spawned) && start == old(start) - if spawned then 1 else 0
      ensures failed == old(failed) + if spawned && e.fork == -1 then 1 else 0
    {
      hide Live;
      hide Idle;
      hide Unique;
      hide BuriedAll;
      hide Spawned;
      bury_childs(e.exited);
      spawned := start > 0 && num_filters < config.max_filters && e.startDue;
      if spawned {
        spawn_filter(e.fork);
      }
    }

    // One pass of the main loop of a server that is not terminating: bury, spawn, read one message, reread.
    method main_loop_pass(e: Events) returns (spawned: bool)
      requires Valid() && Possible(filters, e)
      modifies this
      ensures Valid()
      ensures var buried := BuriedAll(old(filters), e.exited);
        spawned == (old(start) > 0 && Live(buried) + old(failed) < old(config).max_filters && e.startDue)
      ensures filters == GrownTo(Passed(old(filters), e, spawned), |filters|)
      ensures failed == old(failed) + if spawned && e.fork == -1 then 1 else 0
      ensures config == match e.reread
        case None => old(config)
        case Some(c) => Bounded(Checked(c), old(|filters|), e.realloc)
      ensures e.reread.None? ==> |filters| == old(|filters|)
      ensures e.reread.Some? ==>
        |filters| == if e.realloc && config.max_filters > old(|filters|) then config.max_filters else old(|filters|)
      ensures old(start) > (if spawned then 1 else 0) ==> start == old(start) - if spawned then 1 else 0
      ensures old(start) == (if spawned then 1 else 0) ==>
        start <= 1
        && (start == 1 <==>
          || NoneSpare(Renewed(old(filters), e, spawned), failed, old(config).max_filters, e.connection)
          || (Idle(filters) + failed < config.min_spare_filters && Live(filters) + failed < |filters|))
    {
      hide Live;
      hide Idle;
      hide Unique;
      hide Renewed;
      hide Noted;
      hide Checked;
      hide Asked;
      hide Bounded;
      hide BuriedAll;
      hide GrownTo;
      hide Wanted;
      hide NoneSpare;
      spawned := renew(e);
      listen(e);
      want_spare();
      DemandMeans(old(start) - if spawned then 1 else 0, Renewed(old(filters), e, spawned), failed,
                  old(config).max_filters, e.connection, spare_filters, config.min_spare_filters, num_filters, |filters|);
    }

    // One message, a waiting client, and the configuration if it is to be read again.
    method listen(e: Events)
      requires Valid() && (e.status.Some? ==> e.status.value.pid > 0)
      modifies this`filters, this`spare_filters, this`start, this`config
      ensures Valid()
      ensures var noted := if e.status.Some? then Noted(old(filters), e.status.value) else old(filters);
        filters == GrownTo(noted, |filters|)
      ensures config == match e.reread
        case None => old(config)
        case Some(c) => Bounded(Checked(c), old(|filters|), e.realloc)
      ensures e.reread.None? ==> |filters| == old(|filters|)
      ensures e.reread.Some? ==>
        |filters| == if e.realloc && config.max_filters > old(|filters|) then config.max_filters else old(|filters|)
      ensures start == Asked(old(start), old(spare_filters), num_filters, old(config).max_filters, e.connection)
    {
      hide Live;
      hide Idle;
      hide Unique;
      hide Noted;
      hide Checked;
      hide Asked;
      hide Bounded;
      hide GrownTo;
      check_filter_statuses(e.status, e.connection);
      ghost var noted := filters;
      if e.reread.Some? {
        reread_config(e.reread.value, e.realloc);
      }
      NotGrown(noted);
    }

    // Passes in which nothing happens, except that a wanted child is due and forked under the next pid. The first
    // one asks for a child if too few are spare, and each further one starts a child as long as that is so and
    // one more is allowed.
    method quiet_passes(pids: seq<int>)
      requires Valid() && start == 0 && failed == 0 && Fresh(filters, pids)
      modifies this
      ensures Valid() && failed == 0 && config == old(config) && start <= 1
      ensures pids != [] ==>
        Idle(filters) == Supplied(old(Idle(filters)), config.min_spare_filters, config.max_filters as int - old(Live(filters)),
                                  |pids| - 1)
      ensures Live(filters) as int - Idle(filters) == old(Live(filters)) as int - old(Idle(filters))
      ensures |pids| > config.min_spare_filters ==>
        Idle(filters) == Max(old(Idle(filters)), config.min_spare_filters)
        || (Idle(filters) < config.min_spare_filters && Live(filters) >= config.max_filters)
    {
      hide Live;
      hide Idle;
      hide Unique;
      hide Knows;
      hide Fresh;
      ghost var s: nat, m: nat := Idle(filters), config.min_spare_filters;
      ghost var busy: int := Live(filters) as int - Idle(filters);
      ghost var room: int := config.max_filters as int - Live(filters);
      var i := 0;
      while i < |pids|
        invariant 0 <= i <= |pids| && Valid() && failed == 0 && config == old(config) && Fresh(filters, pids[i..])
        invariant start <= 1 && Live(filters) as int - Idle(filters) == busy
        invariant i == 0 ==> start == 0 && Idle(filters) == s
        invariant i > 0 ==> Idle(filters) == Supplied(s, m, room, i - 1)
        invariant i > 0 ==> (start == 1 <==> Idle(filters) < m && Live(filters) < |filters|)
      {
        quiet_pass(pids[i..]);
        assert pids[i..][1..] == pids[i + 1..];
        i := i + 1;
      }
    }

    // One of these passes.
    method quiet_pass(pids: seq<int>)
      requires Valid() && start <= 1 && failed == 0 && pids != [] && Fresh(filters, pids)
      modifies this
      ensures Valid() && failed == 0 && config == old(config) && |filters| == old(|filters|)
      ensures var n := if old(start) == 1 && old(Live(filters)) < config.max_filters then 1 else 0;
        && Idle(filters) == old(Idle(filters)) + n && Live(filters) == old(Live(filters)) + n
        && (old(start) == n ==>
              start <= 1 && (start == 1 <==> Idle(filters) < config.min_spare_filters && Live(filters) < |filters|))
        && (old(start) > n ==> start == 1)
      ensures Fresh(filters, pids[1..])
    {
      hide Live;
      hide Idle;
      hide Unique;
      hide BuriedAll;
      hide Spawned;
      hide Knows;
      var e := Events([], true, pids[0], None, false, None, false);
      BuriedNobody(filters);
      FreshFirst(filters, pids);
      SpawnedCounts(filters, pids[0]);
      NotGrown(filters);
      NotGrown(Spawned(filters, pids[0]));
      if start == 1 && num_filters < config.max_filters {
        FreeWhenFew(filters);
      }
      var spawned := main_loop_pass(e);
    }

    // One more child to start when too few are spare.
    method want_spare()
      modifies this`start
      ensures start == Wanted(old(start), spare_filters, config.min_spare_filters, num_filters, |filters|)
    {
      if start == 0 && spare_filters < config.min_spare_filters && num_filters < |filters| {
        start := start + 1;
      }
    }

    // The loop of a terminating server: in every pass the children reported are buried. It can end only when
    // all children were reported, and not at all after a failed fork, whatever is reported.
    method main_loop_end(reports: seq<seq<int>>) returns (ended: bool)
      requires Valid() && Reported(reports)
      modifies this`filters, this`num_filters, this`spare_filters
      ensures Valid()
      ensures ended <==> failed == 0 && Live(BuriedIn(old(filters), reports)) == 0
      ensures !ended ==> filters == BuriedIn(old(filters), reports)
    {
      hide Live;
      hide Idle;
      hide Unique;
      hide BuriedAll;
      hide BuriedIn;
      var i := 0;
      BuriedNone(filters, reports);
      while num_filters > 0 && i < |reports|
        invariant i <= |reports| && Valid() && filters == BuriedIn(old(filters), reports[..i])
        decreases |reports| - i
      {
        BuriedNext(old(filters), reports, i);
        bury_childs(reports[i]);
        i := i + 1;
      }
      ended := num_filters == 0;
      if ended {
        BuriedRest(old(filters), reports, i);
      } else {
        assert reports[..|reports|] == reports;
      }
    }

    // Every failed fork takes one place from the pool for good.
    lemma CountsExact()
      requires Valid()
      ensures num_filters == Live(filters) && spare_filters == Idle(filters) <==> failed == 0
      ensures failed >= config.max_filters ==> num_filters >= config.max_filters
      ensures num_filters < config.max_filters ==> FreeSlot(filters) < |filters|
    {
      NoFreeSlot(filters);
    }
  }
}
