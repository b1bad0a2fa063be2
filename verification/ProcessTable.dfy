// The table of the child processes, and the counts kept beside it.
module ProcessTable {

  // A slot: free when its pid is not positive.
  datatype Filter = Filter(pid: int, avail: bool, usage: nat)

  // A message of a child about itself.
  datatype Status = Status(pid: int, avail: bool)

  const NOTHING := Filter(0, false, 0)

  type Table = seq<Filter>

  function SlotOf(fs: Table, pid: int): (i: nat)
    ensures i <= |fs|
    ensures i < |fs| ==> fs[i].pid == pid
    ensures forall k :: 0 <= k < i ==> fs[k].pid != pid
    decreases |fs|
  {
    if fs == [] || fs[0].pid == pid then 0 else 1 + SlotOf(fs[1..], pid)
  }

  function FreeSlot(fs: Table): (i: nat)
    ensures i <= |fs|
    ensures i < |fs| ==> fs[i].pid <= 0
    ensures forall k :: 0 <= k < i ==> fs[k].pid > 0
    decreases |fs|
  {
    if fs == [] || fs[0].pid <= 0 then 0 else 1 + FreeSlot(fs[1..])
  }

  // The slots with a child, and those with an available one.
  function Live(fs: Table): (n: nat)
    ensures n <= |fs|
  {
    if fs == [] then 0 else Live(fs[..|fs| - 1]) + if fs[|fs| - 1].pid > 0 then 1 else 0
  }

  function Idle(fs: Table): (n: nat)
    ensures n <= |fs|
  {
    if fs == [] then 0 else Idle(fs[..|fs| - 1]) + if fs[|fs| - 1].pid > 0 && fs[|fs| - 1].avail then 1 else 0
  }

  lemma {:induction false} CountsUpdate(fs: Table, i: nat, f: Filter)
    requires i < |fs|
    ensures Live(fs[i := f]) == Live(fs) - (if fs[i].pid > 0 then 1 else 0) + if f.pid > 0 then 1 else 0
    ensures Idle(fs[i := f]) ==
      Idle(fs) - (if fs[i].pid > 0 && fs[i].avail then 1 else 0) + if f.pid > 0 && f.avail then 1 else 0
  {
    var n := |fs| - 1;
    if i == n {
      assert fs[i := f][..n] == fs[..n];
    } else {
      assert fs[i := f][..n] == fs[..n][i := f];
      CountsUpdate(fs[..n], i, f);
    }
  }

  lemma {:induction false} CountsGrow(fs: Table, n: nat)
    ensures Live(fs + seq(n, _ => NOTHING)) == Live(fs) && Idle(fs + seq(n, _ => NOTHING)) == Idle(fs)
  {
    var more := seq(n, _ => NOTHING);
    if n == 0 {
      assert fs + more == fs;
    } else {
      assert (fs + more)[..|fs| + n - 1] == fs + seq(n - 1, _ => NOTHING);
      CountsGrow(fs, n - 1);
    }
  }

  lemma {:induction false} CountsEmpty(n: nat)
    ensures Live(seq(n, _ => NOTHING)) == 0 && Idle(seq(n, _ => NOTHING)) == 0
  {
    CountsGrow([], n);
    assert [] + seq(n, _ => NOTHING) == seq(n, _ => NOTHING);
  }

  // A table without a free slot is full of children.
  lemma {:induction false} NoFreeSlot(fs: Table)
    ensures (forall k :: 0 <= k < |fs| ==> fs[k].pid > 0) <==> Live(fs) == |fs|
  {
    if fs != [] {
      var n := |fs| - 1;
      NoFreeSlot(fs[..n]);
      assert forall k :: 0 <= k < n ==> fs[..n][k] == fs[k];
    }
  }

  lemma FreeWhenFew(fs: Table)
    requires Live(fs) < |fs|
    ensures FreeSlot(fs) < |fs|
  {
    NoFreeSlot(fs);
  }

  // Spare children are children.
  lemma {:induction false} IdleIsLive(fs: Table)
    ensures Idle(fs) <= Live(fs)
  {
    if fs != [] {
      IdleIsLive(fs[..|fs| - 1]);
    }
  }

  // ---- the three changes of a slot ----

  function Spawned(fs: Table, pid: int): (r: Table)
    ensures |r| == |fs|
  {
    var i := FreeSlot(fs);
    if i < |fs| then fs[i := Filter(pid, true, 0)] else fs
  }

  lemma SpawnedAt(fs: Table, pid: int)
    requires FreeSlot(fs) < |fs|
    ensures Spawned(fs, pid) == fs[FreeSlot(fs) := Filter(pid, true, 0)]
  {
  }

  function Noted(fs: Table, s: Status): (r: Table)
    ensures |r| == |fs|
  {
    var i := SlotOf(fs, s.pid);
    if i < |fs| then fs[i := Filter(s.pid, s.avail, fs[i].usage + if s.avail then 0 else 1)] else fs
  }

  // A message counts a client for its child, when it says TAKEN, and changes no other slot.
  lemma NotedCounts(fs: Table, s: Status)
    requires Knows(fs, s.pid)
    ensures var i, after := SlotOf(fs, s.pid), Noted(fs, s);
      && after[i].pid == s.pid && after[i].avail == s.avail
      && after[i].usage == fs[i].usage + (if s.avail then 0 else 1)
      && forall k :: 0 <= k < |fs| && k != i ==> after[k] == fs[k]
  {
  }

  function Buried(fs: Table, pid: int): (r: Table)
    ensures |r| == |fs|
  {
    var i := SlotOf(fs, pid);
    if i < |fs| then fs[i := NOTHING] else fs
  }

  // No child has two slots.
  predicate Unique(fs: Table) {
    forall i, j :: 0 <= i < j < |fs| && fs[i].pid > 0 ==> fs[i].pid != fs[j].pid
  }

  predicate Knows(fs: Table, pid: int) {
    SlotOf(fs, pid) < |fs|
  }

  lemma UniqueKept(fs: Table, pid: int, s: Status)
    requires Unique(fs) && (pid <= 0 || !Knows(fs, pid))
    ensures Unique(Spawned(fs, pid)) && Unique(Noted(fs, s)) && Unique(Buried(fs, s.pid))
  {
    hide Unique;
    hide SlotOf;
    hide FreeSlot;
    if FreeSlot(fs) < |fs| {
      SlotUnique(fs, FreeSlot(fs), Filter(pid, true, 0));
    }
    var i := SlotOf(fs, s.pid);
    if i < |fs| {
      SlotUnique(fs, i, NOTHING);
      SlotUnique(fs, i, Filter(s.pid, s.avail, fs[i].usage + if s.avail then 0 else 1));
    }
  }

  // A slot may take a child that no other slot has.
  lemma SlotUnique(fs: Table, i: nat, f: Filter)
    requires Unique(fs) && i < |fs| && (f.pid <= 0 || f.pid == fs[i].pid || !Knows(fs, f.pid))
    ensures Unique(fs[i := f])
  {
  }

  lemma UniqueGrows(fs: Table, n: nat)
    requires Unique(fs)
    ensures Unique(fs + seq(n, _ => NOTHING))
  {
  }
}
