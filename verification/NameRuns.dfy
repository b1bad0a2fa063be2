// The ids that a run of additions hands out.
module NameRuns {
  import opened NameOrder

  // The reverse index after one more name.
  function Added(reverse: seq<Entry>, name: Name): seq<Entry> {
    if Contains(reverse, KeyOf(name)) then reverse else reverse + [Entry(name, Hash(name), |reverse|)]
  }

  // The reverse index after a run of names.
  function Run(names: seq<Name>): seq<Entry> {
    if names == [] then [] else Added(Run(names[..|names| - 1]), names[|names| - 1])
  }

  // No earlier name has the key of name j.
  predicate First(names: seq<Name>, j: nat)
    requires j < |names|
  {
    forall i :: 0 <= i < j ==> KeyOf(names[i]) != KeyOf(names[j])
  }

  // How many of the names before j were new.
  function Rank(names: seq<Name>, j: nat): nat
    requires j <= |names|
  {
    if j == 0 then 0 else Rank(names, j - 1) + if First(names, j - 1) then 1 else 0
  }

  lemma {:induction false} RankPrefix(names: seq<Name>, n: nat, j: nat)
    requires j <= n <= |names|
    ensures Rank(names[..n], j) == Rank(names, j)
  {
    hide First;
    if j > 0 {
      var cut := names[..n];
      FirstPrefix(names, cut, j - 1);
      RankPrefix(names, n, j - 1);
    }
  }

  lemma FirstPrefix(names: seq<Name>, cut: seq<Name>, j: nat)
    requires cut <= names && j < |cut|
    ensures First(cut, j) == First(names, j)
  {
    assert forall i :: 0 <= i <= j ==> cut[i] == names[i];
  }

  // Earlier ids keep their names.
  lemma {:induction false} RunGrows(names: seq<Name>, more: seq<Name>)
    ensures Run(names) <= Run(names + more)
  {
    if more == [] {
      assert names + more == names;
    } else {
      var less := more[..|more| - 1];
      assert (names + more)[..|names + more| - 1] == names + less;
      RunGrows(names, less);
    }
  }

  // A key is in the index when one of the names has it.
  lemma {:induction false} RunContains(names: seq<Name>, k: Key)
    ensures Contains(Run(names), k) <==> exists j :: 0 <= j < |names| && KeyOf(names[j]) == k
  {
    if names != [] {
      var n := |names| - 1;
      var before, last := names[..n], names[n];
      RunContains(before, k);
      AddedContains(Run(before), last, k);
      assert forall j :: 0 <= j < n ==> before[j] == names[j];
    }
  }

  lemma AddedContains(reverse: seq<Entry>, name: Name, k: Key)
    ensures Contains(Added(reverse, name), k) <==> Contains(reverse, k) || KeyOf(name) == k
  {
    var after := Added(reverse, name);
    if Contains(reverse, k) {
      var i :| 0 <= i < |reverse| && K(reverse, i) == k;
      assert K(after, i) == k;
    }
    if KeyOf(name) == k && !Contains(reverse, k) {
      assert K(after, |reverse|) == k;
    }
    if Contains(after, k) {
      var i :| 0 <= i < |after| && K(after, i) == k;
      if i < |reverse| {
        assert K(reverse, i) == k;
      }
    }
  }

  lemma LastIsNew(names: seq<Name>)
    requires names != []
    ensures First(names, |names| - 1) <==> !Contains(Run(names[..|names| - 1]), KeyOf(names[|names| - 1]))
  {
    var before := names[..|names| - 1];
    RunContains(before, KeyOf(names[|names| - 1]));
    assert forall j :: 0 <= j < |before| ==> before[j] == names[j];
  }

  // The ids are 0, 1, 2, … in the order in which new names came.
  lemma {:induction false} RunIds(names: seq<Name>, j: nat)
    requires j < |names|
    ensures |Run(names)| == Rank(names, |names|)
    ensures First(names, j) ==>
      Rank(names, j) < |Run(names)|
      && Run(names)[Rank(names, j)] == Entry(names[j], Hash(names[j]), Rank(names, j))
  {
    hide Hash;
    hide KeyOf;
    hide First;
    var n := |names| - 1;
    var before := names[..n];
    LastIsNew(names);
    RunSize(before);
    RunSize(names);
    RankPrefix(names, n, n);
    if j < n {
      RunIds(before, j);
      RankPrefix(names, n, j);
      FirstPrefix(names, before, j);
    }
  }

  lemma {:induction false} RunSize(names: seq<Name>)
    ensures |Run(names)| == Rank(names, |names|)
  {
    hide First;
    hide KeyOf;
    if names != [] {
      var n := |names| - 1;
      LastIsNew(names);
      RunSize(names[..n]);
      RankPrefix(names, n, n);
    }
  }
}
