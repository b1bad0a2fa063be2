// A chained hash table that doubles when too many of its buckets are in use.
module HashTable {
  import opened Bytes

  // A stored element: its hash code and its bytes.
  datatype Node = Node(key: nat, data: seq<byte>)

  // NullHead: a null pointer was used.
  datatype Searched = Found(id: nat) | Missing | NullHead

  // Ids, the newest first.
  type Chain = seq<nat>

  // ---- where the elements belong ----

  // The ids of all nodes of a bucket.
  function ChainOf(nodes: seq<Node>, size: nat, b: nat): Chain
    requires size > 0
  {
    if nodes == [] then []
    else
      var n := |nodes| - 1;
      (if nodes[n].key % size == b then [n] else []) + ChainOf(nodes[..n], size, b)
  }

  function Layout(nodes: seq<Node>, size: nat): (table: seq<Chain>)
    requires size > 0
    ensures |table| == size
    ensures forall b: nat :: b < size ==> table[b] == ChainOf(nodes, size, b)
  {
    seq(size, b requires 0 <= b < size => ChainOf(nodes, size, b))
  }

  function Filled(table: seq<Chain>): (n: nat)
    ensures n <= |table|
  {
    if table == [] then 0 else Filled(table[..|table| - 1]) + if table[|table| - 1] != [] then 1 else 0
  }

  function Lengths(table: seq<Chain>): nat {
    if table == [] then 0 else Lengths(table[..|table| - 1]) + |table[|table| - 1]|
  }

  // A chain holds exactly the ids of its bucket, each once, in descending order.
  lemma {:induction false} ChainMembers(nodes: seq<Node>, size: nat, b: nat)
    requires size > 0
    ensures forall id: nat :: id in ChainOf(nodes, size, b) <==> id < |nodes| && nodes[id].key % size == b
    ensures forall i, j :: 0 <= i < j < |ChainOf(nodes, size, b)| ==>
      ChainOf(nodes, size, b)[i] > ChainOf(nodes, size, b)[j]
  {
    if nodes != [] {
      var n := |nodes| - 1;
      ChainMembers(nodes[..n], size, b);
      var c := ChainOf(nodes[..n], size, b);
      assert forall j :: 0 <= j < |c| ==> c[j] in c;
      assert forall id :: 0 <= id < n ==> nodes[..n][id] == nodes[id];
    }
  }

  // Every id is in exactly one chain: that of its key.
  lemma OneChain(nodes: seq<Node>, size: nat, id: nat, b: nat)
    requires size > 0 && id < |nodes| && b < size
    ensures id in Layout(nodes, size)[b] <==> b == nodes[id].key % size
  {
    ChainMembers(nodes, size, b);
  }

  lemma LayoutAdd(nodes: seq<Node>, x: Node, size: nat)
    requires size > 0
    ensures var b, t := x.key % size, Layout(nodes, size);
      b < size && Layout(nodes + [x], size) == t[b := [|nodes|] + t[b]]
  {
    assert (nodes + [x])[..|nodes|] == nodes;
    var b, t := x.key % size, Layout(nodes, size);
    forall c: nat | c < size
      ensures Layout(nodes + [x], size)[c] == t[b := [|nodes|] + t[b]][c]
    {
    }
  }

  lemma {:induction false} LayoutEmpty(size: nat)
    requires size > 0
    ensures Filled(seq(size, _ => [])) == 0 && Lengths(seq(size, _ => [])) == 0
    ensures Layout([], size) == seq(size, _ => [])
  {
    var t: seq<Chain> := seq(size, _ => []);
    AllEmpty(t);
  }

  lemma {:induction false} AllEmpty(t: seq<Chain>)
    requires forall b :: 0 <= b < |t| ==> t[b] == []
    ensures Filled(t) == 0 && Lengths(t) == 0
  {
    if t != [] {
      AllEmpty(t[..|t| - 1]);
    }
  }

  lemma {:induction false} CountsPush(t: seq<Chain>, b: nat, id: nat)
    requires b < |t|
    ensures Filled(t[b := [id] + t[b]]) == Filled(t) + if t[b] == [] then 1 else 0
    ensures Lengths(t[b := [id] + t[b]]) == Lengths(t) + 1
  {
    var n := |t| - 1;
    if b == n {
      assert t[b := [id] + t[b]][..n] == t[..n];
    } else {
      assert t[b := [id] + t[b]][..n] == t[..n][b := [id] + t[b]];
      CountsPush(t[..n], b, id);
    }
  }

  // The chains together have one entry for each node.
  lemma {:induction false} LayoutLengths(nodes: seq<Node>, size: nat)
    requires size > 0
    ensures Lengths(Layout(nodes, size)) == |nodes|
  {
    if nodes == [] {
      AllEmpty(Layout(nodes, size));
    } else {
      var n := |nodes| - 1;
      LayoutLengths(nodes[..n], size);
      LayoutAdd(nodes[..n], nodes[n], size);
      assert nodes[..n] + [nodes[n]] == nodes;
      CountsPush(Layout(nodes[..n], size), nodes[n].key % size, n);
    }
  }

  // ---- the table ----

  class RawHashTable {
    const vInitialSize: nat
    const vCompletionRate: real
    // the hash code, and the comparison of the bytes of two elements with one hash code
    const hash: seq<byte> -> nat
    const same: (seq<byte>, seq<byte>) -> bool
    var vTable: seq<Chain>
    var vNodes: seq<Node>
    var vFilled: nat
    var vColl: nat

    ghost predicate Valid()
      reads this
    {
      && vInitialSize > 0 && |vTable| > 0 && vTable == Layout(vNodes, |vTable|)
      && vFilled == Filled(vTable) && vFilled + vColl == |vNodes|
    }

    constructor (aInitialSize: nat, aCompletionRate: real, hash: seq<byte> -> nat, same: (seq<byte>, seq<byte>) -> bool)
      requires aInitialSize > 0
      ensures Valid() && vNodes == [] && |vTable| == aInitialSize
      ensures this.hash == hash && this.same == same
    {
      vInitialSize, vCompletionRate, this.hash, this.same := aInitialSize, aCompletionRate, hash, same;
      vTable, vNodes, vFilled, vColl := [], [], 0, 0;
      new;
      Init();
    }

    method Init()
      requires vInitialSize > 0 && vNodes == []
      modifies this`vTable, this`vFilled, this`vColl
      ensures Valid() && |vTable| == vInitialSize
    {
      vColl := 0;
      vFilled := 0;
      vTable := seq(vInitialSize, _ => []);
      LayoutEmpty(vInitialSize);
    }

    method Clear()
      requires Valid()
      modifies this
      ensures Valid() && vNodes == [] && |vTable| == vInitialSize
    {
      vTable := [];
      vNodes := [];
      Init();
    }

    // A node becomes the head of its chain.
    method Push(key: nat, id: nat, ghost nodes: seq<Node>, ghost x: Node)
      requires |vTable| > 0 && vTable == Layout(nodes, |vTable|) && x.key == key && id == |nodes|
      requires vFilled == Filled(vTable) && vFilled + vColl == |nodes|
      modifies this`vTable, this`vFilled, this`vColl
      ensures |vTable| == old(|vTable|) && vTable == Layout(nodes + [x], |vTable|)
      ensures vFilled == Filled(vTable) && vFilled + vColl == |nodes| + 1
    {
      var n := key % |vTable|;
      LayoutAdd(nodes, x, |vTable|);
      CountsPush(vTable, n, id);
      if vTable[n] == [] {
        vFilled := vFilled + 1;
      } else {
        vColl := vColl + 1;
      }
      vTable := vTable[n := [id] + vTable[n]];
    }

    predicate Crowded(filled: nat, size: nat)
      requires size > 0
    {
      filled as real / size as real > vCompletionRate
    }

    // Twice the buckets and one, and every node put in again.
    method Resize()
      requires Valid()
      modifies this`vTable, this`vFilled, this`vColl
      ensures Valid() && |vTable| == 2 * old(|vTable|) + 1
    {
      hide ChainOf;
      hide Filled;
      hide Lengths;
      vColl := 0;
      vFilled := 0;
      vTable := seq(|vTable| * 2 + 1, _ => []);
      LayoutEmpty(|vTable|);
      assert vNodes[..0] == [];
      for node_n := 0 to |vNodes|
        invariant |vTable| == 2 * old(|vTable|) + 1 && vTable == Layout(vNodes[..node_n], |vTable|)
        invariant vFilled == Filled(vTable) && vFilled + vColl == node_n
      {
        assert vNodes[..node_n] + [vNodes[node_n]] == vNodes[..node_n + 1];
        Push(vNodes[node_n].key, node_n, vNodes[..node_n], vNodes[node_n]);
      }
      assert vNodes[..|vNodes|] == vNodes;
    }

    // Node id has the hash code and the bytes of src.
    predicate IsElement(nodes: seq<Node>, id: nat, src: seq<byte>) {
      id < |nodes| && nodes[id].key == hash(src) && same(src, nodes[id].data)
    }

    // The newest element of a chain with this hash code and these bytes.
    method SearchInSubList(chain: Chain, aHashCode: nat, aSrc: seq<byte>) returns (id: Option<nat>)
      requires aHashCode == hash(aSrc) && forall k :: k in chain ==> k < |vNodes|
      requires forall i, j :: 0 <= i < j < |chain| ==> chain[i] > chain[j]
      ensures id.Some? ==> forall k :: k in chain && k > id.value ==> !IsElement(vNodes, k, aSrc)
      ensures id.Some? ==> id.value in chain && IsElement(vNodes, id.value, aSrc)
      ensures id == None ==> forall k :: k in chain ==> !IsElement(vNodes, k, aSrc)
    {
      var iter := 0;
      while iter < |chain|
        invariant iter <= |chain| && forall k :: 0 <= k < iter ==> !IsElement(vNodes, chain[k], aSrc)
      {
        assert chain[iter] in chain;
        var node := vNodes[chain[iter]];
        if aHashCode == node.key && same(aSrc, node.data) {
          return Some(chain[iter]);
        }
        iter := iter + 1;
      }
      id := None;
    }

    // The search in the bucket of aSrc: the id of the newest equal element; None when no node of the whole
    // table is equal.
    method SearchBucket(aSrc: seq<byte>) returns (id: Option<nat>)
      requires Valid()
      ensures id.Some? ==> IsElement(vNodes, id.value, aSrc)
      ensures id.Some? ==> forall k: nat :: k > id.value ==> !IsElement(vNodes, k, aSrc)
      ensures id == None <==> forall k: nat :: !IsElement(vNodes, k, aSrc)
    {
      var key := hash(aSrc);
      var n := key % |vTable|;
      ChainMembers(vNodes, |vTable|, n);
      forall k: nat
        ensures IsElement(vNodes, k, aSrc) ==> k in vTable[n]
      {
      }
      id := SearchInSubList(vTable[n], key, aSrc);
    }

    lemma EmptyBucket(aSrc: seq<byte>)
      requires Valid() && vTable[hash(aSrc) % |vTable|] == []
      ensures forall k: nat :: !IsElement(vNodes, k, aSrc)
    {
      var n := hash(aSrc) % |vTable|;
      ChainMembers(vNodes, |vTable|, n);
      forall k: nat
        ensures !IsElement(vNodes, k, aSrc)
      {
        assert k !in vTable[n];
      }
    }

    // The head of an empty bucket is null, and Search does not look before using it.
    method Search(aSrc: seq<byte>) returns (r: Searched)
      requires Valid()
      ensures r == NullHead <==> forall k: nat :: k < |vNodes| ==> vNodes[k].key % |vTable| != hash(aSrc) % |vTable|
      ensures r.Found? ==> IsElement(vNodes, r.id, aSrc) && forall k: nat :: k > r.id ==> !IsElement(vNodes, k, aSrc)
      ensures r.Found? <==> exists k: nat :: IsElement(vNodes, k, aSrc)
    {
      var n := hash(aSrc) % |vTable|;
      ChainMembers(vNodes, |vTable|, n);
      if vTable[n] == [] {
        return NullHead;
      }
      assert vTable[n][0] in vTable[n];
      var id := SearchBucket(aSrc);
      r := if id.Some? then Found(id.value) else Missing;
    }

    // The id of an equal element, or the next id for a new one.
    method Insert(aSrc: seq<byte>) returns (id: nat)
      requires Valid()
      modifies this
      ensures Valid()
      ensures (exists k: nat :: IsElement(old(vNodes), k, aSrc)) ==>
        vNodes == old(vNodes) && IsElement(vNodes, id, aSrc) && forall k: nat :: k > id ==> !IsElement(vNodes, k, aSrc)
      ensures (forall k: nat :: !IsElement(old(vNodes), k, aSrc)) ==>
        id == old(|vNodes|) && vNodes == old(vNodes) + [Node(hash(aSrc), aSrc)]
      ensures |vTable| ==
        if old(vFilled) as real / old(|vTable|) as real > vCompletionRate then 2 * old(|vTable|) + 1 else old(|vTable|)
    {
      hide ChainOf;
      if Crowded(vFilled, |vTable|) {
        Resize();
      }
      var found: Option<nat> := None;
      if vTable[hash(aSrc) % |vTable|] != [] {
        found := SearchBucket(aSrc);
      } else {
        EmptyBucket(aSrc);
      }
      if found.Some? {
        return found.value;
      }
      var key := hash(aSrc);
      id := |vNodes|;
      Push(key, id, vNodes, Node(key, aSrc));
      vNodes := vNodes + [Node(key, aSrc)];
    }

    // ---- statistics ----

    method GetMaxListLen() returns (max: nat)
      requires Valid()
      ensures forall b :: 0 <= b < |vTable| ==> |vTable[b]| <= max
      ensures exists b :: 0 <= b < |vTable| && |vTable[b]| == max
    {
      max := 0;
      ghost var at := 0;
      for list_n := 0 to |vTable|
        invariant forall b :: 0 <= b < list_n ==> |vTable[b]| <= max
        invariant 0 <= at < |vTable| && (max == |vTable[at]| || max == 0)
      {
        if max < |vTable[list_n]| {
          max := |vTable[list_n]|;
          at := list_n;
        }
      }
      assert |vTable[at]| <= max;
    }

    // The sum of the lengths is the number of elements, so the average is elements by used buckets.
    method GetAvgListLen() returns (sum: nat, cnt: nat)
      requires Valid()
      ensures sum == |vNodes| && cnt == vFilled
    {
      sum, cnt := 0, 0;
      for list_n := 0 to |vTable|
        invariant sum == Lengths(vTable[..list_n]) && cnt == Filled(vTable[..list_n])
      {
        assert vTable[..list_n + 1][..list_n] == vTable[..list_n];
        if vTable[list_n] != [] {
          cnt := cnt + 1;
          sum := sum + |vTable[list_n]|;
        }
      }
      assert vTable[..|vTable|] == vTable;
      LayoutLengths(vNodes, |vTable|);
    }
  }
}
