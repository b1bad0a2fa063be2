// Names with dense ids: an index by hash and name, its reverse by id, and their saved form.
module NameIndex {
  import opened Bytes
  import opened NameOrder
  import opened NameRuns
  import opened NameImage
  import opened NameSaver

  datatype State = Closed | ReadOnly | ReadWrite

  datatype ReturnCode = Success | ElementExists | InvArgs | InvState | LimitIsReached | InvData

  lemma InsertSorted(index: seq<Entry>, pos: nat, e: Entry)
    requires Sorted(index) && Located(index, KeyOf(e.name), pos, false)
    ensures Sorted(Inserted(index, pos, e))
  {
    hide KeyOf;
    hide Key.Less;
    var after := Inserted(index, pos, e);
    forall i, j | 0 <= i < j < |after|
      ensures K(after, i).Less(K(after, j))
    {
      if i < pos {
        assert K(after, i) == K(index, i);
      } else if i > pos {
        assert K(after, i) == K(index, i - 1);
      }
      if j < pos {
        assert K(after, j) == K(index, j);
      } else if j > pos {
        assert K(after, j) == K(index, j - 1);
      }
    }
  }

  lemma InsertInverse(index: seq<Entry>, reverse: seq<Entry>, pos: nat, e: Entry)
    requires Inverse(index, reverse) && pos <= |index| && e.id == |reverse|
    ensures Inverse(Inserted(index, pos, e), reverse + [e])
  {
    var after, ids := Inserted(index, pos, e), reverse + [e];
    forall i | 0 <= i < |after|
      ensures after[i].id < |ids| && ids[after[i].id] == after[i]
    {
      if i < pos {
        assert after[i] == index[i];
      } else if i > pos {
        assert after[i] == index[i - 1];
      }
    }
    forall id | 0 <= id < |ids|
      ensures ids[id].id == id && ids[id] in after
    {
      if id < |reverse| {
        var i :| 0 <= i < |index| && index[i] == reverse[id];
        assert after[if i < pos then i else i + 1] == reverse[id];
      } else {
        assert after[pos] == e;
      }
    }
  }

  lemma PlacedAfter(index: seq<Entry>, j: nat, k: Key)
    requires Sorted(index) && j < |index| && K(index, j).Less(k) && Above(index, j + 1, k)
    ensures Located(index, k, j + 1, false)
  {
    KeysBelow(index, j, k);
  }

  lemma PlacedBefore(index: seq<Entry>, j: nat, k: Key)
    requires Sorted(index) && j < |index| && k.Less(K(index, j)) && Below(index, j, k)
    ensures Located(index, k, j, false)
  {
    KeysAbove(index, j, k);
  }

  // What the in-place search answers for a key whose hash starts at low.
  predicate LocatedRO(index: seq<Entry>, k: Key, low: nat, pos: nat, found: bool) {
    Located(index, k, pos, found) || (!found && pos == low + 1 && Located(index, k, low, false))
  }

  lemma LocatedROAnswers(index: seq<Entry>, k: Key, low: nat, pos: nat, found: bool)
    requires Sorted(index) && LocatedRO(index, k, low, pos, found)
    ensures found <==> Contains(index, k)
  {
    if Located(index, k, pos, found) {
      LocatedUnique(index, k, pos, found);
    } else {
      LocatedUnique(index, k, low, false);
    }
  }

  // Position p is the first one of this hash.
  predicate StartsHash(index: seq<Entry>, p: nat, hash: nat) {
    p < |index| && index[p].hash == hash && (p == 0 || index[p - 1].hash != hash)
  }

  // Where the in-place search puts a missing key: one too far exactly when it precedes all keys of its hash.
  ghost predicate PlacedRO(index: seq<Entry>, k: Key, pos: nat) {
    exists p: nat :: Located(index, k, p, false) && pos == p + if StartsHash(index, p, k.hash) then 1 else 0
  }

  lemma PlacedRight(index: seq<Entry>, k: Key, pos: nat)
    requires Located(index, k, pos, false) && !StartsHash(index, pos, k.hash)
    ensures PlacedRO(index, k, pos)
  {
  }

  lemma PlacedFar(index: seq<Entry>, k: Key, low: nat)
    requires Located(index, k, low, false) && StartsHash(index, low, k.hash)
    ensures PlacedRO(index, k, low + 1)
  {
  }

  // ! of an int
  function Not(n: int): int {
    if n == 0 then 1 else 0
  }

  // Some entry of key k has this id.
  predicate Known(index: seq<Entry>, k: Key, id: nat) {
    exists i :: 0 <= i < |index| && K(index, i) == k && index[i].id == id
  }

  // The buffer reads, by id, as the reverse index.
  ghost predicate ShowsNames(b: seq<byte>, reverse: seq<Entry>) {
    Readable(b) && ROIndexSize(b) == |reverse|
    && forall id: nat :: id < |reverse| ==> IdFits(b, id) && EntryById(b, id) == reverse[id].name
  }

  // The sizes a buffer names are possible.
  predicate HasFrame(b: seq<byte>) {
    |b| >= MIN_MEMORY && MIN_MEMORY <= U32(b, 0) <= |b|
  }

  // The size is repeated at the end.
  predicate Trailer(b: seq<byte>)
    requires HasFrame(b)
  {
    U32(b, U32(b, 0) - 4) == U32(b, 0)
  }

  // A saved index passes the checks of Open and Load, and reads, in place or in memory, as the saved one.
  lemma SavedOpens(b: seq<byte>, md5: Digest, index: seq<Entry>, reverse: seq<Entry>)
    requires SavedAs(b, md5, index) && Matched(index, reverse)
    ensures HasFrame(b) && Trailer(b) && U32(b, 0) == Total(index) && b[4..92] == md5
    ensures Shows(b, index) && ShowsNames(b, reverse) && RONextID(b) == |index|
  {
    hide U32;
    hide SavedAs;
    hide Matched;
    MatchedInverse(index, reverse);
    SavedReads(b, md5, index, reverse);
    SavedSize(b, md5, index);
  }

  lemma MatchedInverse(index: seq<Entry>, reverse: seq<Entry>)
    requires Matched(index, reverse)
    ensures Inverse(index, reverse) && |index| == |reverse|
  {
  }

  lemma SavedSize(b: seq<byte>, md5: Digest, index: seq<Entry>)
    requires SavedAs(b, md5, index)
    ensures |b| >= 104 && U32(b, 92) == |index|
  {
    HeaderRead(b, Total(index), md5, |index|, |index|);
  }

  // The positions from low to high are of one hash.
  predicate InHash(index: seq<Entry>, low: nat, high: nat, hash: nat) {
    low < high <= |index| && AllGood(index) && forall i :: low <= i < high ==> index[i].hash == hash
  }

  // Entries of smaller hash lie below a name, entries of greater hash above.
  lemma Around(index: seq<Entry>, name: Name, first: nat, last: nat)
    requires Sorted(index) && AllGood(index) && first <= last <= |index|
    requires first > 0 ==> index[first - 1].hash < Hash(name)
    requires last < |index| ==> index[last].hash > Hash(name)
    ensures Below(index, first, KeyOf(name)) && Above(index, last, KeyOf(name))
  {
    if first > 0 {
      HashesBelow(index, first - 1, name);
    }
    if last < |index| {
      HashesAbove(index, last, name);
    }
  }

  lemma Surround(index: seq<Entry>, name: Name, first: nat, last: nat)
    requires Sorted(index) && InHash(index, first, last, Hash(name))
    requires first > 0 ==> index[first - 1].hash != Hash(name)
    requires last < |index| ==> index[last].hash != Hash(name)
    ensures Below(index, first, KeyOf(name)) && Above(index, last, KeyOf(name))
  {
    hide Hash;
    if first > 0 {
      HashOrder(index, first - 1, first);
    }
    if last < |index| {
      HashOrder(index, last - 1, last);
    }
    Around(index, name, first, last);
  }

  // The forward and the reverse index hold the same keys.
  lemma SameKeys(index: seq<Entry>, reverse: seq<Entry>, k: Key)
    requires Inverse(index, reverse)
    ensures Contains(index, k) <==> Contains(reverse, k)
  {
    if Contains(index, k) {
      var i :| 0 <= i < |index| && K(index, i) == k;
      assert K(reverse, index[i].id) == k;
    }
    if Contains(reverse, k) {
      var id :| 0 <= id < |reverse| && K(reverse, id) == k;
      assert reverse[id] in index;
      var i :| 0 <= i < |index| && index[i] == reverse[id];
      assert K(index, i) == k;
    }
  }

  // A sorted index of good entries and its reverse.
  ghost predicate Matched(index: seq<Entry>, reverse: seq<Entry>) {
    Sorted(index) && AllGood(index) && Inverse(index, reverse)
  }

  lemma InsertMatched(index: seq<Entry>, reverse: seq<Entry>, pos: nat, e: Entry)
    requires Matched(index, reverse) && Located(index, KeyOf(e.name), pos, false)
    requires e.Good() && e.id == |reverse|
    ensures Matched(Inserted(index, pos, e), reverse + [e])
  {
    InsertSorted(index, pos, e);
    InsertInverse(index, reverse, pos, e);
  }

  lemma InsertTotal(index: seq<Entry>, pos: nat, e: Entry, need: nat)
    requires pos <= |index| && need == Total(index) && need + 48 + |e.name| < 0xFFFF_FFFF
    ensures Total(Inserted(index, pos, e)) == Align(need + 5 * 4 + |e.name| + 1) < 0x1_0000_0000
    ensures |index| < 0x1_0000_0000
  {
    TotalInserted(index, pos, e);
  }

  class NameIndex {
    var vState: State
    var vRWIndex: seq<Entry>
    var vRWReverseIndex: seq<Entry>
    var vNextId: nat
    var vNeedMemorySize: nat
    var vBuffer: seq<byte>
    var vMD5State: Digest
    const md5Init: Digest
    const md5Update: (Digest, seq<byte>) -> Digest

    ghost predicate Valid()
      reads this
    {
      match vState
      case Closed => vRWIndex == [] && vRWReverseIndex == [] && vNextId == 0 && vNeedMemorySize == 0
      case ReadOnly =>
        MIN_MEMORY <= vNeedMemorySize <= |vBuffer| && vNextId == RONextID(vBuffer)
        && vNeedMemorySize == U32(vBuffer, 0) == U32(vBuffer, vNeedMemorySize - 4)
      case ReadWrite =>
        Matched(vRWIndex, vRWReverseIndex) && vNextId == |vRWReverseIndex|
        && vNeedMemorySize == Total(vRWIndex) < 0x1_0000_0000
    }

    constructor (init: Digest, update: (Digest, seq<byte>) -> Digest)
      ensures Valid() && vState == Closed && md5Init == init && md5Update == update
    {
      md5Init, md5Update := init, update;
      vState, vRWIndex, vRWReverseIndex := Closed, [], [];
      vNextId, vNeedMemorySize, vBuffer, vMD5State := 0, 0, [], init;
    }

    method Reset()
      modifies this
      ensures Valid() && vState == Closed && vMD5State == md5Init
    {
      vState, vRWIndex, vRWReverseIndex := Closed, [], [];
      vNextId, vNeedMemorySize, vBuffer, vMD5State := 0, 0, [], md5Init;
    }

    method Create()
      modifies this
      ensures Valid() && vState == ReadWrite && vRWReverseIndex == Run([]) && vMD5State == md5Init
    {
      Reset();
      vNeedMemorySize := MIN_MEMORY;
      vState := ReadWrite;
      vNextId := 0;
    }

    // ---- searching ----

    // The binary search for a hash: one position that has it, or the insertion position.
    method FindHashRW(aHash: nat) returns (found: nat, exists_: bool)
      requires Sorted(vRWIndex) && AllGood(vRWIndex) && vRWIndex != []
      ensures exists_ ==> found < |vRWIndex| && vRWIndex[found].hash == aHash
      ensures !exists_ ==> found <= |vRWIndex|
      ensures !exists_ ==> found > 0 ==> vRWIndex[found - 1].hash < aHash
      ensures !exists_ ==> found < |vRWIndex| ==> aHash < vRWIndex[found].hash
    {
      var first: nat, last := 0, |vRWIndex|;
      if aHash == vRWIndex[first].hash {
        return first, true;
      } else if aHash == vRWIndex[last - 1].hash {
        return last - 1, true;
      } else if aHash > vRWIndex[last - 1].hash {
        return last, false;
      } else if aHash < vRWIndex[first].hash {
        return first, false;
      }
      while last > first + 1
        invariant first < last <= |vRWIndex|
        invariant vRWIndex[first].hash < aHash
        invariant aHash < vRWIndex[if last < |vRWIndex| then last else last - 1].hash
      {
        var center := (first + last) / 2;
        if vRWIndex[center].hash == aHash {
          return center, true;
        } else if vRWIndex[center].hash > aHash {
          last := center;
        } else {
          first := center;
        }
      }
      return last, false;
    }

    // The neighbours of one hash.
    method SameHashRW(aHash: nat, found: nat) returns (first: nat, last: nat)
      requires found < |vRWIndex| && vRWIndex[found].hash == aHash && AllGood(vRWIndex)
      ensures first <= found && InHash(vRWIndex, first, last, aHash)
      ensures first > 0 ==> vRWIndex[first - 1].hash != aHash
      ensures last < |vRWIndex| ==> vRWIndex[last].hash != aHash
    {
      first := found;
      while first > 0 && vRWIndex[first - 1].hash == aHash
        invariant first <= found
        invariant forall i :: first <= i <= found ==> vRWIndex[i].hash == aHash
      {
        first := first - 1;
      }
      last := found + 1;
      while last < |vRWIndex| && vRWIndex[last].hash == aHash
        invariant found < last <= |vRWIndex|
        invariant forall i :: first <= i < last ==> vRWIndex[i].hash == aHash
      {
        last := last + 1;
      }
    }

    // strncmp of a name and the name at position i
    method CompareRW(aName: Name, i: nat, ghost low: nat, ghost high: nat) returns (c: int)
      requires InHash(vRWIndex, low, high, Hash(aName)) && low <= i < high
      ensures c < 0 <==> KeyOf(aName).Less(K(vRWIndex, i))
      ensures c > 0 <==> K(vRWIndex, i).Less(KeyOf(aName))
      ensures c == 0 <==> KeyOf(aName) == K(vRWIndex, i)
    {
      StrNCmpIsLess(aName, vRWIndex[i].name);
      c := StrNCmp(aName, vRWIndex[i].name, |aName|);
    }

    // The binary search for a name among the entries of its hash.
    method FindNameRW(aName: Name, low: nat, high: nat) returns (pos: nat, exists_: bool)
      requires Sorted(vRWIndex) && InHash(vRWIndex, low, high, Hash(aName))
      requires Below(vRWIndex, low, KeyOf(aName)) && Above(vRWIndex, high, KeyOf(aName))
      ensures Located(vRWIndex, KeyOf(aName), pos, exists_)
    {
      hide Hash;
      ghost var k := KeyOf(aName);
      var first, last := low, high;
      var c := CompareRW(aName, first, low, high);
      var d := CompareRW(aName, last - 1, low, high);
      if c == 0 {
        return first, true;
      } else if d == 0 {
        return last - 1, true;
      } else if d > 0 {
        PlacedAfter(vRWIndex, last - 1, k);
        return last, false;
      } else if c < 0 {
        PlacedBefore(vRWIndex, first, k);
        return first, false;
      }
      pos, exists_ := BisectNameRW(aName, first, last);
    }

    method BisectNameRW(aName: Name, low: nat, high: nat) returns (pos: nat, exists_: bool)
      requires Sorted(vRWIndex) && InHash(vRWIndex, low, high, Hash(aName))
      requires K(vRWIndex, low).Less(KeyOf(aName)) && Above(vRWIndex, high, KeyOf(aName))
      ensures Located(vRWIndex, KeyOf(aName), pos, exists_)
    {
      hide Hash;
      ghost var k := KeyOf(aName);
      var first, last := low, high;
      while last > first + 1
        invariant low <= first < last <= high
        invariant K(vRWIndex, first).Less(k) && Above(vRWIndex, last, k)
      {
        var center := (first + last) / 2;
        var c := CompareRW(aName, center, low, high);
        if c == 0 {
          return center, true;
        } else if c < 0 {
          last := center;
          KeysAbove(vRWIndex, last, k);
        } else {
          first := center;
        }
      }
      PlacedAfter(vRWIndex, first, k);
      return last, false;
    }

    // The position of a name, or the one where it keeps the order.
    method SearchRW(aName: Name) returns (pos: nat, exists_: bool, hash: nat)
      requires Sorted(vRWIndex) && AllGood(vRWIndex)
      ensures hash == Hash(aName)
      ensures Located(vRWIndex, KeyOf(aName), pos, exists_)
    {
      hash := ComputeHash(aName);
      if |vRWIndex| == 0 {
        return 0, false, hash;
      }
      pos, exists_ := FindHashRW(hash);
      if !exists_ {
        Around(vRWIndex, aName, pos, pos);
        return;
      }
      var first, last := SameHashRW(hash, pos);
      Surround(vRWIndex, aName, first, last);
      pos, exists_ := FindNameRW(aName, first, last);
    }

    // ---- adding ----

    // Both indexes, the needed memory and the digest, extended by a new name.
    method InsertName(aName: Name, pos: nat, hash: nat) returns (aId: nat)
      requires Matched(vRWIndex, vRWReverseIndex) && |aName| < MAX_NAME && hash == Hash(aName)
      requires vNextId == |vRWReverseIndex| && vNeedMemorySize == Total(vRWIndex)
      requires Located(vRWIndex, KeyOf(aName), pos, false) && vNeedMemorySize + 48 + |aName| < 0xFFFF_FFFF
      modifies this`vRWIndex, this`vRWReverseIndex, this`vNextId, this`vNeedMemorySize, this`vMD5State
      ensures Matched(vRWIndex, vRWReverseIndex)
      ensures vNextId == |vRWReverseIndex| && vNeedMemorySize == Total(vRWIndex) < 0x1_0000_0000
      ensures vRWReverseIndex == old(vRWReverseIndex) + [Entry(aName, hash, aId)] && aId == old(|vRWReverseIndex|)
      ensures aId < 0x1_0000_0000 && vMD5State == md5Update(md5Update(old(vMD5State), aName), LE32(aId))
    {
      hide Align;
      hide Total;
      aId := vNextId;
      vNextId := vNextId + 1;
      var name := Entry(aName, hash, aId);
      InsertMatched(vRWIndex, vRWReverseIndex, pos, name);
      InsertTotal(vRWIndex, pos, name, vNeedMemorySize);
      vRWIndex := Inserted(vRWIndex, pos, name);
      vRWReverseIndex := vRWReverseIndex + [name];
      vNeedMemorySize := vNeedMemorySize + 5 * 4 + |aName| + 1;
      vNeedMemorySize := Align(vNeedMemorySize);
      vMD5State := md5Update(md5Update(vMD5State, aName), LE32(aId));
    }

    // The reverse index grows by a new name, under the next id; a known name gives its id.
    method AddName(aName: Name) returns (r: ReturnCode, aId: nat)
      requires Valid()
      modifies this
      ensures Valid() && vState == old(vState) && vBuffer == old(vBuffer)
      ensures r == InvArgs <==> |aName| >= 0xFF_FFFF
      ensures r == InvState <==> |aName| < 0xFF_FFFF && vState != ReadWrite
      ensures r == LimitIsReached <==>
        |aName| < 0xFF_FFFF && vState == ReadWrite && old(vNeedMemorySize) + 48 + |aName| >= 0xFFFF_FFFF
      ensures r == Success || r == ElementExists ==>
        vRWReverseIndex == Added(old(vRWReverseIndex), aName)
        && aId < |vRWReverseIndex| && K(vRWReverseIndex, aId) == KeyOf(aName)
      ensures r == Success ==> aId == old(|vRWReverseIndex|) && !Contains(old(vRWReverseIndex), KeyOf(aName))
      ensures r == Success ==> vMD5State == md5Update(md5Update(old(vMD5State), aName), LE32(aId))
      ensures r == ElementExists ==> Contains(old(vRWReverseIndex), KeyOf(aName))
      ensures r != Success ==>
        vRWIndex == old(vRWIndex) && vRWReverseIndex == old(vRWReverseIndex) && vMD5State == old(vMD5State)
        && vNextId == old(vNextId) && vNeedMemorySize == old(vNeedMemorySize)
      ensures r != InvData
    {
      aId := 0;
      if |aName| >= MAX_NAME {
        return InvArgs, aId;
      }
      if vState != ReadWrite {
        return InvState, aId;
      }
      if vNeedMemorySize + 24 + 5 * 4 + |aName| + 4 >= 0xFFFF_FFFF {
        return LimitIsReached, aId;
      }
      var pos, found, hash := SearchRW(aName);
      SameKeys(vRWIndex, vRWReverseIndex, KeyOf(aName));
      LocatedUnique(vRWIndex, KeyOf(aName), pos, found);
      if found {
        aId := vRWIndex[pos].id;
        return ElementExists, aId;
      }
      aId := InsertName(aName, pos, hash);
      r := Success;
    }

    // ---- searching in place ----

    method FindHashRO(aHash: nat, ghost index: seq<Entry>) returns (found: nat, exists_: bool)
      requires Shows(vBuffer, index) && Sorted(index) && AllGood(index) && index != []
      ensures exists_ ==> found < |index| && index[found].hash == aHash
      ensures !exists_ ==> found <= |index|
      ensures !exists_ ==> found > 0 ==> index[found - 1].hash < aHash
      ensures !exists_ ==> found < |index| ==> aHash < index[found].hash
    {
      hide Shows;
      var first: nat, last := 0, SizeShown(vBuffer, index);
      if aHash == HashShown(vBuffer, first, index) {
        return first, true;
      } else if aHash == HashShown(vBuffer, last - 1, index) {
        return last - 1, true;
      } else if aHash > HashShown(vBuffer, last - 1, index) {
        return last, false;
      } else if aHash < HashShown(vBuffer, first, index) {
        return first, false;
      }
      while last > first + 1
        invariant first < last <= |index|
        invariant index[first].hash < aHash < index[if last < |index| then last else last - 1].hash
      {
        var center := (first + last) / 2;
        if HashShown(vBuffer, center, index) == aHash {
          return center, true;
        } else if HashShown(vBuffer, center, index) > aHash {
          last := center;
        } else {
          first := center;
        }
      }
      return last, false;
    }

    method SameHashRO(aHash: nat, found: nat, ghost index: seq<Entry>) returns (first: nat, last: nat)
      requires Shows(vBuffer, index) && AllGood(index) && found < |index| && index[found].hash == aHash
      ensures first <= found && InHash(index, first, last, aHash)
      ensures first > 0 ==> index[first - 1].hash != aHash
      ensures last < |index| ==> index[last].hash != aHash
    {
      hide Shows;
      first := found;
      while first > 0 && HashShown(vBuffer, first - 1, index) == aHash
        invariant first <= found
        invariant forall i :: first <= i <= found ==> index[i].hash == aHash
      {
        first := first - 1;
      }
      last := found + 1;
      while last < SizeShown(vBuffer, index) && HashShown(vBuffer, last, index) == aHash
        invariant found < last <= |index|
        invariant forall i :: first <= i < last ==> index[i].hash == aHash
      {
        last := last + 1;
      }
    }

    method CompareRO(aName: Name, i: nat, ghost low: nat, ghost high: nat, ghost index: seq<Entry>) returns (c: int)
      requires Shows(vBuffer, index) && InHash(index, low, high, Hash(aName)) && low <= i < high
      ensures c < 0 <==> KeyOf(aName).Less(K(index, i))
      ensures c > 0 <==> K(index, i).Less(KeyOf(aName))
      ensures c == 0 <==> KeyOf(aName) == K(index, i)
    {
      hide Hash;
      hide Shows;
      var name := NameShown(vBuffer, i, index);
      assert index[i].Good();
      StrNCmpIsLess(aName, name);
      c := StrNCmp(aName, name, |aName|);
    }

    // The bounds tests of the in-place search compare a negated strncmp and never hold, so a name before
    // the first of its hash is placed one too far. Whether the name is there comes out right.
    method FindNameRO(aName: Name, low: nat, high: nat, ghost index: seq<Entry>) returns (pos: nat, exists_: bool)
      requires Shows(vBuffer, index) && Sorted(index) && InHash(index, low, high, Hash(aName))
      requires Below(index, low, KeyOf(aName)) && Above(index, high, KeyOf(aName))
      ensures LocatedRO(index, KeyOf(aName), low, pos, exists_) && (!exists_ ==> low < pos <= high)
    {
      hide Hash;
      hide Shows;
      var first, last := low, high;
      var c := CompareRO(aName, first, low, high, index);
      var d := CompareRO(aName, last - 1, low, high, index);
      if c == 0 {
        return first, true;
      } else if d == 0 {
        return last - 1, true;
      } else if Not(d) > 0 {
        assert false;
      } else if Not(c) < 0 {
        assert false;
      }
      pos, exists_ := BisectNameRO(aName, first, last, index);
    }

    method BisectNameRO(aName: Name, low: nat, high: nat, ghost index: seq<Entry>) returns (pos: nat, exists_: bool)
      requires Shows(vBuffer, index) && Sorted(index) && InHash(index, low, high, Hash(aName))
      requires K(index, low) != KeyOf(aName)
      requires Below(index, low, KeyOf(aName)) && Above(index, high, KeyOf(aName))
      ensures LocatedRO(index, KeyOf(aName), low, pos, exists_) && (!exists_ ==> low < pos <= high)
    {
      hide Hash;
      hide Shows;
      ghost var k := KeyOf(aName);
      LessTotal(K(index, low), k);
      var first, last := low, high;
      while last > first + 1
        invariant low <= first < last <= high
        invariant first == low || K(index, first).Less(k)
        invariant Above(index, last, k)
      {
        var center := (first + last) / 2;
        var c := CompareRO(aName, center, low, high, index);
        if c == 0 {
          return center, true;
        } else if c < 0 {
          last := center;
          KeysAbove(index, last, k);
        } else {
          first := center;
        }
      }
      if K(index, first).Less(k) {
        PlacedAfter(index, first, k);
      } else {
        PlacedBefore(index, low, k);
      }
      return last, false;
    }

    // Whether a name is there, and where: a missing name before all of its hash is placed one too far.
    method SearchRO(aName: Name, ghost index: seq<Entry>) returns (pos: nat, exists_: bool, hash: nat)
      requires Shows(vBuffer, index) && Sorted(index) && AllGood(index)
      ensures hash == Hash(aName)
      ensures exists_ <==> Contains(index, KeyOf(aName))
      ensures exists_ ==> pos < |index| && K(index, pos) == KeyOf(aName)
      ensures !exists_ ==> PlacedRO(index, KeyOf(aName), pos)
    {
      hide Shows;
      hide Hash;
      ghost var k := KeyOf(aName);
      hash := ComputeHash(aName);
      if SizeShown(vBuffer, index) == 0 {
        PlacedRight(index, k, 0);
        return 0, false, hash;
      }
      pos, exists_ := FindHashRO(hash, index);
      if !exists_ {
        Around(index, aName, pos, pos);
        LocatedUnique(index, k, pos, false);
        PlacedRight(index, k, pos);
        return;
      }
      var first, last := SameHashRO(hash, pos, index);
      Surround(index, aName, first, last);
      pos, exists_ := FindNameRO(aName, first, last, index);
      LocatedROAnswers(index, k, first, pos, exists_);
      if !exists_ {
        if Located(index, k, pos, false) {
          PlacedRight(index, k, pos);
        } else {
          PlacedFar(index, k, first);
        }
      }
    }

    // ---- reading ----

    // The id under which a name is known.
    method Search(aName: Name, ghost index: seq<Entry>) returns (id: Option<nat>)
      requires Valid() && (vState == ReadWrite ==> index == vRWIndex)
      requires vState == ReadOnly ==> Shows(vBuffer, index) && Sorted(index) && AllGood(index)
      ensures vState == Closed ==> id == None
      ensures vState != Closed ==> (id.Some? <==> Contains(index, KeyOf(aName)))
      ensures vState != Closed && id.Some? ==> Known(index, KeyOf(aName), id.value)
    {
      hide Hash;
      hide Shows;
      if vState == Closed {
        return None;
      }
      if vState == ReadWrite {
        var pos, found, hash := SearchRW(aName);
        LocatedUnique(vRWIndex, KeyOf(aName), pos, found);
        id := if found then Some(vRWIndex[pos].id) else None;
      } else {
        var pos, found, hash := SearchRO(aName, index);
        id := if found then Some(IdShown(vBuffer, pos, index)) else None;
      }
    }

    // The name of an id, and its length.
    method GetName(aId: nat, ghost reverse: seq<Entry>) returns (name: Option<Name>, aNameLength: nat)
      requires Valid() && (vState == ReadWrite ==> reverse == vRWReverseIndex)
      requires vState == ReadOnly ==> ShowsNames(vBuffer, reverse)
      ensures vState == Closed ==> name == None && aNameLength == 0
      ensures vState != Closed && aId < |reverse| ==> name == Some(reverse[aId].name) && aNameLength == |reverse[aId].name|
      ensures vState != Closed && aId >= |reverse| ==> name == None && aNameLength == 0
    {
      if vState == ReadWrite {
        if aId >= |vRWReverseIndex| {
          return None, 0;
        }
        return Some(vRWReverseIndex[aId].name), |vRWReverseIndex[aId].name|;
      } else if vState == ReadOnly {
        if aId >= ROIndexSize(vBuffer) {
          return None, 0;
        }
        assert IdFits(vBuffer, aId);
        return Some(EntryById(vBuffer, aId)), RONameLength(vBuffer, ElementByID(vBuffer, aId));
      }
      return None, 0;
    }

    // ---- saving ----

    // The whole image and nothing behind it is written, apart from the padding.
    method Save(a: array<byte>) returns (written: nat)
      requires Valid() && vNeedMemorySize <= a.Length
      modifies a
      ensures written == vNeedMemorySize
      ensures vState == ReadWrite ==> SavedAs(a[..], vMD5State, vRWIndex)
      ensures vState == ReadOnly ==> Has(a[..], 0, vBuffer[..vNeedMemorySize])
      ensures forall k :: written <= k < a.Length ==> a[k] == old(a[k])
    {
      if vState == Closed {
        return 0;
      }
      if vState == ReadWrite {
        SaveIndex(a, vMD5State, vRWIndex, vNextId, vNeedMemorySize, vRWReverseIndex);
      } else {
        Store(a, 0, vBuffer[..vNeedMemorySize]);
      }
      written := vNeedMemorySize;
    }

    // ---- opening a saved index ----

    // A buffer whose sizes are not those of a saved index is refused; one whose trailing size is wrong
    // closes the index.
    method Open(aBuffer: seq<byte>) returns (r: ReturnCode)
      requires Valid()
      modifies this
      ensures Valid()
      ensures r == Success <==> HasFrame(aBuffer) && Trailer(aBuffer)
      ensures r == Success ==> vState == ReadOnly && vBuffer == aBuffer && vMD5State == aBuffer[4..92]
      ensures r != Success ==> r == InvData
      ensures !HasFrame(aBuffer) ==> unchanged(this)
      ensures HasFrame(aBuffer) && !Trailer(aBuffer) ==> vState == Closed
    {
      if |aBuffer| < MIN_MEMORY {
        return InvData;
      }
      var memory := U32(aBuffer, 0);
      if memory > |aBuffer| || memory < MIN_MEMORY {
        return InvData;
      }
      Reset();
      vMD5State := aBuffer[4..92];
      vNeedMemorySize := memory;
      vBuffer := aBuffer;
      vNextId := RONextID(vBuffer);
      vState := ReadOnly;
      if U32(vBuffer, vNeedMemorySize - 4) != vNeedMemorySize {
        Reset();
        return InvData;
      }
      return Success;
    }

    // Both indexes are read from the buffer into memory.
    method Load(aBuffer: seq<byte>, ghost index: seq<Entry>, ghost reverse: seq<Entry>) returns (r: ReturnCode)
      requires Valid() && (HasFrame(aBuffer) ==> Shows(aBuffer, index) && Matched(index, reverse))
      requires HasFrame(aBuffer) ==> RONextID(aBuffer) == |index| && U32(aBuffer, 0) == Total(index)
      modifies this
      ensures Valid()
      ensures r == Success <==> HasFrame(aBuffer) && Trailer(aBuffer)
      ensures r == Success ==> vState == ReadWrite && vRWIndex == index && vRWReverseIndex == reverse
      ensures r == Success ==> vMD5State == aBuffer[4..92]
      ensures r != Success ==> r == InvData
      ensures !HasFrame(aBuffer) ==> unchanged(this)
      ensures HasFrame(aBuffer) && !Trailer(aBuffer) ==> vState == Closed
    {
      hide Shows;
      hide Sorted;
      hide AllGood;
      hide Inverse;
      hide RoomOf;
      if |aBuffer| < MIN_MEMORY {
        return InvData;
      }
      var memory := U32(aBuffer, 0);
      if memory > |aBuffer| || memory < MIN_MEMORY {
        return InvData;
      }
      Reset();
      vMD5State := aBuffer[4..92];
      vNeedMemorySize := memory;
      vBuffer := aBuffer;
      vRWIndex, vRWReverseIndex := ReadIndexes(aBuffer, index, reverse);
      vNextId := RONextID(vBuffer);
      vState := ReadWrite;
      if U32(vBuffer, vNeedMemorySize - 4) != vNeedMemorySize {
        Reset();
        return InvData;
      }
      return Success;
    }
  }

  // The loop of Load.
  method ReadIndexes(b: seq<byte>, ghost index: seq<Entry>, ghost reverse: seq<Entry>)
      returns (forward: seq<Entry>, back: seq<Entry>)
    requires Shows(b, index) && Inverse(index, reverse)
    ensures forward == index && back == reverse && |back| == |index|
  {
    hide Shows;
    hide Hash;
    var n := SizeShown(b, index);
    forward, back := [], seq(n, _ => Entry([], 0, 0));
    for i := 0 to n
      invariant forward == index[..i] && |back| == n
      invariant forall j :: 0 <= j < i ==> back[index[j].id] == index[j]
    {
      var name := Entry(NameShown(b, i, index), HashShown(b, i, index), IdShown(b, i, index));
      forward := forward + [name];
      back := back[name.id := name];
    }
    forall id | 0 <= id < n
      ensures back[id] == reverse[id]
    {
      assert reverse[id] in index;
      var i :| 0 <= i < |index| && index[i] == reverse[id];
    }
  }

  // ---- the two modes together ----

  // In a sorted index a key has one id.
  lemma KnownUnique(index: seq<Entry>, k: Key, a: nat, b: nat)
    requires Sorted(index) && Known(index, k, a) && Known(index, k, b)
    ensures a == b
  {
    var i :| 0 <= i < |index| && K(index, i) == k && index[i].id == a;
    var j :| 0 <= j < |index| && K(index, j) == k && index[j].id == b;
    LocatedUnique(index, k, i, true);
    assert Located(index, k, j, true);
  }

  // Saving an index, opening the buffer in place, loading it, and saving the loaded index again.
  method SaveAndReopen(n: NameIndex, a: array<byte>, ro: NameIndex, rw: NameIndex, c: array<byte>)
    requires n.Valid() && n.vState == ReadWrite && ro.Valid() && rw.Valid() && n != ro && n != rw && ro != rw && a != c
    requires n.vNeedMemorySize <= a.Length && n.vNeedMemorySize <= c.Length
    modifies a, c, ro, rw
    ensures ro.Valid() && ro.vState == ReadOnly
    ensures Shows(ro.vBuffer, n.vRWIndex) && ShowsNames(ro.vBuffer, n.vRWReverseIndex)
    ensures rw.Valid() && rw.vState == ReadWrite
    ensures rw.vRWIndex == n.vRWIndex && rw.vRWReverseIndex == n.vRWReverseIndex && rw.vMD5State == n.vMD5State
    ensures forall p: nat :: p < n.vNeedMemorySize && !Padding(n.vRWIndex, p) ==> a[p] == c[p]
  {
    hide Sorted;
    hide AllGood;
    hide SavedAs;
    hide Shows;
    hide ShowsNames;
    hide RoomOf;
    hide Padding;
    hide U32;
    var written := n.Save(a);
    var b := a[..];
    SavedOpens(b, n.vMD5State, n.vRWIndex, n.vRWReverseIndex);
    var r := ro.Open(b);
    r := rw.Load(b, n.vRWIndex, n.vRWReverseIndex);
    written := rw.Save(c);
    forall p: nat | p < n.vNeedMemorySize && !Padding(n.vRWIndex, p)
      ensures a[p] == c[p]
    {
      SameImage(b, c[..], n.vMD5State, n.vRWIndex, n.vRWReverseIndex, p);
    }
  }

  // The search in memory and the search in place of one index answer every name alike, and so do the ids.
  method BothModes(n: NameIndex, ro: NameIndex, aName: Name, aId: nat)
      returns (x: Option<nat>, y: Option<nat>, s: Option<Name>, t: Option<Name>)
    requires n.Valid() && n.vState == ReadWrite && ro.Valid() && ro.vState == ReadOnly
    requires Shows(ro.vBuffer, n.vRWIndex) && ShowsNames(ro.vBuffer, n.vRWReverseIndex)
    ensures x == y && s == t
  {
    x := n.Search(aName, n.vRWIndex);
    y := ro.Search(aName, n.vRWIndex);
    if x.Some? {
      KnownUnique(n.vRWIndex, KeyOf(aName), x.value, y.value);
    }
    var len;
    s, len := n.GetName(aId, n.vRWReverseIndex);
    t, len := ro.GetName(aId, n.vRWReverseIndex);
  }

  // ---- two inputs at which a promise fails ----

  lemma XorNext(s: Name, c: byte)
    ensures XorAll(s + [c]) == Xor(XorAll(s), c)
  {
    assert (s + [c])[..|s|] == s;
  }

  lemma HashOfThree(a: byte, b: byte, c: byte)
    ensures XorAll([a, b, c]) == Xor(Xor(Xor(0, a), b), c)
  {
    hide Xor;
    hide XorAll;
    HashOfTwo(a, b);
    XorNext([a, b], c);
    assert [a, b, c] == [a, b] + [c];
  }

  lemma OneKey()
    ensures KeyOf([0, 1, 2]) == KeyOf([0, 2, 1])
  {
    HashOfThree(0, 1, 2);
    HashOfThree(0, 2, 1);
    assert Xor(0, 0) == 0;
    assert Xor(0, 1) == 1;
    assert Xor(0, 2) == 2;
    assert Xor(1, 2) == 3;
    assert Xor(2, 1) == 3;
  }

  ghost predicate GivesName(n: NameIndex, s: Name)
    reads n
  {
    |n.vRWReverseIndex| == 1 && n.vRWReverseIndex[0].name == s
  }

  // Two names that agree up to a NUL, in length and in their exclusive or, get one id.
  method NulNames(n: NameIndex) returns (first: ReturnCode, second: ReturnCode, a: nat, b: nat)
    requires n.Valid()
    modifies n
    ensures first == Success && second == ElementExists && a == b == 0 && GivesName(n, [0, 1, 2])
  {
    OneKey();
    n.Create();
    first, a := n.AddName([0, 1, 2]);
    second, b := n.AddName([0, 2, 1]);
  }

  lemma HashOfTwo(a: byte, b: byte)
    ensures XorAll([a, b]) == Xor(Xor(0, a), b)
  {
    hide Xor;
    assert XorAll([]) == 0;
    hide XorAll;
    XorNext([], a);
    XorNext([a], b);
    assert [a] == [] + [a] && [a, b] == [a] + [b];
  }

  lemma OneHash()
    ensures Hash([1, 2]) == Hash([2, 1]) && KeyOf([1, 2]).Less(KeyOf([2, 1]))
  {
    HashOfTwo(1, 2);
    HashOfTwo(2, 1);
    assert Xor(0, 1) == 1;
    assert Xor(0, 2) == 2;
    assert Xor(1, 2) == 3;
    assert Xor(2, 1) == 3;
    TruncWhole([1, 2]);
    TruncWhole([2, 1]);
  }

  // With [2, 1] in the index, the missing [1, 2] belongs at 0; the search in place says 1.
  method PlacedTooFar(n: NameIndex, ro: NameIndex) returns (inMemory: nat, inPlace: nat)
    requires n.Valid() && ro.Valid() && n != ro
    modifies n, ro
    ensures inMemory == 0 && inPlace == 1
  {
    hide Shows;
    hide Located;
    hide PlacedRO;
    hide Sorted;
    hide AllGood;
    hide Hash;
    hide Key.Less;
    OneHash();
    WithOne(n);
    var index := n.vRWIndex;
    var found, hash;
    inMemory, found, hash := n.SearchRW([1, 2]);
    OnePlace(index, inMemory, found);
    SaveAndOpen(n, ro);
    inPlace, found, hash := ro.SearchRO([1, 2], index);
    FarPlace(index, inPlace);
  }

  // An index of the single name [2, 1].
  method WithOne(n: NameIndex)
    requires n.Valid()
    modifies n
    ensures n.Valid() && n.vState == ReadWrite && |n.vRWIndex| == 1 && n.vRWIndex[0].name == [2, 1]
    ensures n.vRWIndex[0].hash == Hash([2, 1])
  {
    OneHash();
    n.Create();
    var r, id := n.AddName([2, 1]);
    assert n.vRWIndex[0] == n.vRWReverseIndex[0];
  }

  method SaveAndOpen(n: NameIndex, ro: NameIndex)
    requires n.Valid() && n.vState == ReadWrite && ro.Valid() && n != ro
    modifies ro
    ensures ro.Valid() && Shows(ro.vBuffer, n.vRWIndex)
  {
    hide Sorted;
    hide AllGood;
    hide SavedAs;
    hide Shows;
    hide ShowsNames;
    hide RoomOf;
    hide U32;
    var a := new byte[n.vNeedMemorySize];
    var written := n.Save(a);
    SavedOpens(a[..], n.vMD5State, n.vRWIndex, n.vRWReverseIndex);
    var r := ro.Open(a[..]);
  }

  lemma OnePlace(index: seq<Entry>, pos: nat, found: bool)
    requires |index| == 1 && index[0].name == [2, 1] && Located(index, KeyOf([1, 2]), pos, found)
    requires KeyOf([1, 2]).Less(KeyOf([2, 1]))
    ensures pos == 0 && !found
  {
    LessTotal(KeyOf([1, 2]), KeyOf([2, 1]));
    LessTotal(KeyOf([1, 2]), KeyOf([1, 2]));
    assert K(index, 0) == KeyOf([2, 1]);
  }

  lemma FarPlace(index: seq<Entry>, pos: nat)
    requires |index| == 1 && index[0].name == [2, 1] && index[0].hash == Hash([1, 2])
    requires KeyOf([1, 2]).Less(KeyOf([2, 1])) && PlacedRO(index, KeyOf([1, 2]), pos)
    ensures pos == 1
  {
    var p: nat :| Located(index, KeyOf([1, 2]), p, false)
      && pos == p + if StartsHash(index, p, KeyOf([1, 2]).hash) then 1 else 0;
    OnePlace(index, p, false);
  }
}
