// A list of byte blocks of which some stay in memory and the rest are in a file.
module Blocks {
  import opened Bytes

  type Block = seq<byte>

  // ---- sizes and concatenations of blocks ----

  function Size(bs: seq<Block>): nat {
    if bs == [] then 0 else Size(bs[..|bs| - 1]) + |bs[|bs| - 1]|
  }

  function Joined(bs: seq<Block>): (s: seq<byte>)
    ensures |s| == Size(bs)
  {
    if bs == [] then [] else Joined(bs[..|bs| - 1]) + bs[|bs| - 1]
  }

  lemma {:induction false} JoinedConcat(a: seq<Block>, b: seq<Block>)
    ensures Joined(a + b) == Joined(a) + Joined(b)
    ensures Size(a + b) == Size(a) + Size(b)
  {
    if b == [] {
      assert a + b == a;
    } else {
      var c := b[..|b| - 1];
      assert (a + b)[..|a + b| - 1] == a + c;
      JoinedConcat(a, c);
    }
  }

  lemma SizeOne(b: Block)
    ensures Size([b]) == |b| && Joined([b]) == b
  {
    assert [b][..0] == [];
  }

  lemma SizeStep(bs: seq<Block>, i: nat, j: nat)
    requires i <= j < |bs|
    ensures Size(bs[i..j + 1]) == Size(bs[i..j]) + |bs[j]|
  {
    assert bs[i..j + 1][..j - i] == bs[i..j];
  }

  lemma SizeSplit(bs: seq<Block>, i: nat, j: nat)
    requires i <= j <= |bs|
    ensures Size(bs[..j]) == Size(bs[..i]) + Size(bs[i..j])
  {
    assert bs[..i] + bs[i..j] == bs[..j];
    JoinedConcat(bs[..i], bs[i..j]);
  }

  // Where block i lies in the concatenation.
  lemma BlockAt(bs: seq<Block>, i: nat)
    requires i < |bs|
    ensures Size(bs[..i]) + |bs[i]| == Size(bs[..i + 1]) <= Size(bs)
    ensures Joined(bs)[Size(bs[..i])..Size(bs[..i + 1])] == bs[i]
  {
    assert bs == bs[..i] + [bs[i]] + bs[i + 1..];
    assert bs[..i + 1] == bs[..i] + [bs[i]];
    JoinedConcat(bs[..i] + [bs[i]], bs[i + 1..]);
    JoinedConcat(bs[..i], [bs[i]]);
    SizeOne(bs[i]);
  }

  lemma SizeOrder(bs: seq<Block>, i: nat, j: nat)
    requires i <= j <= |bs|
    ensures Size(bs[..i]) <= Size(bs[..j]) <= Size(bs)
  {
    SizeSplit(bs, i, j);
    SizeSplit(bs, j, |bs|);
    assert bs[..|bs|] == bs;
  }

  // A piece of a piece.
  lemma SliceSlice(s: seq<byte>, a: nat, b: nat, i: nat, j: nat)
    requires a <= i <= j <= b <= |s|
    ensures s[a..b][i - a..j - a] == s[i..j]
  {
    var x, y := s[a..b][i - a..j - a], s[i..j];
    forall k | 0 <= k < |x|
      ensures x[k] == y[k]
    {
      assert s[a..b][i - a + k] == s[i + k];
    }
  }

  predicate NonEmpty(bs: seq<Block>) {
    forall i :: 0 <= i < |bs| ==> bs[i] != []
  }

  // The blocks in the file, then those dumped now.
  lemma DumpKeeps(all: seq<Block>, k: nat, last: seq<Block>)
    requires k <= |all| && last == all[k..]
    ensures Joined(all[..k]) + Joined(last) == Joined(all)
    ensures all[..|all|] == all
  {
    hide Joined;
    hide Size;
    assert all[..k] + all[k..] == all;
    JoinedConcat(all[..k], all[k..]);
  }

  // The positions of the blocks in the concatenation, and behind them its size.
  predicate Offsets(index: seq<nat>, bs: seq<Block>) {
    |index| == |bs| + 1 && forall i :: 0 <= i < |index| ==> index[i] == Size(bs[..i])
  }

  lemma OffsetsCount(index: seq<nat>, bs: seq<Block>)
    requires Offsets(index, bs)
    ensures |index| == |bs| + 1
  {
  }

  lemma OffsetsGrow(index: seq<nat>, bs: seq<Block>, b: Block)
    requires Offsets(index, bs)
    ensures Offsets(index + [index[|index| - 1] + |b|], bs + [b])
  {
    hide Size;
    AddKeeps(bs, b);
    assert bs[..|bs|] == bs;
  }

  // These blocks of the list, from `first` on.
  predicate Residing(blocks: seq<Block>, first: nat, bs: seq<Block>) {
    first + |blocks| <= |bs| && blocks == bs[first..first + |blocks|]
  }

  // The first n blocks are in the file.
  predicate Filed(file: seq<byte>, bs: seq<Block>, n: nat) {
    n <= |bs| && file == Joined(bs[..n])
  }

  // New blocks are at the end of the list, also with one more.
  lemma TailGrows(bs: seq<Block>, b: Block, blocks: seq<Block>, first: nat)
    requires first + |blocks| == |bs| && (blocks == [] || Residing(blocks, first, bs))
    ensures Residing(blocks + [b], first, bs + [b])
  {
  }

  lemma FileKept(file: seq<byte>, bs: seq<Block>, n: nat, b: Block)
    requires Filed(file, bs, n)
    ensures Filed(file, bs + [b], n)
  {
    assert (bs + [b])[..n] == bs[..n];
  }

  lemma SizeMore(bs: seq<Block>, b: Block)
    ensures Size(bs + [b]) == Size(bs) + |b|
  {
    AddKeeps(bs, b);
  }

  lemma AddKeeps(all: seq<Block>, b: Block)
    ensures Size(all + [b]) == Size(all) + |b|
    ensures forall i :: 0 <= i <= |all| ==> (all + [b])[..i] == all[..i]
    ensures (all + [b])[..|all| + 1] == all + [b]
    ensures |b| > 0 && NonEmpty(all) ==> NonEmpty(all + [b])
  {
    hide Joined;
    hide Size;
    JoinedConcat(all, [b]);
    SizeOne(b);
  }

  lemma {:induction false} CountBound(bs: seq<Block>)
    requires NonEmpty(bs)
    ensures |bs| <= Size(bs)
  {
    if bs != [] {
      CountBound(bs[..|bs| - 1]);
    }
  }

  // ---- the index in 32 bits ----

  // The index entry behind the blocks: sizes added up in 32 bits, for any total.
  function Offset32(bs: seq<Block>): (o: nat)
    ensures o < 0x1_0000_0000
  {
    if bs == [] then 0 else (Offset32(bs[..|bs| - 1]) + |bs[|bs| - 1]|) % 0x1_0000_0000
  }

  lemma AddWraps(q: nat, o: nat, n: nat)
    requires o < 0x1_0000_0000
    ensures (q * 0x1_0000_0000 + o + n) % 0x1_0000_0000 == (o + n) % 0x1_0000_0000
  {
  }

  lemma {:induction false} OffsetWraps(bs: seq<Block>)
    ensures Offset32(bs) == Size(bs) % 0x1_0000_0000
  {
    if bs != [] {
      var front, n := bs[..|bs| - 1], |bs[|bs| - 1]|;
      OffsetWraps(front);
      AddWraps(Size(front) / 0x1_0000_0000, Offset32(front), n);
    }
  }

  // Beyond 4 GiB the lengths taken from the index stay right, but the place to read from is right exactly for
  // blocks that start below 4 GiB.
  lemma SeekExactly(bs: seq<Block>, i: nat, j: nat)
    requires i <= j <= |bs| && Size(bs[i..j]) < 0x1_0000_0000
    ensures (Offset32(bs[..j]) - Offset32(bs[..i])) % 0x1_0000_0000 == Size(bs[i..j])
    ensures Offset32(bs[..i]) == Size(bs[..i]) <==> Size(bs[..i]) < 0x1_0000_0000
  {
    hide Size;
    hide Offset32;
    OffsetWraps(bs[..i]);
    OffsetWraps(bs[..j]);
    SizeSplit(bs, i, j);
    DifferenceWraps(Size(bs[..i]), Size(bs[i..j]));
  }

  // What is read from the file when block i is asked for: from its place, as long as it, both by the index.
  function FileRead(bs: seq<Block>, i: nat): seq<byte>
    requires i < |bs|
  {
    var o, n := Offset32(bs[..i]), (Offset32(bs[..i + 1]) - Offset32(bs[..i])) % 0x1_0000_0000;
    if o + n <= Size(bs) then Joined(bs)[o..o + n] else []
  }

  lemma ReadRight(bs: seq<Block>, i: nat)
    requires i < |bs| && |bs[i]| < 0x1_0000_0000 && Size(bs[..i]) < 0x1_0000_0000
    ensures FileRead(bs, i) == bs[i]
  {
    hide Joined;
    hide Size;
    hide Offset32;
    BlockAt(bs, i);
    assert bs[i..i + 1] == [bs[i]];
    SizeOne(bs[i]);
    SeekExactly(bs, i, i + 1);
  }

  // Behind two blocks of 2 GiB of zeros, the block [7] is read as [0].
  lemma ReadWrong()
    ensures var zeros := seq(0x8000_0000, _ => 0);
      FileRead([zeros, zeros, [7]], 2) == [0]
  {
    hide Joined;
    hide Size;
    hide Offset32;
    var zeros: Block := seq(0x8000_0000, _ => 0);
    var bs := [zeros, zeros, [7]];
    assert bs[2..3] == [[7]] && bs[..2] == [zeros] + [zeros] && bs[..1] == [zeros];
    SizeOne([7]);
    SizeOne(zeros);
    JoinedConcat([zeros], [zeros]);
    OffsetWraps(bs[..2]);
    SeekExactly(bs, 2, 3);
    BlockAt(bs, 2);
    BlockAt(bs, 0);
    assert Size(bs[..0]) == 0 by {
      SizeNone();
      assert bs[..0] == [];
    }
    assert Joined(bs)[0..0x8000_0000] == zeros;
    assert Joined(bs)[0] == zeros[0];
  }

  lemma SizeNone()
    ensures Size([]) == 0
  {
  }

  lemma DifferenceWraps(a: nat, n: nat)
    requires n < 0x1_0000_0000
    ensures ((a + n) % 0x1_0000_0000 - a % 0x1_0000_0000) % 0x1_0000_0000 == n
  {
    var o := a % 0x1_0000_0000;
    AddWraps(a / 0x1_0000_0000, o, n);
    assert (a + n) % 0x1_0000_0000 == if o + n < 0x1_0000_0000 then o + n else o + n - 0x1_0000_0000;
  }

  // ---- the container ----

  datatype Mode = ReadMode | WriteMode

  datatype Stream = NoStream | Appending | Reading

  const NONE := 0xFFFF_FFFF

  class Blocks {
    const vThresHold: nat
    // the resident blocks
    var vBlocks: seq<Block>
    var vIndex: seq<nat>
    var vMode: Mode
    var vUsedMemory: nat
    var vFirstBlockNum: nat
    var vNewData: bool
    var vSize: nat
    var vFd: Stream
    // the contents of the file
    var vFile: seq<byte>
    // the blocks added since the last Clear
    ghost var all: seq<Block>

    // How many of the blocks are in the file.
    ghost function Dumped(): nat
      reads this
    {
      if vThresHold == 0 then 0 else if vNewData && vBlocks != [] then vFirstBlockNum else |all|
    }

    // The positions of the blocks in the file.
    ghost predicate Indexed()
      reads this
    {
      && NonEmpty(all) && vSize == Size(all) < 0x1_0000_0000
      && Offsets(vIndex, all)
    }

    // The resident part of the list.
    ghost predicate Listed()
      reads this
    {
      && Indexed()
      && (if vBlocks == [] then vFirstBlockNum == NONE
          else Residing(vBlocks, vFirstBlockNum, all))
      && vUsedMemory == Size(vBlocks)
    }

    ghost predicate Valid()
      reads this
    {
      && Listed()
      && (vThresHold == 0 ==> |vBlocks| == |all|)
      && (vThresHold > 0 ==>
            (vNewData && vBlocks != [] ==> vFirstBlockNum + |vBlocks| == |all|)
            && Filed(vFile, all, Dumped())
            && (vUsedMemory <= vThresHold || |vBlocks| == 1))
      && (vFd == Appending ==> vMode == WriteMode && vNewData)
      && (vFd == Reading ==> vMode == ReadMode) && (vThresHold == 0 ==> vFd == NoStream)
      && (vNewData ==> all != []) && (!vNewData && all != [] ==> vThresHold > 0 && vMode == ReadMode)
    }

    // No block is resident although some were added: the state in which no data can be had.
    ghost predicate Blind()
      reads this
    {
      all != [] && vBlocks == []
    }

    constructor (aThreshold: nat, leftover: seq<byte>)
      requires aThreshold < 0x1_0000_0000
      ensures Valid() && all == [] && vThresHold == aThreshold
    {
      vThresHold := aThreshold;
      vFile := if aThreshold > 0 then [] else leftover;
      vBlocks, vIndex, vMode := [], [0], WriteMode;
      vUsedMemory, vFirstBlockNum, vNewData, vSize, vFd := 0, NONE, false, 0, NoStream;
      all := [];
    }

    method Clear()
      requires Valid()
      modifies this
      ensures Valid() && all == []
    {
      if vThresHold != 0 {
        vFile := [];
        vFd := NoStream;
      }
      vBlocks := [];
      vIndex := [0];
      vMode := WriteMode;
      vUsedMemory := 0;
      vFirstBlockNum := NONE;
      vNewData := false;
      vSize := 0;
      all := [];
    }

    // The resident blocks go to the end of the file.
    method Dump()
      requires vThresHold > 0
      requires (vFd == Appending ==> vMode == WriteMode) && (vFd == Reading ==> vMode == ReadMode)
      modifies this`vMode, this`vFd, this`vFile, this`vBlocks, this`vUsedMemory, this`vFirstBlockNum
      ensures vFile == old(vFile) + Joined(old(vBlocks)) && vMode == WriteMode && vFd == Appending
      ensures vBlocks == [] && vUsedMemory == 0 && vFirstBlockNum == NONE
    {
      if vMode == ReadMode {
        vMode := WriteMode;
        vFd := NoStream;
      }
      if vFd == NoStream {
        vFd := Appending;
      }
      for block_n := 0 to |vBlocks|
        invariant vBlocks == old(vBlocks) && vFd == Appending && vMode == WriteMode
        invariant vFile == old(vFile) + Joined(vBlocks[..block_n])
      {
        assert vBlocks[..block_n + 1][..block_n] == vBlocks[..block_n];
        vFile := vFile + vBlocks[block_n];
      }
      assert vBlocks[..|vBlocks|] == vBlocks;
      vBlocks := [];
      vUsedMemory := 0;
      vFirstBlockNum := NONE;
    }

    // Blocks loaded for reading are dropped.
    method Release()
      requires Valid() && !vNewData
      modifies this`vBlocks, this`vUsedMemory, this`vFirstBlockNum
      ensures Valid() && vBlocks == [] && vUsedMemory == 0 && vFirstBlockNum == NONE
    {
      hide Joined;
      vBlocks := [];
      vUsedMemory := 0;
      vFirstBlockNum := NONE;
    }

    // New blocks are moved to the file.
    method Spill()
      requires Valid() && vNewData && vBlocks != [] && vThresHold > 0
      modifies this`vMode, this`vFd, this`vFile, this`vBlocks, this`vUsedMemory, this`vFirstBlockNum
      ensures Valid() && vBlocks == [] && vUsedMemory == 0 && vFirstBlockNum == NONE
    {
      hide Joined;
      DumpKeeps(all, vFirstBlockNum, vBlocks);
      Dump();
    }

    // The new block is resident, with the new blocks before it.
    method Append(aData: Block)
      requires Valid() && aData != [] && Size(all) + |aData| < 0x1_0000_0000 && (vNewData || vBlocks == [])
      requires vThresHold > 0 && vBlocks != [] ==> vUsedMemory + |aData| < vThresHold
      modifies this
      ensures Valid() && all == old(all) + [aData] && !Blind()
      ensures vBlocks == old(vBlocks) + [aData] && vFile == old(vFile)
    {
      hide Joined;
      hide Size;
      hide NonEmpty;
      hide Offsets;
      hide Residing;
      hide Filed;
      var first := if vBlocks == [] then |all| else vFirstBlockNum;
      AtTheEnd();
      if vThresHold > 0 {
        FileKept(vFile, all, first, aData);
      }
      TailGrows(all, aData, vBlocks, first);
      SizeMore(vBlocks, aData);
      vBlocks := vBlocks + [aData];
      vUsedMemory := vUsedMemory + |aData|;
      Indexes(aData);
      if vFirstBlockNum == NONE {
        vFirstBlockNum := |vIndex| - 2;
      }
      assert vFirstBlockNum == first;
      vNewData := true;
      assert Listed();
    }

    // New blocks reach up to the end of the list, and those before them are in the file.
    lemma AtTheEnd()
      requires Valid() && (vNewData || vBlocks == [])
      ensures var first := if vBlocks == [] then |all| else vFirstBlockNum;
        && first + |vBlocks| == |all|
        && (vThresHold > 0 ==> Dumped() == first && Filed(vFile, all, first))
    {
      hide Joined;
      hide Size;
      hide NonEmpty;
      hide Offsets;
    }

    // The index and the total size with one more block.
    method Indexes(aData: Block)
      requires Indexed() && aData != [] && Size(all) + |aData| < 0x1_0000_0000
      modifies this`vIndex, this`vSize, this`all
      ensures Indexed() && all == old(all) + [aData] && |vIndex| - 1 == |all| <= NONE
    {
      hide Size;
      hide NonEmpty;
      hide Offsets;
      OffsetsCount(vIndex, all);
      OffsetsGrow(vIndex, all, aData);
      AddKeeps(all, aData);
      CountBound(all);
      vIndex := vIndex + [vIndex[|vIndex| - 1] + |aData|];
      vSize := vSize + |aData|;
      all := all + [aData];
    }

    // The block joins the list. An empty block is refused, at the cost of the resident blocks.
    method Add(aData: Block) returns (ok: bool)
      requires Valid() && Size(all) + |aData| < 0x1_0000_0000
      modifies this
      ensures Valid() && ok == (aData != [])
      ensures all == if ok then old(all) + [aData] else old(all)
      ensures ok ==> !Blind()
      ensures !ok ==> (Blind() <==> old(Blind()) || old(Costly()))
      ensures ok && (vThresHold == 0 || old(vNewData)) && (vThresHold == 0 || old(vUsedMemory) + |aData| < vThresHold) ==>
        vBlocks == old(vBlocks) + [aData] && vFile == old(vFile)
    {
      if !vNewData && |vBlocks| != 0 {
        Release();
      }
      if vThresHold != 0 && vThresHold <= vUsedMemory + |aData| && |vBlocks| != 0 {
        Spill();
      }
      if |aData| == 0 {
        return false;
      }
      Append(aData);
      return true;
    }

    // Adding an empty block drops or dumps what is resident.
    ghost predicate Costly()
      reads this
    {
      all != [] && vThresHold > 0 && (!vNewData || vThresHold <= vUsedMemory)
    }

    // One block that fills the threshold.
    lemma FullOfOne()
      requires Valid() && !Blind() && vThresHold == 1 && |all| == 1 && all[0] != []
      ensures Costly()
    {
      hide Joined;
      hide NonEmpty;
      hide Offsets;
      if vNewData {
        assert vBlocks == [all[0]];
        SizeOne(all[0]);
      }
    }

    // How many blocks from aBlockNum on are loaded together.
    method FindLast(aBlockNum: nat) returns (last: nat)
      requires Indexed() && vThresHold > 0 && aBlockNum < |all|
      ensures aBlockNum < last <= |all|
      ensures Size(all[aBlockNum..last]) <= vThresHold || last == aBlockNum + 1
      ensures last < |all| ==> vThresHold < Size(all[aBlockNum..last + 1])
    {
      hide Size;
      var LastBlock: nat := aBlockNum + 1;
      IndexSpan(aBlockNum, LastBlock);
      while LastBlock < |vIndex| - 1 && vIndex[LastBlock] - vIndex[aBlockNum] < vThresHold
        invariant aBlockNum < LastBlock <= |all|
        invariant vIndex[LastBlock] == vIndex[aBlockNum] + Size(all[aBlockNum..LastBlock])
        invariant LastBlock > aBlockNum + 1 ==> Size(all[aBlockNum..LastBlock - 1]) < vThresHold
      {
        LastBlock := LastBlock + 1;
        IndexSpan(aBlockNum, LastBlock);
      }
      if LastBlock < |all| {
        SizeStep(all, aBlockNum, LastBlock);
      }
      if vIndex[LastBlock] - vIndex[aBlockNum] > vThresHold && LastBlock - aBlockNum > 1 {
        LastBlock := LastBlock - 1;
      }
      last := LastBlock;
    }

    lemma IndexSpan(i: nat, j: nat)
      requires Indexed() && i <= j <= |all|
      ensures vIndex[j] == vIndex[i] + Size(all[i..j])
    {
      SizeSplit(all, i, j);
    }

    // The blocks of the loaded piece of the file.
    method Cut(buffer: seq<byte>, aBlockNum: nat, last: nat) returns (blocks: seq<Block>)
      requires Indexed() && aBlockNum < last <= |all|
      requires Size(all[..aBlockNum]) <= Size(all[..last]) <= |Joined(all)|
      requires buffer == Joined(all)[Size(all[..aBlockNum])..Size(all[..last])]
      ensures blocks == all[aBlockNum..last]
    {
      hide Size;
      hide Joined;
      blocks := [];
      for block_n := aBlockNum to last
        invariant blocks == all[aBlockNum..block_n]
      {
        BlockAt(all, block_n);
        SizeOrder(all, aBlockNum, block_n);
        SizeOrder(all, block_n + 1, last);
        SliceSlice(Joined(all), vIndex[aBlockNum], vIndex[last], vIndex[block_n], vIndex[block_n + 1]);
        blocks := blocks + [buffer[vIndex[block_n] - vIndex[aBlockNum]..vIndex[block_n + 1] - vIndex[aBlockNum]]];
      }
    }

    // Reading one piece of the file.
    method Fetch(aBlockNum: nat) returns (blocks: seq<Block>, used: nat)
      requires Indexed() && vThresHold > 0 && aBlockNum < |all| && vFile == Joined(all)
      ensures 0 < |blocks| <= |all| - aBlockNum && blocks == all[aBlockNum..aBlockNum + |blocks|]
      ensures used == Size(blocks) && (used <= vThresHold || |blocks| == 1)
      ensures aBlockNum + |blocks| < |all| ==> vThresHold < Size(all[aBlockNum..aBlockNum + |blocks| + 1])
    {
      hide Joined;
      hide Size;
      var last := FindLast(aBlockNum);
      SizeOrder(all, aBlockNum, last);
      SizeSplit(all, aBlockNum, last);
      used := vIndex[last] - vIndex[aBlockNum];
      blocks := Cut(vFile[vIndex[aBlockNum]..vIndex[aBlockNum] + used], aBlockNum, last);
      assert last == aBlockNum + |blocks|;
    }

    // The block and as many of the following ones as the threshold allows are read from the file.
    method Load(aBlockNum: nat) returns (ok: bool)
      requires Valid() && vThresHold > 0 && aBlockNum < |all|
      requires vBlocks == [] || aBlockNum < vFirstBlockNum || aBlockNum >= vFirstBlockNum + |vBlocks|
      modifies this`vMode, this`vFd, this`vFile, this`vBlocks, this`vUsedMemory, this`vFirstBlockNum, this`vNewData
      ensures Valid() && ok == !old(Blind())
      ensures ok ==> vBlocks != [] && vFirstBlockNum == aBlockNum && !vNewData
      ensures ok && aBlockNum + |vBlocks| < |all| ==>
        vThresHold < Size(all[aBlockNum..aBlockNum + |vBlocks| + 1])
      ensures !ok ==> unchanged(this)
    {
      hide NonEmpty;
      hide Joined;
      hide Size;
      CountBound(all);
      if vFirstBlockNum == NONE {
        return false;
      }
      if vNewData {
        Spill();
        vMode := ReadMode;
        vFd := NoStream;
      }
      vBlocks := [];
      vUsedMemory := 0;
      vFirstBlockNum := NONE;
      vFd := Reading;
      assert all[..|all|] == all;
      Reside(aBlockNum);
      return true;
    }

    // The blocks read become the resident ones.
    method Reside(aBlockNum: nat)
      requires Indexed() && vThresHold > 0 && aBlockNum < |all| && vFile == Joined(all)
      requires vMode == ReadMode && vFd == Reading
      modifies this`vBlocks, this`vUsedMemory, this`vFirstBlockNum, this`vNewData
      ensures Valid() && vBlocks != [] && vFirstBlockNum == aBlockNum && !vNewData
      ensures aBlockNum + |vBlocks| < |all| ==> vThresHold < Size(all[aBlockNum..aBlockNum + |vBlocks| + 1])
    {
      hide NonEmpty;
      hide Joined;
      hide Size;
      vBlocks, vUsedMemory := Fetch(aBlockNum);
      vFirstBlockNum := aBlockNum;
      vNewData := false;
      assert all[..|all|] == all;
    }

    // The bytes of a block, as long as the container is not blind.
    method Data(aBlockNum: nat) returns (r: Option<Block>)
      requires Valid() && aBlockNum < |all|
      modifies this`vMode, this`vFd, this`vFile, this`vBlocks, this`vUsedMemory, this`vFirstBlockNum, this`vNewData
      ensures Valid() && Blind() == old(Blind())
      ensures r == if old(Blind()) then None else Some(all[aBlockNum])
    {
      hide Joined;
      hide Size;
      if vThresHold != 0 && (aBlockNum < vFirstBlockNum || aBlockNum >= vFirstBlockNum + |vBlocks|) {
        var ok := Load(aBlockNum);
        if !ok {
          return None;
        }
      }
      r := Some(vBlocks[aBlockNum - vFirstBlockNum]);
    }

    method DataSize(aBlockNum: nat) returns (n: nat)
      requires Valid() && aBlockNum < |all|
      modifies this`vMode, this`vFd, this`vFile, this`vBlocks, this`vUsedMemory, this`vFirstBlockNum, this`vNewData
      ensures Valid() && Blind() == old(Blind())
      ensures n == if old(Blind()) then 0 else |all[aBlockNum]|
    {
      hide Joined;
      hide Size;
      if vThresHold != 0 && (aBlockNum < vFirstBlockNum || aBlockNum >= vFirstBlockNum + |vBlocks|) {
        var ok := Load(aBlockNum);
        if !ok {
          return 0;
        }
      }
      n := |vBlocks[aBlockNum - vFirstBlockNum]|;
    }
  }

  // An empty block, refused, can make the blocks before it unreadable, until a block is added or all are cleared.
  method EmptyBlockBlinds() returns (before: Option<Block>, after: Option<Block>, later: Option<Block>)
    ensures before == Some([7]) && after == None && later == Some([7])
  {
    hide Joined;
    hide NonEmpty;
    hide Size;
    SizeNone();
    SizeOne([7]);
    SizeMore([[7]], [9]);
    var c := new Blocks(1, []);
    var ok := c.Add([7]);
    before := c.Data(0);
    c.FullOfOne();
    ok := c.Add([]);
    after := c.Data(0);
    ok := c.Add([9]);
    later := c.Data(0);
  }
}
