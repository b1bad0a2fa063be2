// CacheMemcached: one client of the store.
module Cache {
  import opened Bytes
  import opened CacheKeys
  import opened CacheStore

  datatype ReturnCode = Success | Unsuccess | ErrorInvArgs | ErrorInvState | ErrorKey | ErrorFault

  // A control record too short for a base key.
  predicate ShortRecord(store: Store, aKey: Key) {
    CtlKey(aKey) in store && store[CtlKey(aKey)].extended && |store[CtlKey(aKey)].value| < 9
  }

  // One step of the reading loop of GetData, restated for the whole answer.
  lemma FinishStep(store: Store, key: Key, s: Stage)
    requires s == Begin || (s.Reading? && s.i < s.parts)
    ensures Finish(store, key, s) == Finish(store, key, Get(store, key, s))
  {
  }

  class CacheMemcached {
    var ready: bool
    // the records held by memcached
    var store: Store

    constructor ()
      ensures !ready && store == map[]
    {
      ready, store := false, map[];
    }

    method Init() returns (r: ReturnCode)
      modifies this`ready
      ensures r == (if old(ready) then ErrorInvState else Success) && ready
    {
      if ready {
        return ErrorInvState;
      }
      ready := true;
      r := Success;
    }

    // The parts first, the control record last.
    method InsertData(aKey: Key, aData: seq<byte>, pid: nat, time: nat) returns (r: ReturnCode)
      requires |aData| <= LARGEST
      modifies this`store
      ensures r == if !ready then ErrorInvState else if |aKey| > 210 then ErrorKey else Success
      ensures store == if r.Success? then Inserted(old(store), Insert(aKey, aData, pid, time)) else old(store)
    {
      hide PartsOf;
      if !ready {
        return ErrorInvState;
      }
      if |aKey| > MAX_KEY {
        return ErrorKey;
      }
      ghost var ins := Insert(aKey, aData, pid, time);
      if |aData| < PART {
        SmallHasNoParts(ins);
        store := store[CtlKey(aKey) := Record(aData, false)];
        return Success;
      }
      PartsBound(|aData|);
      var basekey := BaseKey(aKey, pid, time);
      var part: nat := 0;
      LastPart(ins, 0);
      while part * PART < |aData|
        invariant part <= ins.Parts() && store == PartsSet(old(store), ins, part)
        invariant part * PART < |aData| <==> part < ins.Parts()
        decreases |aData| - part * PART
      {
        var size := if (part + 1) * PART < |aData| then PART else |aData| - part * PART;
        store := store[PartKey(basekey, part) := Record(aData[part * PART..part * PART + size], false)];
        LastPart(ins, part + 1);
        part := part + 1;
      }
      store := store[CtlKey(aKey) := Record(LE32(part) + LE32(|aData|) + basekey, true)];
      return Success;
    }

    lemma SmallHasNoParts(ins: Insert)
      requires |ins.data| < PART
      ensures ins.Parts() == 0
    {
    }

    lemma LastPart(ins: Insert, part: nat)
      requires |ins.data| >= PART && part <= ins.Parts()
      ensures part * PART < |ins.data| <==> part < ins.Parts()
    {
      if part < ins.Parts() {
        PartEnds(ins, part);
      }
    }

    // The answer of the store; a value behind the buffer and a broken control record are faults, other
    // failures are not told apart.
    method GetData(aKey: Key) returns (r: ReturnCode, aResult: Reply)
      ensures r == ErrorInvArgs <==> aKey == []
      ensures r == ErrorInvState <==> aKey != [] && !ready
      ensures r == ErrorKey <==> aKey != [] && ready && |aKey| > 210
      ensures 0 < |aKey| <= 210 && ready ==> aResult == Answer(store, aKey)
      ensures 0 < |aKey| <= 210 && ready ==> (r == Success <==> aResult.Found?)
      ensures r == ErrorFault <==> 0 < |aKey| <= 210 && ready && (aResult == Overrun || ShortRecord(store, aKey))
    {
      aResult := NotFound;
      if |aKey| == 0 {
        return ErrorInvArgs, aResult;
      }
      if !ready {
        return ErrorInvState, aResult;
      }
      if |aKey| > MAX_KEY {
        return ErrorKey, aResult;
      }
      var Key := CtlKey(aKey);
      if Key !in store {
        return Unsuccess, NotFound;
      }
      var rec := store[Key];
      if !rec.extended {
        return Success, Found(rec.value);
      }
      if |rec.value| < 9 {
        return ErrorFault, Corrupt;
      }
      r, aResult := GetParts(aKey, U32(rec.value, 0), U32(rec.value, 4), rec.value[8..]);
    }

    // The loop that collects the parts into a buffer of the full size.
    method GetParts(aKey: Key, parts: nat, fullsize: nat, basekey: Key) returns (r: ReturnCode, aResult: Reply)
      ensures aResult == Finish(store, aKey, Advance(Reading(parts, fullsize, basekey, 0, [])))
      ensures r == match aResult
        case Found(_) => Success
        case Overrun => ErrorFault
        case _ => Unsuccess
    {
      var tmp: seq<byte> := [];
      ghost var goal := Finish(store, aKey, Advance(Reading(parts, fullsize, basekey, 0, [])));
      for i := 0 to parts
        invariant Finish(store, aKey, Advance(Reading(parts, fullsize, basekey, i, tmp))) == goal
      {
        var k := PartKey(basekey, i);
        FinishStep(store, aKey, Reading(parts, fullsize, basekey, i, tmp));
        if k !in store {
          return Unsuccess, NotFound;
        }
        if |tmp| + |store[k].value| > fullsize {
          return ErrorFault, Overrun;
        }
        tmp := tmp + store[k].value;
      }
      if |tmp| != fullsize {
        return Unsuccess, Corrupt;
      }
      return Success, Found(tmp);
    }

    method DeleteData(aKey: Key) returns (r: ReturnCode)
      modifies this`store
      ensures r == if ready then Success else ErrorInvState
      ensures store == if ready then old(store) - {CtlKey(aKey)} else old(store)
    {
      if !ready {
        return ErrorInvState;
      }
      store := store - {CtlKey(aKey)};
      r := Success;
    }
  }

  // A deleted key is not found, and no other key is answered differently.
  lemma DeleteAnswered(store: Store, key: Key, other: Key)
    ensures Answer(store - {CtlKey(key)}, key) == NotFound
    ensures other != key ==> Answer(store - {CtlKey(key)}, other) == Answer(store, other)
  {
    if other != key {
      OnlyControl(store, store - {CtlKey(key)}, key, other);
    }
  }
}
