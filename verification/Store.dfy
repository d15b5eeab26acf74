/** The store a node serves finalized block data from (gcstore/gcmemstore/blockdatastore.go). */
module Store {
  import opened Basics

  datatype SaveError = AlreadyHaveHeight | AlreadyHaveID

  datatype Contents = Contents(
    dataByHeightID: map<(uint64, string), bytes>,
    heightByID: map<string, uint64>,
    idByHeight: map<uint64, string>)

  const EMPTY := Contents(map[], map[], map[])

  /** The two indices are inverse to each other, and there is data for exactly the pairs they relate. */
  ghost predicate Consistent(c: Contents) {
    && (forall h :: h in c.idByHeight ==> c.idByHeight[h] in c.heightByID && c.heightByID[c.idByHeight[h]] == h)
    && (forall id :: id in c.heightByID ==> c.heightByID[id] in c.idByHeight && c.idByHeight[c.heightByID[id]] == id)
    && (forall k: (uint64, string) :: k in c.dataByHeightID <==> k.0 in c.idByHeight && c.idByHeight[k.0] == k.1)
  }

  function Save(c: Contents, height: uint64, dataID: string, data: bytes): Result<Contents, SaveError> {
    if height in c.idByHeight then Err(AlreadyHaveHeight)
    else if dataID in c.heightByID then Err(AlreadyHaveID)
    else
      Ok(Contents(c.dataByHeightID[(height, dataID) := data], c.heightByID[dataID := height],
                  c.idByHeight[height := dataID]))
  }

  /** What was saved for a height. */
  function Loaded(c: Contents, height: uint64): Option<(string, bytes)> {
    if height in c.idByHeight && (height, c.idByHeight[height]) in c.dataByHeightID
    then Some((c.idByHeight[height], c.dataByHeightID[(height, c.idByHeight[height])]))
    else None
  }

  class BlockDataStore {
    var dataByHeightID: map<(uint64, string), bytes>
    var heightByID: map<string, uint64>
    var idByHeight: map<uint64, string>

    constructor ()
      ensures Value() == EMPTY
    {
      dataByHeightID, heightByID, idByHeight := map[], map[], map[];
    }

    function Value(): Contents
      reads this
    {
      Contents(dataByHeightID, heightByID, idByHeight)
    }

    method SaveBlockData(height: uint64, dataID: string, data: bytes) returns (err: Option<SaveError>)
      modifies this
      ensures match Save(old(Value()), height, dataID, data)
              case Ok(c) => err == None && Value() == c
              case Err(e) => err == Some(e) && Value() == old(Value())
      ensures err == Some(AlreadyHaveHeight) <==> height in old(idByHeight)
      ensures err == Some(AlreadyHaveID) <==> height !in old(idByHeight) && dataID in old(heightByID)
      ensures err == None ==>
                && idByHeight == old(idByHeight)[height := dataID]
                && heightByID == old(heightByID)[dataID := height]
                && dataByHeightID == old(dataByHeightID)[(height, dataID) := data]
    {
      if height in idByHeight {
        return Some(AlreadyHaveHeight);
      }
      if dataID in heightByID {
        return Some(AlreadyHaveID);
      }
      heightByID := heightByID[dataID := height];
      idByHeight := idByHeight[height := dataID];
      dataByHeightID := dataByHeightID[(height, dataID) := data];
      err := None;
    }

    /** The data is appended to `dst`. That there is none for an indexed pair is a bug that cannot happen. */
    method LoadBlockDataByHeight(height: uint64, dst: bytes) returns (r: Option<(string, bytes)>)
      requires Consistent(Value())
      ensures r == match Loaded(Value(), height) case Some((id, data)) => Some((id, dst + data)) case None => None
      ensures r.None? <==> height !in idByHeight
    {
      if height !in idByHeight {
        return None;
      }
      var id := idByHeight[height];
      var k := (height, id);
      assert k in dataByHeightID;
      r := Some((id, dst + dataByHeightID[k]));
    }

    method LoadBlockDataByID(id: string, dst: bytes) returns (r: Option<(uint64, bytes)>)
      requires Consistent(Value())
      ensures r.None? <==> id !in heightByID
      ensures r.Some? ==> exists data :: Loaded(Value(), r.value.0) == Some((id, data)) && r.value.1 == dst + data
    {
      if id !in heightByID {
        return None;
      }
      var k := (heightByID[id], id);
      assert k in dataByHeightID;
      r := Some((heightByID[id], dst + dataByHeightID[k]));
    }
  }

  // ----- histories

  datatype SaveRequest = SaveRequest(height: uint64, dataID: string, data: bytes)

  /** After a number of saves; those that are refused change nothing. */
  function AfterSaves(c: Contents, saves: seq<SaveRequest>): Contents
    decreases |saves|
  {
    if saves == [] then c
    else
      match Save(c, saves[0].height, saves[0].dataID, saves[0].data)
      case Ok(next) => AfterSaves(next, saves[1..])
      case Err(_) => AfterSaves(c, saves[1..])
  }

  /** A save keeps the store consistent, finds what it saved, and leaves everything else as it was. */
  lemma SaveKeepsConsistent(c: Contents, height: uint64, dataID: string, data: bytes)
    requires Consistent(c)
    ensures match Save(c, height, dataID, data)
            case Ok(next) =>
              && Consistent(next) && Loaded(next, height) == Some((dataID, data))
              && Loaded(c, height) == None
              && forall h :: h != height ==> Loaded(next, h) == Loaded(c, h)
            case Err(_) => height in c.idByHeight || dataID in c.heightByID
  {
    if Save(c, height, dataID, data).Ok? {
      var next := Save(c, height, dataID, data).value;
      assert forall h :: h in c.idByHeight ==> c.idByHeight[h] != dataID;
      assert forall id :: id in c.heightByID ==> c.heightByID[id] != height;
    }
  }

  /** Over any history the panics are out of reach, and what can be loaded once can be loaded for ever. */
  lemma {:induction false} SavesKeepConsistent(c: Contents, saves: seq<SaveRequest>)
    requires Consistent(c)
    ensures Consistent(AfterSaves(c, saves))
    ensures forall h :: Loaded(c, h).Some? ==> Loaded(AfterSaves(c, saves), h) == Loaded(c, h)
    decreases |saves|
  {
    if saves != [] {
      var s := saves[0];
      SaveKeepsConsistent(c, s.height, s.dataID, s.data);
      match Save(c, s.height, s.dataID, s.data) {
        case Ok(next) => SavesKeepConsistent(next, saves[1..]);
        case Err(_) => SavesKeepConsistent(c, saves[1..]);
      }
    }
  }

  /** In particular from the empty store: an ID and a height find each other and the same data. */
  lemma IndicesAgree(saves: seq<SaveRequest>, height: uint64, id: string)
    ensures var c := AfterSaves(EMPTY, saves);
            (height in c.idByHeight && c.idByHeight[height] == id <==>
               id in c.heightByID && c.heightByID[id] == height) &&
            (Loaded(c, height).Some? <==> height in c.idByHeight)
  {
    SavesKeepConsistent(EMPTY, saves);
    var c := AfterSaves(EMPTY, saves);
    assert height in c.idByHeight ==> (height, c.idByHeight[height]) in c.dataByHeightID;
  }
}
