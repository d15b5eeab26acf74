/**
 The cache of block data requests (gserver/internal/gsbd/cache.go), and the parts of the proposal retriever
 that work on it in place (gserver/internal/gsi/pbdretriever.go), proved against the protocol.
 */
module Cache {
  import opened Basics
  import opened BlockData
  import DataIds
  import opened Streams
  import R = Retriever

  /** Ready stands for the channel being closed. */
  class BlockDataRequest {
    var ready: bool
    var transactions: seq<Tx>
    var encodedTransactions: bytes

    constructor (ready: bool, transactions: seq<Tx>, encodedTransactions: bytes)
      ensures this.ready == ready && this.transactions == transactions
      ensures this.encodedTransactions == encodedTransactions
    {
      this.ready, this.transactions, this.encodedTransactions := ready, transactions, encodedTransactions;
    }
  }

  class RequestCache {
    var rs: map<string, BlockDataRequest>

    constructor ()
      ensures rs == map[]
    {
      rs := map[];
    }

    /** Panics when the ID is there already. */
    method SetInFlight(dataID: string, req: BlockDataRequest)
      requires dataID !in rs
      modifies this
      ensures rs == old(rs)[dataID := req]
    {
      rs := rs[dataID := req];
    }

    method SetImmediatelyAvailable(dataID: string, txs: seq<Tx>, encodedTxs: bytes)
      requires dataID !in rs
      modifies this
      ensures dataID in rs && fresh(rs[dataID]) && rs == old(rs)[dataID := rs[dataID]]
      ensures rs[dataID].ready && rs[dataID].transactions == txs && rs[dataID].encodedTransactions == encodedTxs
    {
      var req := new BlockDataRequest(true, txs, encodedTxs);
      SetInFlight(dataID, req);
    }

    /** Panics when the ID is not there. */
    method Purge(dataID: string)
      requires dataID in rs
      modifies this
      ensures rs == old(rs) - {dataID}
    {
      rs := rs - {dataID};
    }

    method Get(dataID: string) returns (r: Option<BlockDataRequest>)
      ensures r == if dataID in rs then Some(rs[dataID]) else None
    {
      r := if dataID in rs then Some(rs[dataID]) else None;
    }
  }

  /** An object carries what the protocol's entry says has been written. */
  ghost predicate Mirrors(req: BlockDataRequest, entry: R.Entry)
    reads req
  {
    && (req.ready <==> entry.closes > 0)
    && (entry.txs.Some? ==> req.transactions == entry.txs.value)
    && (entry.raw.Some? ==> req.encodedTransactions == entry.raw.value)
  }

  /** The main loop's variables and the cache it shares with the rest of the process. */
  class Coordinator {
    const rCache: RequestCache
    var ifrs: map<string, BlockDataRequest>

    constructor (rCache: RequestCache)
      ensures this.rCache == rCache && ifrs == map[]
    {
      this.rCache := rCache;
      ifrs := map[];
    }

    /** This is the state of the protocol, entry by entry, and the entries are separate objects. */
    ghost predicate Represents(s: R.State)
      reads this, rCache, rCache.rs.Values
    {
      && ifrs.Keys == s.ifrs && rCache.rs.Keys == s.cache.Keys
      && (forall id :: id in rCache.rs ==> Mirrors(rCache.rs[id], s.cache[id]))
      && (forall id :: id in ifrs && id in rCache.rs ==> ifrs[id] == rCache.rs[id])
      && (forall id1, id2 :: id1 in rCache.rs && id2 in rCache.rs && id1 != id2 ==> rCache.rs[id1] != rCache.rs[id2])
    }

    /** A received request: a new entry, remembered and put in flight. */
    method OnFetchRequest(dataID: string, ghost s: R.State)
      requires s.coordinator.Received? && s.coordinator.req.id == dataID
      requires Represents(s) && dataID !in rCache.rs
      modifies this, rCache
      ensures Represents(R.ApplyInsert(s))
    {
      var bdr := new BlockDataRequest(false, [], []);
      ifrs := ifrs[dataID := bdr];
      rCache.SetInFlight(dataID, bdr);
    }

    /** A fetched result: both fields are written, then the entry becomes ready, then it is forgotten. */
    method OnFetchResult(res: R.Fetched, ghost s: R.State)
      requires s.coordinator == R.Publishing(res, 0)
      requires Represents(s) && res.id in s.ifrs && res.id in s.cache && s.cache[res.id].closes == 0
      modifies this, ifrs[res.id]
      ensures Represents(R.ApplyPublish(R.ApplyPublish(R.ApplyPublish(R.ApplyPublish(s)))))
    {
      var ifr := ifrs[res.id];
      ifr.transactions := res.txs;
      ifr.encodedTransactions := res.raw;
      ifr.ready := true;
      ifrs := ifrs - {res.id};
      PublishedInFour(s, res);
    }
  }

  lemma PublishedInFour(s: R.State, res: R.Fetched)
    requires s.coordinator == R.Publishing(res, 0)
    requires res.id in s.ifrs && res.id in s.cache && s.cache[res.id].closes == 0
    ensures R.ApplyPublish(R.ApplyPublish(R.ApplyPublish(R.ApplyPublish(s)))) ==
            s.(coordinator := R.Selecting, ifrs := s.ifrs - {res.id}, published := s.published + {res.id},
               cache := s.cache[res.id := R.Entry(Some(res.txs), Some(res.raw), 1)])
  {
  }

  // ----- a worker's fetch

  /** rand.Shuffle in place: some permutation. */
  method Shuffle(addrs: array<R.Addr>)
    modifies addrs
    ensures multiset(addrs[..]) == multiset(old(addrs[..]))
  {
    for i := 0 to addrs.Length
      invariant multiset(addrs[..]) == multiset(old(addrs[..]))
    {
      var j: nat :| j <= i;
      addrs[i], addrs[j] := addrs[j], addrs[i];
    }
  }

  /** What an address serves for the ID, and whether its streams never fail. */
  datatype Served = Served(data: bytes, steady: bool)

  /** The reachable addresses; the others refuse. */
  type Network = map<R.Addr, Served>

  /** Nothing can be had from this address. */
  predicate Useless(e: Env, dataID: string, network: Network, addr: R.Addr)
    requires NewBlockDataDecoder(dataID).Ok?
  {
    addr in network ==> DecodeBytes(e, NewBlockDataDecoder(dataID).value, network[addr].data).Err?
  }

  predicate Unsteady(network: Network, addr: R.Addr) {
    addr in network && !network[addr].steady
  }

  /** One address: the transactions and the bytes read, unless it is useless or its stream fails. */
  method FetchOneP2P(e: Env, dataID: string, addr: R.Addr, network: Network)
    returns (r: Option<R.Fetched>, failed: bool)
    requires NewBlockDataDecoder(dataID).Ok?
    ensures r.Some? ==> r.value.id == dataID && DecodesTo(e, dataID, r.value.raw, r.value.txs)
    ensures r.Some? ==>
              && addr in network && r.value.raw <= network[addr].data
              && DecodesTo(e, dataID, network[addr].data, r.value.txs)
    ensures r.None? && !failed ==> Useless(e, dataID, network, addr)
    ensures failed ==> Unsteady(network, addr)
  {
    if addr !in network {
      return None, false;
    }
    var s := new Stream(network[addr].data, network[addr].steady);
    var fetched := FetchOne(e, dataID, s);
    if fetched.Err? {
      return None, s.failed;
    }
    return Some(R.Fetched(dataID, fetched.value.0, fetched.value.1)), s.failed;
  }

  /** Nothing can be had from any of these addresses. */
  predicate AllUseless(e: Env, dataID: string, network: Network, addrs: seq<R.Addr>)
    requires NewBlockDataDecoder(dataID).Ok?
  {
    forall addr :: addr in addrs ==> Useless(e, dataID, network, addr)
  }

  /**
   Tries the addresses one after the other in a random order. A result decodes under the ID, as does what the
   address it came from serves; without one no address serves data that decodes, unless the stream of some
   address failed.
   */
  method FetchP2P(e: Env, dataID: string, addrs: array<R.Addr>, network: Network)
    returns (r: Option<R.Fetched>, failed: bool)
    requires NewBlockDataDecoder(dataID).Ok?
    modifies addrs
    ensures multiset(addrs[..]) == multiset(old(addrs[..]))
    ensures r.Some? ==> r.value.id == dataID && DecodesTo(e, dataID, r.value.raw, r.value.txs)
    ensures r.Some? ==> !AllUseless(e, dataID, network, old(addrs[..]))
    ensures r.None? && !failed ==> AllUseless(e, dataID, network, old(addrs[..]))
    ensures failed ==> exists addr :: addr in old(addrs[..]) && Unsteady(network, addr)
    ensures (forall addr :: addr in old(addrs[..]) ==> !Unsteady(network, addr)) ==>
              (r.Some? <==> !AllUseless(e, dataID, network, old(addrs[..])))
  {
    ghost var all := addrs[..];
    Shuffle(addrs);
    ghost var shuffled := addrs[..];
    SameAddresses(all, shuffled);
    failed := false;
    for i := 0 to addrs.Length
      invariant addrs[..] == shuffled
      invariant failed ==> exists addr :: addr in all && Unsteady(network, addr)
      invariant !failed ==> AllUseless(e, dataID, network, shuffled[..i])
    {
      assert shuffled[i] in shuffled;
      assert shuffled[..i + 1] == shuffled[..i] + [shuffled[i]];
      var streamFailed;
      r, streamFailed := FetchOneP2P(e, dataID, addrs[i], network);
      if r.Some? {
        assert !Useless(e, dataID, network, shuffled[i]);
        failed := failed || streamFailed;
        return;
      }
      failed := failed || streamFailed;
    }
    assert shuffled[..addrs.Length] == shuffled;
    r := None;
  }

  lemma SameAddresses(a: seq<R.Addr>, b: seq<R.Addr>)
    requires multiset(a) == multiset(b)
    ensures forall addr :: addr in a <==> addr in b
  {
    forall addr ensures addr in a <==> addr in b {
      assert addr in a <==> addr in multiset(a);
      assert addr in b <==> addr in multiset(b);
    }
  }

  /** Among addresses whose streams do not fail, one that serves a proposal's data is enough to retrieve it. */
  lemma ProposerIsUseful(
    e: Env, height: uint64, round: uint32, txs: seq<Tx>, network: Network, addr: R.Addr, dataID: string)
    requires LibrariesInvert(e, txs) && Encodable(txs)
    requires dataID == DataIds.DataID(e.blake2b, height, round, |RawData(txs)|, txs)
    requires addr in network && network[addr].data == EncodedBlockData(e, txs)
    ensures NewBlockDataDecoder(dataID).Ok?
    ensures forall addrs :: addr in addrs ==> !AllUseless(e, dataID, network, addrs)
  {
    ProposalDecodes(e, height, round, txs);
    assert !Useless(e, dataID, network, addr);
  }
}
