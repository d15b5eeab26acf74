/**
 Data agreement: whoever put an entry into whichever node's cache, what is finalized under one header is one
 list of transaction hashes. The protocols meet the codec here.
 */
module Agreement {
  import opened Basics
  import opened BlockData
  import opened DataIds
  import opened Driver
  import opened FullBlocks
  import opened Store
  import C = CatchupFetch
  import Cache
  import H = Handshake
  import JsonReply
  import R = Retriever
  import S = Strategy
  import Streams

  /** What the cache of a retriever's state shows for an ID. */
  function ViewIn(s: R.State, id: string): View {
    if id !in s.cache then Missing
    else
      match s.cache[id]
      case Entry(Some(txs), Some(raw), closes) => if closes > 0 then Ready(txs, raw) else InFlight
      case _ => InFlight
  }

  // ----- the three writers

  /** What EnterRound deposits for its own proposal is a step of the protocol. */
  lemma ProposalIsDeposit(e: Env, s: R.State, height: uint64, round: uint32, txs: seq<Tx>)
    requires LibrariesInvert(e, txs) && Encodable(txs) && s.fault == R.NoFault
    ensures var id := DataID(e.blake2b, height, round, |RawData(txs)|, txs);
            R.Enabled(CodecOf(e), s, R.Deposit(id, txs, EncodedBlockData(e, txs)))
  {
    ProposalDecodes(e, height, round, txs);
  }

  /** A deposit is ready at once, unless it panics over an entry that is there. */
  lemma DepositIsReady(e: Env, s: R.State, id: string, txs: seq<Tx>, raw: bytes)
    requires R.Enabled(CodecOf(e), s, R.Deposit(id, txs, raw))
    ensures var t := R.Apply(CodecOf(e), s, R.Deposit(id, txs, raw));
            if ViewIn(s, id) == Missing then t.fault == R.NoFault && ViewIn(t, id) == Ready(txs, raw)
            else t.fault == R.AlreadyInFlight
  {
  }

  /** So is what doFetch deposits from a reply. */
  lemma ReplyIsDeposit(e: Env, w: Wire, s: R.State, stream: bytes)
    requires s.fault == R.NoFault
    ensures match ParseReply(e, w, stream)
            case Full(ch, data, txs) => data != [] ==> R.Enabled(CodecOf(e), s, R.Deposit(ch.header.dataID, txs, data))
            case _ => true
  {
    ParsedIsSound(e, w, stream);
  }

  /** And what a worker gets from a stream is a fetch of the protocol. */
  method FetchIsStep(e: Env, s: R.State, w: nat, stream: Streams.Stream)
    returns (r: Result<(seq<Tx>, bytes), DecodeError>)
    requires s.fault == R.NoFault && w < |s.workers| && s.workers[w].Fetching? && s.workers[w].req.addrs != []
    requires NewBlockDataDecoder(s.workers[w].req.id).Ok? && stream.tee == []
    modifies stream
    ensures r.Ok? ==> R.Enabled(CodecOf(e), s, R.WorkerFetches(w, r.value.0, r.value.1))
  {
    r := FetchOne(e, s.workers[w].req.id, stream);
  }

  /** A decoded list is as long as the ID says, and as its data, and hashes to what the ID says. */
  lemma DecodedMatchesID(e: Env, id: string, raw: bytes, txs: seq<Tx>)
    requires DecodesTo(e, id, raw, txs)
    ensures ParseDataID(id).Ok?
    ensures |txs| == ParseDataID(id).value.nTxs && TxsHash(e.blake2b, txs) == ParseDataID(id).value.txsHash
    ensures DecompressedLength(e, id, raw) == Some(ParseDataID(id).value.dataLen)
  {
    DecodedLength(e, id, raw, txs);
  }

  /** How long the data in front of `raw` is once decompressed. */
  function DecompressedLength(e: Env, id: string, raw: bytes): Option<nat> {
    match NewBlockDataDecoder(id) case Err(_) => None case Ok(d) =>
    match FrameAt(e, d, raw) case Err(_) => None case Ok((u, _)) => Some(|u|)
  }

  /**
   In every reachable state of a node, whoever wrote an entry: if it is ready under an ID, its raw data decodes
   under that ID to its transactions, which are as many as the ID says and hash to what the ID says, and the data
   is, decompressed, as long as the ID says. It is ready once its channel has been closed, and missing if it is
   not in the cache.
   */
  lemma ReadyIsGood(e: Env, n: nat, s: R.State, id: string)
    requires R.Reachable(CodecOf(e), n, s)
    ensures match ViewIn(s, id)
            case Ready(txs, raw) =>
              && DecodesTo(e, id, raw, txs) && ParseDataID(id).Ok?
              && |txs| == ParseDataID(id).value.nTxs && TxsHash(e.blake2b, txs) == ParseDataID(id).value.txsHash
              && DecompressedLength(e, id, raw) == Some(ParseDataID(id).value.dataLen)
            case _ => true
    ensures ViewIn(s, id).Ready? <==> id in s.cache && s.cache[id].closes == 1
    ensures ViewIn(s, id).Ready? ==>
              s.cache[id].txs == Some(ViewIn(s, id).txs) && s.cache[id].raw == Some(ViewIn(s, id).raw)
    ensures ViewIn(s, id) == Missing <==> id !in s.cache
  {
    R.ConservationAndPublishing(CodecOf(e), n, s);
    assert id in s.cache ==> R.GoodEntry(CodecOf(e), id, s.cache[id]);
    if ViewIn(s, id).Ready? {
      DecodedMatchesID(e, id, ViewIn(s, id).raw, ViewIn(s, id).txs);
    }
  }

  /** And a real cache in that state shows the same. */
  lemma ViewsAgree(e: Env, n: nat, s: R.State, coordinator: Cache.Coordinator, id: string)
    requires R.Reachable(CodecOf(e), n, s) && coordinator.Represents(s)
    ensures ViewOf(coordinator.rCache, id) == ViewIn(s, id)
  {
    R.ConservationAndPublishing(CodecOf(e), n, s);
    assert id in coordinator.rCache.rs.Keys <==> id in s.cache.Keys;
    if id in s.cache {
      assert R.GoodEntry(CodecOf(e), id, s.cache[id]);
      assert Cache.Mirrors(coordinator.rCache.rs[id], s.cache[id]);
    }
  }

  /** So the strategy never finds a ready entry without a first transaction to simulate. */
  lemma ReadyIsCounted(e: Env, n: nat, s: R.State, ph: S.ProposedHeader)
    requires R.Reachable(CodecOf(e), n, s)
    ensures S.Counted(ph, ViewIn(s, ph.header.dataID))
  {
    ReadyIsGood(e, n, s, ph.header.dataID);
  }

  /** And the driver finalizes nothing else. */
  lemma FinalizeIsPossible(e: Env, n: nat, s: R.State, l: Ledger, header: Header, executes: bool)
    requires R.Reachable(CodecOf(e), n, s)
    requires !l.halted && header.height in l.decided && l.decided[header.height] == header
    ensures Possible(CodecOf(e), l, Finalize(header, ViewIn(s, header.dataID), executes))
  {
    ReadyIsGood(e, n, s, header.dataID);
  }

  /** The height and round that an ID names. */
  function MomentOf(id: string): Option<H.Moment> {
    match ParseDataID(id) case Ok(p) => Some(H.Moment(p.height, p.round)) case Err(_) => None
  }

  /** The handshake applies to data IDs, and a proposal's ID names its own height and round. */
  lemma NamedByIDs(e: Env, height: uint64, round: uint32, dataLen: uint32, txs: seq<Tx>)
    requires |txs| < TWO_31 && (txs == [] ==> dataLen == 0)
    ensures H.Named(CodecOf(e), MomentOf)
    ensures MomentOf(DataID(e.blake2b, height, round, dataLen, txs)) == Some(H.Moment(height, round))
  {
    PrintParse(e.blake2b, height, round, dataLen, txs);
  }

  // ----- what is accepted can be finalized

  /** A reachable state, and one that a run leads to from there. */
  ghost predicate Later(e: Env, n: nat, s: R.State, actions: seq<R.Action>, t: R.State) {
    R.Reachable(CodecOf(e), n, s) && R.Run(CodecOf(e), s, actions, t)
  }

  /** Whatever happens after an entry has become ready, it shows the same data. */
  lemma ReadyViewStays(e: Env, n: nat, s: R.State, actions: seq<R.Action>, t: R.State, id: string)
    requires Later(e, n, s, actions, t) && ViewIn(s, id).Ready?
    ensures ViewIn(t, id) == ViewIn(s, id)
  {
    var c := CodecOf(e);
    var before :| R.Run(c, R.Initial(n), before, s);
    R.InitialInv(c, n);
    R.RunKeepsInv(c, R.Initial(n), before, s);
    assert R.GoodEntry(c, id, s.cache[id]);
    R.ReadyStays(c, s, actions, t, id);
  }

  /**
   A header that is acceptable in one state of the cache is finalized in any later state without missing data if
   and only if its ID announces transactions, or is a zero ID to the letter, or happens to be ready by then.
   */
  lemma FinalizableIff<T(!new)>(
    e: Env, n: nat, s: R.State, actions: seq<R.Action>, t: R.State,
    h: uint64, r: uint32, app: S.App<T>, times: bytes -> Option<int>, ph: S.ProposedHeader, now: int, store: Contents)
    requires h != INITIAL_HEIGHT && S.Acceptable(h, r, app, times, ph, ViewIn(s, ph.header.dataID), now)
    requires Later(e, n, s, actions, t)
    ensures S.FindsData(times, ViewIn(t, ph.header.dataID), store, ph.header) <==>
            (S.HasTxs(ph.header.dataID) || IsZeroTxDataID(ph.header.dataID) || ViewIn(t, ph.header.dataID).Ready?)
  {
    if S.HasTxs(ph.header.dataID) {
      ReadyViewStays(e, n, s, actions, t, ph.header.dataID);
    }
  }

  /** So it always is when the ID was made by DataID. */
  lemma PrintedIsFinalizable<T(!new)>(
    e: Env, n: nat, s: R.State, actions: seq<R.Action>, t: R.State,
    h: uint64, r: uint32, app: S.App<T>, times: bytes -> Option<int>, ph: S.ProposedHeader, now: int, store: Contents,
    height: uint64, round: uint32, dataLen: uint32, txs: seq<Tx>)
    requires h != INITIAL_HEIGHT && S.Acceptable(h, r, app, times, ph, ViewIn(s, ph.header.dataID), now)
    requires Later(e, n, s, actions, t)
    requires txs == [] ==> dataLen == 0
    requires ph.header.dataID == DataID(e.blake2b, height, round, dataLen, txs)
    ensures S.FindsData(times, ViewIn(t, ph.header.dataID), store, ph.header)
  {
    PrintParse(e.blake2b, height, round, dataLen, txs);
    IsZeroIffEmpty(e.blake2b, height, round, dataLen, txs);
    FinalizableIff(e, n, s, actions, t, h, r, app, times, ph, now, store);
  }

  /** A step of a reachable state that inserts a request for the ID, or deposits data under it. */
  ghost predicate BroughtIn(c: R.Codec, n: nat, s: R.State, a: R.Action, id: string) {
    && R.Reachable(c, n, s) && R.Enabled(c, s, a)
    && ((a.Insert? && s.coordinator.req.id == id) || (a.Deposit? && a.id == id))
  }

  ghost predicate Afterwards(c: R.Codec, s: R.State, a: R.Action, actions: seq<R.Action>, t: R.State) {
    R.Enabled(c, s, a) && R.Run(c, R.Apply(c, s, a), actions, t)
  }

  /**
   Once a request for an ID has been inserted, or data deposited, finalization at any later time never panics over
   a missing entry: at worst it waits. This is so whatever the codec is.
   */
  lemma RequestedIsNeverMissing(
    c: R.Codec, n: nat, s: R.State, a: R.Action, actions: seq<R.Action>, t: R.State,
    times: bytes -> Option<int>, store: Contents, header: Header)
    requires BroughtIn(c, n, s, a, header.dataID) && Afterwards(c, s, a, actions, t)
    ensures FinalizeData(times, ViewIn(t, header.dataID), store, header).0 != MissingEntry
  {
    R.BroughtStays(c, n, s, a, actions, t, header.dataID);
    FinalizeVerdict(times, ViewIn(t, header.dataID), store, header);
  }

  /** The strategy goes on to ask for an ID if and only if the cache does not have it. */
  lemma AskedIffMissing(e: Env, s: H.State, h: uint64, r: uint32, ph: S.ProposedHeader, addrs: seq<R.Addr>)
    requires s.r.fault == R.NoFault && s.strategy == H.Ready && s.now == Some(H.Moment(h, r))
    requires ParseDataID(ph.header.dataID).Ok? && ph.header.height == h && ph.round == r
    requires var p := ParseDataID(ph.header.dataID).value;
             p.height == h && p.round == r && p.nTxs != 0
    ensures var req := R.Request(ph.header.dataID, addrs);
            && H.Enabled(CodecOf(e), MomentOf, s, H.Consider(req))
            && (S.NeedsRetrieval(h, r, ph, ViewIn(s.r, ph.header.dataID)) <==>
                  H.Apply(CodecOf(e), MomentOf, s, H.Consider(req)).strategy == H.Requesting(req))
  {
  }

  // ----- two nodes

  function Hashes(txs: seq<Tx>): seq<Hash> {
    seq(|txs|, i requires 0 <= i < |txs| => txs[i].hash)
  }

  /** Two inputs with one hash. */
  ghost predicate Collision(blake2b: bytes -> Hash, x: bytes, y: bytes) {
    x != y && blake2b(x) == blake2b(y)
  }

  lemma {:induction false} HashBytesInjective(txs1: seq<Tx>, txs2: seq<Tx>)
    requires |txs1| == |txs2| && HashBytes(txs1) == HashBytes(txs2)
    ensures Hashes(txs1) == Hashes(txs2)
    decreases |txs1|
  {
    if txs1 != [] {
      var k := |txs1| - 1;
      var front1, front2 := HashBytes(txs1[..k]), HashBytes(txs2[..k]);
      assert front1 == HashBytes(txs1)[..32 * k] && front2 == HashBytes(txs2)[..32 * k];
      assert txs1[k].hash == HashBytes(txs1)[32 * k..] && txs2[k].hash == HashBytes(txs2)[32 * k..];
      HashBytesInjective(txs1[..k], txs2[..k]);
      forall i | 0 <= i < k ensures txs1[i].hash == txs2[i].hash {
        assert Hashes(txs1[..k])[i] == Hashes(txs2[..k])[i];
      }
    }
  }

  /** One ID, one list of hashes, or a collision is at hand. */
  lemma OneListPerID(e: Env, id: string, raw1: bytes, txs1: seq<Tx>, raw2: bytes, txs2: seq<Tx>)
    requires DecodesTo(e, id, raw1, txs1) && DecodesTo(e, id, raw2, txs2)
    ensures Hashes(txs1) == Hashes(txs2) || Collision(e.blake2b, HashBytes(txs1), HashBytes(txs2))
  {
    DecodedMatchesID(e, id, raw1, txs1);
    DecodedMatchesID(e, id, raw2, txs2);
    if HashBytes(txs1) == HashBytes(txs2) {
      HashBytesInjective(txs1, txs2);
    }
  }

  /** Two nodes that finalize one header hand the same transaction hashes, in the same order, to execution. */
  lemma NodesAgree(
    e: Env, times: bytes -> Option<int>, header: Header,
    n1: nat, s1: R.State, store1: Contents, txs1: seq<Tx>,
    n2: nat, s2: R.State, store2: Contents, txs2: seq<Tx>)
    requires R.Reachable(CodecOf(e), n1, s1) && R.Reachable(CodecOf(e), n2, s2)
    requires FinalizeData(times, ViewIn(s1, header.dataID), store1, header).0 == Deliver(txs1)
    requires FinalizeData(times, ViewIn(s2, header.dataID), store2, header).0 == Deliver(txs2)
    ensures Hashes(txs1) == Hashes(txs2) || Collision(e.blake2b, HashBytes(txs1), HashBytes(txs2))
  {
    if !IsZeroTxDataID(header.dataID) {
      var view1, view2 := ViewIn(s1, header.dataID), ViewIn(s2, header.dataID);
      ReadyIsGood(e, n1, s1, header.dataID);
      ReadyIsGood(e, n2, s2, header.dataID);
      OneListPerID(e, header.dataID, view1.raw, txs1, view2.raw, txs2);
    }
  }

  /** Over whole histories: wherever two nodes that follow the same decisions have executed a height, they agree. */
  lemma LedgersAgree(e: Env, times: bytes -> Option<int>, l1: Ledger, l2: Ledger, h: uint64)
    requires Reachable(CodecOf(e), times, l1) && Reachable(CodecOf(e), times, l2)
    requires h in l1.delivered && h in l2.delivered
    requires h in l1.decided && h in l2.decided && l1.decided[h] == l2.decided[h]
    ensures Hashes(l1.delivered[h]) == Hashes(l2.delivered[h]) ||
            Collision(e.blake2b, HashBytes(l1.delivered[h]), HashBytes(l2.delivered[h]))
  {
    var c := CodecOf(e);
    ReachableInv(c, times, l1);
    ReachableInv(c, times, l2);
    assert DeliveredAt(c, l1, h, l1.delivered[h]) && DeliveredAt(c, l2, h, l2.delivered[h]);
    if !IsZeroTxDataID(l1.decided[h].dataID) {
      OneListPerID(e, l1.decided[h].dataID,
                   Loaded(l1.store, h).value.1, l1.delivered[h], Loaded(l2.store, h).value.1, l2.delivered[h]);
    }
  }

  /** What a client makes of this host's reply about a height; none if the host panics. */
  function Understood(e: Env, w: Wire, l: Ledger, h: uint64): Option<Parsed> {
    match HandleFullBlockStream(w, ProtocolFor(h), Known(l.chs), l.store)
    case Reply(res) => Some(ParseReply(e, w, w.encodeResult(res)))
    case Corruption => None
  }

  lemma UnknownHeight(
    e: Env, l: Ledger, h: uint64,
    marshalHeader: CommittedHeader -> Option<bytes>, unmarshalHeader: bytes -> Option<CommittedHeader>)
    requires h !in l.chs
    ensures Understood(e, JsonReply.WireOf(marshalHeader, unmarshalHeader), l, h) == Some(PeerError(true))
  {
    ProtocolRoundTrip(h);
    JsonReply.UnknownIsReported(e, marshalHeader, unmarshalHeader);
  }

  lemma MissingData(
    e: Env, l: Ledger, h: uint64,
    marshalHeader: CommittedHeader -> Option<bytes>, unmarshalHeader: bytes -> Option<CommittedHeader>)
    requires h in l.chs && marshalHeader(l.chs[h]).Some?
    requires !IsZeroTxDataID(l.chs[h].header.dataID) && h !in l.store.idByHeight
    ensures Understood(e, JsonReply.WireOf(marshalHeader, unmarshalHeader), l, h) == Some(PeerError(false))
  {
    ProtocolRoundTrip(h);
    JsonReply.NoDataIsReported(e, marshalHeader, unmarshalHeader, "failed to load block data at height");
  }

  /** A block the host has comes through if and only if its reply fits. */
  lemma StoredIsUnderstood(e: Env, times: bytes -> Option<int>, w: Wire, l: Ledger, h: uint64)
    requires Reachable(CodecOf(e), times, l) && h in l.chs && BlockReadBack(w, l.chs[h], StoredData(l, h))
    requires IsZeroTxDataID(l.chs[h].header.dataID) || h in l.store.idByHeight
    ensures match Understood(e, w, l, h)
            case None => false
            case Some(parsed) =>
              if ReplyLength(w, l.chs[h], StoredData(l, h)) > MAX_REPLY + 1 then parsed == Malformed
              else IsBlockAt(l, h, parsed)
  {
    var c := CodecOf(e);
    ReachableInv(c, times, l);
    ProtocolRoundTrip(h);
    if h in l.delivered {
      ServeAndFetchCompose(e, times, w, l, h);
    } else if IsZeroTxDataID(l.chs[h].header.dataID) {
      ServedIsParsed(e, w, l.chs[h], [], []);
    } else {
      assert (h, l.store.idByHeight[h]) in l.store.dataByHeightID;
      assert StoredAt(c, l, h);
      var txs :| c.decodes(l.decided[h].dataID, StoredData(l, h), txs);
      ServedIsParsed(e, w, l.chs[h], StoredData(l, h), txs);
    }
  }

  /** The committed header, its data, and the transactions that were executed for it. */
  predicate IsBlockAt(l: Ledger, h: uint64, parsed: Parsed)
    requires h in l.chs
  {
    && parsed.Full? && parsed.ch == l.chs[h] && parsed.blockData == StoredData(l, h)
    && (h in l.delivered ==> parsed.txs == l.delivered[h])
  }

  /** Within what the client reads: the header's text, and the data in base64 and quotes or else null. */
  predicate Fits(header: bytes, data: bytes) {
    35 + |header| + (if data == [] then 4 else 2 + (|data| + 2) / 3 * 4) <= 16384
  }

  /**
   What a late node makes of an honest host's reply: an unknown height and missing data are told apart from
   each other and from misbehaviour; a block that fits comes through as it is, with the transactions executed
   for it; and the honest host is excluded if and only if it has the block but the block does not fit.
   */
  lemma HonestReply(
    e: Env, times: bytes -> Option<int>, l: Ledger, h: uint64,
    marshalHeader: CommittedHeader -> Option<bytes>, unmarshalHeader: bytes -> Option<CommittedHeader>)
    requires Reachable(CodecOf(e), times, l)
    requires h in l.chs ==>
               && marshalHeader(l.chs[h]).Some? && JsonReply.IsObject(marshalHeader(l.chs[h]).value)
               && unmarshalHeader(marshalHeader(l.chs[h]).value) == Some(l.chs[h])
    ensures match Understood(e, JsonReply.WireOf(marshalHeader, unmarshalHeader), l, h)
            case None => false
            case Some(parsed) =>
              if h !in l.chs then parsed == PeerError(true)
              else if !IsZeroTxDataID(l.chs[h].header.dataID) && h !in l.store.idByHeight
              then parsed == PeerError(false)
              else if !Fits(marshalHeader(l.chs[h]).value, StoredData(l, h)) then parsed == Malformed
              else IsBlockAt(l, h, parsed)
  {
    var w := JsonReply.WireOf(marshalHeader, unmarshalHeader);
    if h !in l.chs {
      UnknownHeight(e, l, h, marshalHeader, unmarshalHeader);
    } else if !IsZeroTxDataID(l.chs[h].header.dataID) && h !in l.store.idByHeight {
      MissingData(e, l, h, marshalHeader, unmarshalHeader);
    } else {
      JsonReply.BlocksAreReadBack(marshalHeader, unmarshalHeader, l.chs[h], StoredData(l, h));
      JsonReply.ReplyLengthIs(marshalHeader, unmarshalHeader, l.chs[h], StoredData(l, h));
      StoredIsUnderstood(e, times, w, l, h);
    }
  }

  /** The text that an honest host writes about a height. */
  function HonestText(w: Wire, l: Ledger, h: uint64): Option<bytes> {
    match HandleFullBlockStream(w, ProtocolFor(h), Known(l.chs), l.store)
    case Reply(res) => Some(w.encodeResult(res))
    case Corruption => None
  }

  /** The host has the block: it is committed, and either has no data or its data has been saved. */
  predicate HasBlock(l: Ledger, h: uint64) {
    h in l.chs && (IsZeroTxDataID(l.chs[h].header.dataID) || h in l.store.idByHeight)
  }

  /**
   What the fetch of a block from an honest host comes to, with an engine that accepts it and its data not cached
   before: it succeeds if and only if the host has the block and its reply fits, the host is excluded if and only
   if it has the block and its reply does not fit, and otherwise the height is tried again.
   */
  lemma HonestFetch(
    e: Env, times: bytes -> Option<int>, l: Ledger, h: uint64,
    marshalHeader: CommittedHeader -> Option<bytes>, unmarshalHeader: bytes -> Option<CommittedHeader>,
    cached: set<string>, round: C.Round)
    requires Reachable(CodecOf(e), times, l)
    requires h in l.chs ==>
               && marshalHeader(l.chs[h]).Some? && JsonReply.IsObject(marshalHeader(l.chs[h]).value)
               && unmarshalHeader(marshalHeader(l.chs[h]).value) == Some(l.chs[h])
               && l.chs[h].header.dataID !in cached
    requires round.engine == C.Accepts
    requires round.serve(ProtocolFor(h)) == HonestText(JsonReply.WireOf(marshalHeader, unmarshalHeader), l, h)
    ensures var read := C.ReaderOf(e, JsonReply.WireOf(marshalHeader, unmarshalHeader));
            var result := C.FetchOf(read, cached, h, round).result;
            var fits := h in l.chs && Fits(marshalHeader(l.chs[h]).value, StoredData(l, h));
            && (result == C.Success <==> HasBlock(l, h) && fits)
            && (result == C.ExcludePeer <==> HasBlock(l, h) && !fits)
            && (result == C.TryAgain <==> !HasBlock(l, h))
  {
    var w := JsonReply.WireOf(marshalHeader, unmarshalHeader);
    var read := C.ReaderOf(e, w);
    HonestReply(e, times, l, h, marshalHeader, unmarshalHeader);
    var parsed := Understood(e, w, l, h).value;
    C.ReaderReads(e, w, HonestText(w, l, h).value);
    C.FetchVerdict(read, cached, h, round);
    assert C.FetchOf(read, cached, h, round).parsed == parsed;
    assert parsed.Full? ==> parsed.ch == l.chs[h] && !C.Repeated(cached, parsed);
  }

  // ----- the failures, on real data

  /** A proposal's data under its ID. */
  function DataFor(e: Env, height: uint64, round: uint32, txs: seq<Tx>): R.Fetched
    requires Encodable(txs)
  {
    R.Fetched(DataID(e.blake2b, height, round, |RawData(txs)|, txs), txs, EncodedBlockData(e, txs))
  }

  lemma DataForIsGood(e: Env, height: uint64, round: uint32, txs: seq<Tx>)
    requires LibrariesInvert(e, txs) && Encodable(txs)
    ensures R.Good(CodecOf(e), DataFor(e, height, round, txs))
    ensures MomentOf(DataFor(e, height, round, txs).id) == Some(H.Moment(height, round))
  {
    ProposalDecodes(e, height, round, txs);
    FewEnough(txs);
    PrintParse(e.blake2b, height, round, |RawData(txs)|, txs);
  }

  /** One list of transactions, proposed at different heights and rounds. */
  function JobsFor(e: Env, txs: seq<Tx>, count: nat): seq<R.Fetched>
    requires Encodable(txs) && count <= TWO_64 * TWO_32
  {
    seq(count, i requires 0 <= i < count => DataFor(e, i % TWO_64, i / TWO_64, txs))
  }

  lemma JobsAreDistinct(e: Env, txs: seq<Tx>, count: nat, i: nat, j: nat)
    requires Encodable(txs) && count <= TWO_64 * TWO_32 && i < j < count
    ensures JobsFor(e, txs, count)[i].id != JobsFor(e, txs, count)[j].id
  {
    FewEnough(txs);
    var len := |RawData(txs)|;
    DataIDInjective(e.blake2b, i % TWO_64, i / TWO_64, len, txs, j % TWO_64, j / TWO_64, len, txs);
  }

  /** The deadlock of n workers, with proposals of any list of transactions. */
  lemma DeadlockOnRealData(e: Env, n: nat, txs: seq<Tx>) returns (s: R.State)
    requires LibrariesInvert(e, txs) && Encodable(txs) && 0 < n < TWO_63
    ensures R.Reachable(CodecOf(e), n, s) && R.Deadlocked(CodecOf(e), s) && R.Outstanding(s) == 3 * n + 1
  {
    var jobs := JobsFor(e, txs, 3 * n + 1);
    forall i, j | 0 <= i < j < |jobs| ensures jobs[i].id != jobs[j].id {
      JobsAreDistinct(e, txs, 3 * n + 1, i, j);
    }
    forall i | 0 <= i < |jobs| ensures CodecOf(e).valid(jobs[i].id) && R.Good(CodecOf(e), jobs[i]) {
      DataForIsGood(e, i % TWO_64, i / TWO_64, txs);
    }
    s := R.DeadlockReachable(CodecOf(e), n, jobs);
  }

  /** The three failures of the handshake, with a proposal of any list of transactions at any height and round. */
  lemma HandshakeBreaksOnRealData(
    e: Env, n: nat, height: uint64, round: uint32, txs: seq<Tx>, addrs: seq<R.Addr>)
    returns (cancelled: H.State, caughtUp: H.State, reentered: H.State)
    requires LibrariesInvert(e, txs) && Encodable(txs) && n > 0
    ensures forall s :: s in [cancelled, caughtUp, reentered] ==>
              H.Reachable(CodecOf(e), MomentOf, n, s) && s.r.fault == R.AlreadyInFlight
  {
    var data := DataFor(e, height, round, txs);
    DataForIsGood(e, height, round, txs);
    cancelled := H.CancellationBreaksIt(CodecOf(e), MomentOf, n, R.Request(data.id, addrs));
    caughtUp := H.CatchupBreaksIt(CodecOf(e), MomentOf, n, addrs, data);
    reentered := H.ReentryBreaksIt(CodecOf(e), MomentOf, n, data);
  }

  /** A peer that serves a block, whatever it is asked for, and is heard by an engine that takes it or not. */
  function RoundServing(stream: bytes, engine: C.Engine): C.Round {
    C.Round(false, true, (_: string) => Some(stream), engine, true)
  }

  /** The text that a host serves for a block with data, and what a client makes of it. */
  lemma BlockServed(
    e: Env, height: uint64, round: uint32, txs: seq<Tx>, ch: CommittedHeader,
    marshalHeader: CommittedHeader -> Option<bytes>, unmarshalHeader: bytes -> Option<CommittedHeader>)
    returns (stream: bytes)
    requires LibrariesInvert(e, txs) && Encodable(txs)
    requires ch.header.dataID == DataFor(e, height, round, txs).id
    requires marshalHeader(ch).Some? && JsonReply.IsObject(marshalHeader(ch).value)
    requires unmarshalHeader(marshalHeader(ch).value) == Some(ch)
    requires Fits(marshalHeader(ch).value, EncodedBlockData(e, txs))
    ensures C.ReaderOf(e, JsonReply.WireOf(marshalHeader, unmarshalHeader))(Some(stream)) ==
            Full(ch, EncodedBlockData(e, txs), txs)
    ensures EncodedBlockData(e, txs) != []
  {
    var w, data := JsonReply.WireOf(marshalHeader, unmarshalHeader), EncodedBlockData(e, txs);
    JsonReply.BlocksAreReadBack(marshalHeader, unmarshalHeader, ch, data);
    JsonReply.ReplyLengthIs(marshalHeader, unmarshalHeader, ch, data);
    stream := BlockParsed(e, w, height, round, txs, ch);
    C.ReaderReads(e, w, stream);
  }

  lemma BlockParsed(e: Env, w: Wire, height: uint64, round: uint32, txs: seq<Tx>, ch: CommittedHeader)
    returns (stream: bytes)
    requires LibrariesInvert(e, txs) && Encodable(txs)
    requires ch.header.dataID == DataFor(e, height, round, txs).id
    requires BlockReadBack(w, ch, EncodedBlockData(e, txs))
    requires ReplyLength(w, ch, EncodedBlockData(e, txs)) <= MAX_REPLY + 1
    ensures ParseReply(e, w, stream) == Full(ch, EncodedBlockData(e, txs), txs)
    ensures EncodedBlockData(e, txs) != []
  {
    var data := EncodedBlockData(e, txs);
    ProposalDecodes(e, height, round, txs);
    IsZeroIffEmpty(e.blake2b, height, round, |RawData(txs)|, txs);
    ServedIsParsed(e, w, ch, data, txs);
    stream := w.encodeResult(ServeFull(w, w.marshalHeader(ch).value, data).res);
  }

  /** The panic of a retry, with any block whose reply fits. */
  lemma RetryPanicsOnRealBlock(
    e: Env, height: uint64, round: uint32, txs: seq<Tx>, ch: CommittedHeader,
    marshalHeader: CommittedHeader -> Option<bytes>, unmarshalHeader: bytes -> Option<CommittedHeader>,
    start: uint64, stop: uint64, engine: C.Engine) returns (first: C.Round, again: C.Round)
    requires LibrariesInvert(e, txs) && Encodable(txs)
    requires ch.header.dataID == DataFor(e, height, round, txs).id
    requires marshalHeader(ch).Some? && JsonReply.IsObject(marshalHeader(ch).value)
    requires unmarshalHeader(marshalHeader(ch).value) == Some(ch)
    requires Fits(marshalHeader(ch).value, EncodedBlockData(e, txs))
    requires C.Continues(stop, start)
    ensures var read := C.ReaderOf(e, JsonReply.WireOf(marshalHeader, unmarshalHeader));
            C.FetchRun(read, {}, start, stop, [first, again]).0 == C.Panicked
  {
    var stream := BlockServed(e, height, round, txs, ch, marshalHeader, unmarshalHeader);
    first, again := RoundServing(stream, C.Rejects), RoundServing(stream, engine);
    var read := C.ReaderOf(e, JsonReply.WireOf(marshalHeader, unmarshalHeader));
    C.RejectedThenRetried(read, {}, start, stop, first, again, []);
    assert [first, again] + [] == [first, again];
  }

  /** A block of another height, which the client passes on as if it were the one asked for. */
  lemma OtherHeightOnRealBlock(
    e: Env, height: uint64, round: uint32, txs: seq<Tx>, ch: CommittedHeader,
    marshalHeader: CommittedHeader -> Option<bytes>, unmarshalHeader: bytes -> Option<CommittedHeader>,
    asked: uint64) returns (served: C.Round)
    requires LibrariesInvert(e, txs) && Encodable(txs)
    requires ch.header.dataID == DataFor(e, height, round, txs).id
    requires marshalHeader(ch).Some? && JsonReply.IsObject(marshalHeader(ch).value)
    requires unmarshalHeader(marshalHeader(ch).value) == Some(ch)
    requires Fits(marshalHeader(ch).value, EncodedBlockData(e, txs))
    requires asked + 1 < TWO_64 && ch.header.height != asked
    ensures var read := C.ReaderOf(e, JsonReply.WireOf(marshalHeader, unmarshalHeader));
            var (status, made) := C.FetchRun(read, {}, asked, asked + 1, [served]);
            && status == C.Finished && |C.AllTaken(made)| == 1
            && C.AllTaken(made)[0].parsed.ch.header.height != asked
  {
    var stream := BlockServed(e, height, round, txs, ch, marshalHeader, unmarshalHeader);
    served := RoundServing(stream, C.Accepts);
    var read := C.ReaderOf(e, JsonReply.WireOf(marshalHeader, unmarshalHeader));
    assert read(served.serve(ProtocolFor(asked))) == Full(ch, EncodedBlockData(e, txs), txs);
    C.OtherHeightFinishes(read, {}, asked, served);
  }
}
