/**
 The block data part of finalization (gserver/internal/gsi/driver.go, handleFinalization), and the history of
 a node's decided, committed, finalized and served blocks.
 */
module Driver {
  import opened Basics
  import opened BlockData
  import opened DataIds
  import opened FullBlocks
  import opened Store
  import Cache
  import R = Retriever

  const INITIAL_HEIGHT := 1

  /** What a lookup in the request cache shows. */
  datatype View = Missing | InFlight | Ready(txs: seq<Tx>, raw: bytes)

  datatype Outcome =
    | Genesis // Nothing is read, saved or delivered at the initial height.
    | BadAnnotation
    | MissingEntry // A panic.
    | NotReady // Waits for the entry, until its context is cancelled.
    | SaveFailed(err: SaveError)
    | Deliver(txs: seq<Tx>)

  ghost function ViewOf(cache: Cache.RequestCache, id: string): View
    reads cache, cache.rs.Values
  {
    if id !in cache.rs then Missing
    else if !cache.rs[id].ready then InFlight
    else Ready(cache.rs[id].transactions, cache.rs[id].encodedTransactions)
  }

  /** The outcome for a header, and the store afterwards. */
  function FinalizeData(times: bytes -> Option<int>, view: View, store: Contents, header: Header): (Outcome, Contents) {
    if header.height == INITIAL_HEIGHT then (Genesis, store)
    else if times(header.annotation) == None then (BadAnnotation, store)
    else if IsZeroTxDataID(header.dataID) then (Deliver([]), store) else
    match view
    case Missing => (MissingEntry, store)
    case InFlight => (NotReady, store)
    case Ready(txs, raw) =>
      match Save(store, header.height, header.dataID, raw)
      case Err(err) => (SaveFailed(err), store)
      case Ok(saved) => (Deliver(txs), saved)
  }

  method HandleFinalizationData(
    times: bytes -> Option<int>, cache: Cache.RequestCache, bdStore: BlockDataStore, header: Header)
    returns (out: Outcome)
    modifies bdStore
    ensures (out, bdStore.Value()) ==
            FinalizeData(times, ViewOf(cache, header.dataID), old(bdStore.Value()), header)
    ensures var needed := header.height != 1 && times(header.annotation).Some? && !IsZeroTxDataID(header.dataID);
            && (out == MissingEntry <==> needed && header.dataID !in cache.rs)
            && (out == NotReady <==> needed && header.dataID in cache.rs && !cache.rs[header.dataID].ready)
            && (out.Deliver? && needed ==> out.txs == cache.rs[header.dataID].transactions)
  {
    if header.height == INITIAL_HEIGHT {
      return Genesis;
    }
    if times(header.annotation) == None {
      return BadAnnotation;
    }
    var txs: seq<Tx> := [];
    if !IsZeroTxDataID(header.dataID) {
      var bdr := cache.Get(header.dataID);
      if bdr.None? {
        return MissingEntry;
      }
      if !bdr.value.ready {
        return NotReady;
      }
      txs := bdr.value.transactions;
      var err := bdStore.SaveBlockData(header.height, header.dataID, bdr.value.encodedTransactions);
      if err.Some? {
        return SaveFailed(err.value);
      }
    }
    out := Deliver(txs);
  }

  /** What each outcome means, by the header, the view and the store. */
  lemma FinalizeVerdict(times: bytes -> Option<int>, view: View, store: Contents, header: Header)
    ensures var (out, after) := FinalizeData(times, view, store, header);
            var past := header.height != 1 && times(header.annotation).Some?;
            var needed := past && !IsZeroTxDataID(header.dataID);
            && (out == Genesis <==> header.height == 1)
            && (out == BadAnnotation <==> header.height != 1 && times(header.annotation) == None)
            && (past && !needed ==> out == Deliver([]))
            && (out == MissingEntry <==> needed && view == Missing)
            && (out == NotReady <==> needed && view == InFlight)
            && (out == SaveFailed(AlreadyHaveHeight) <==> needed && view.Ready? && header.height in store.idByHeight)
            && (out == SaveFailed(AlreadyHaveID) <==>
                  needed && view.Ready? && header.height !in store.idByHeight && header.dataID in store.heightByID)
            && (needed && out.Deliver? ==>
                  && view.Ready? && out.txs == view.txs
                  && Loaded(after, header.height) == Some((header.dataID, view.raw)))
            && (!needed || !out.Deliver? ==> after == store)
  {
  }

  // ----- a node's history

  /** Consensus decides one header per height; `delivered` is what was executed for it. */
  datatype Ledger = Ledger(
    decided: map<uint64, Header>,
    chs: map<uint64, CommittedHeader>,
    store: Contents,
    delivered: map<uint64, seq<Tx>>,
    halted: bool)

  datatype Event =
    | Decide(header: Header)
    | Commit(ch: CommittedHeader)
    | Finalize(header: Header, view: View, executes: bool) // Executing the transactions may fail as well.

  const GENESIS := Ledger(map[], map[], EMPTY, map[], false)

  /** The cache that finalization looks into has ready entries only with data that decodes under their IDs. */
  ghost predicate Possible(c: R.Codec, l: Ledger, ev: Event) {
    match ev
    case Decide(header) => header.height !in l.decided
    case Commit(ch) =>
      ch.header.height in l.decided && l.decided[ch.header.height] == ch.header && ch.header.height !in l.chs
    case Finalize(header, view, _) =>
      && !l.halted && header.height in l.decided && l.decided[header.height] == header
      && (view.Ready? ==> c.decodes(header.dataID, view.raw, view.txs))
  }

  function After(times: bytes -> Option<int>, l: Ledger, ev: Event): Ledger {
    match ev
    case Decide(header) => l.(decided := l.decided[header.height := header])
    case Commit(ch) => l.(chs := l.chs[ch.header.height := ch])
    case Finalize(header, view, executes) =>
      var (out, store) := FinalizeData(times, view, l.store, header);
      match out
      case Genesis => l
      case Deliver(txs) =>
        if executes then l.(store := store, delivered := l.delivered[header.height := txs])
        else l.(store := store, halted := true)
      case _ => l.(store := store, halted := true)
  }

  ghost predicate History(c: R.Codec, times: bytes -> Option<int>, l: Ledger, events: seq<Event>, m: Ledger)
    decreases |events|
  {
    if events == [] then l == m
    else Possible(c, l, events[0]) && History(c, times, After(times, l, events[0]), events[1..], m)
  }

  ghost predicate Reachable(c: R.Codec, times: bytes -> Option<int>, l: Ledger) {
    exists events :: History(c, times, GENESIS, events, l)
  }

  /** What is stored for a height is good data of the block decided there, which is not the initial one nor empty. */
  ghost predicate StoredAt(c: R.Codec, l: Ledger, h: uint64)
    requires Loaded(l.store, h).Some?
  {
    && h != INITIAL_HEIGHT && h in l.decided
    && Loaded(l.store, h).value.0 == l.decided[h].dataID && !IsZeroTxDataID(l.decided[h].dataID)
    && exists txs :: c.decodes(l.decided[h].dataID, Loaded(l.store, h).value.1, txs)
  }

  ghost predicate DeliveredAt(c: R.Codec, l: Ledger, h: uint64, txs: seq<Tx>) {
    && h != INITIAL_HEIGHT && h in l.decided
    && if IsZeroTxDataID(l.decided[h].dataID) then txs == []
       else Loaded(l.store, h).Some? && c.decodes(l.decided[h].dataID, Loaded(l.store, h).value.1, txs)
  }

  ghost predicate LedgerInv(c: R.Codec, l: Ledger) {
    && Consistent(l.store)
    && (forall h: uint64 :: Loaded(l.store, h).Some? ==> StoredAt(c, l, h))
    && (forall h :: h in l.chs ==> h in l.decided && l.chs[h].header == l.decided[h])
    && (forall h :: h in l.decided ==> l.decided[h].height == h)
    && (forall h :: h in l.delivered ==> DeliveredAt(c, l, h, l.delivered[h]))
  }

  /** Nothing that matters about other heights changes. */
  lemma OthersStay(c: R.Codec, l: Ledger, m: Ledger, h: uint64)
    requires LedgerInv(c, l)
    requires Loaded(m.store, h) == Loaded(l.store, h)
    requires h in l.decided ==> h in m.decided && m.decided[h] == l.decided[h]
    ensures Loaded(m.store, h).Some? ==> StoredAt(c, m, h)
    ensures h in l.delivered ==> DeliveredAt(c, m, h, l.delivered[h])
  {
    assert h in l.delivered ==> DeliveredAt(c, l, h, l.delivered[h]);
  }

  lemma EventKeepsInv(c: R.Codec, times: bytes -> Option<int>, l: Ledger, ev: Event)
    requires LedgerInv(c, l) && Possible(c, l, ev)
    ensures LedgerInv(c, After(times, l, ev))
  {
    var m := After(times, l, ev);
    if ev.Finalize? && m.store != l.store {
      SaveKeepsConsistent(l.store, ev.header.height, ev.header.dataID, ev.view.raw);
    }
    forall h: uint64
      ensures Loaded(m.store, h).Some? ==> StoredAt(c, m, h)
      ensures h in m.delivered ==> DeliveredAt(c, m, h, m.delivered[h])
    {
      if !ev.Finalize? || h != ev.header.height || m.store == l.store {
        OthersStay(c, l, m, h);
      }
    }
  }

  lemma {:induction false} HistoryKeepsInv(
    c: R.Codec, times: bytes -> Option<int>, l: Ledger, events: seq<Event>, m: Ledger)
    requires LedgerInv(c, l) && History(c, times, l, events, m)
    ensures LedgerInv(c, m)
    decreases |events|
  {
    if events != [] {
      EventKeepsInv(c, times, l, events[0]);
      HistoryKeepsInv(c, times, After(times, l, events[0]), events[1..], m);
    }
  }

  lemma ReachableInv(c: R.Codec, times: bytes -> Option<int>, l: Ledger)
    requires Reachable(c, times, l)
    ensures LedgerInv(c, l)
  {
    var events :| History(c, times, GENESIS, events, l);
    HistoryKeepsInv(c, times, GENESIS, events, l);
  }

  // ----- serving the history

  /** The codec as far as the protocols are concerned. */
  function CodecOf(e: Env): R.Codec {
    R.Codec(id => NewBlockDataDecoder(id).Ok?, (id, raw, txs) => DecodesTo(e, id, raw, txs))
  }

  function Known(chs: map<uint64, CommittedHeader>): uint64 -> Result<CommittedHeader, HeaderError> {
    (h: uint64) => if h in chs then Ok(chs[h]) else Err(HeightUnknown)
  }

  /** The data that belongs to a delivered height. */
  function StoredData(l: Ledger, h: uint64): bytes {
    match Loaded(l.store, h) case Some((_, data)) => data case None => []
  }

  /** Whatever is asked for, the host's corruption panic is out of reach. */
  lemma NeverCorrupt(c: R.Codec, times: bytes -> Option<int>, w: Wire, l: Ledger, protocol: string)
    requires Reachable(c, times, l)
    ensures HandleFullBlockStream(w, protocol, Known(l.chs), l.store) != Corruption
  {
    ReachableInv(c, times, l);
  }

  /**
   A committed height past the initial one that has been delivered is served, and the reply is understood as
   the same header, data and transactions if and only if it fits into what the client reads.
   */
  lemma ServeAndFetchCompose(e: Env, times: bytes -> Option<int>, w: Wire, l: Ledger, h: uint64)
    requires Reachable(CodecOf(e), times, l) && h in l.chs && h in l.delivered
    requires BlockReadBack(w, l.chs[h], StoredData(l, h))
    ensures var served := HandleFullBlockStream(w, ProtocolFor(h), Known(l.chs), l.store);
            && served.Reply?
            && ParseReply(e, w, w.encodeResult(served.res)) ==
               if ReplyLength(w, l.chs[h], StoredData(l, h)) <= MAX_REPLY + 1
               then Full(l.chs[h], StoredData(l, h), l.delivered[h])
               else Malformed
  {
    ReachableInv(CodecOf(e), times, l);
    ProtocolRoundTrip(h);
    assert DeliveredAt(CodecOf(e), l, h, l.delivered[h]);
    ServedIsParsed(e, w, l.chs[h], StoredData(l, h), l.delivered[h]);
  }

  const NO_DATA := Failure("failed to load block data at height")

  /**
   A committed header with data is refused for lack of data if and only if nothing has been saved for it; at
   the initial height that is for ever.
   */
  lemma RefusedIffUnsaved(c: R.Codec, times: bytes -> Option<int>, w: Wire, l: Ledger, h: uint64)
    requires Reachable(c, times, l) && h in l.chs && !IsZeroTxDataID(l.chs[h].header.dataID)
    requires BlockReadBack(w, l.chs[h], StoredData(l, h))
    ensures HandleFullBlockStream(w, ProtocolFor(h), Known(l.chs), l.store) == NO_DATA <==> h !in l.store.idByHeight
    ensures h == INITIAL_HEIGHT ==> HandleFullBlockStream(w, ProtocolFor(h), Known(l.chs), l.store) == NO_DATA
  {
    ReachableInv(c, times, l);
    ProtocolRoundTrip(h);
    assert h in l.store.idByHeight ==> (h, l.store.idByHeight[h]) in l.store.dataByHeightID;
    assert NO_DATA.res.err != "";
  }
}
