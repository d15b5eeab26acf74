/**
 One fetch of a committed block from a peer, and a run of fetches over a range of heights
 (gserver/internal/gp2papi/catchupclient.go, doFetch and doFetches).
 */
module CatchupFetch {
  import opened Basics
  import opened BlockData
  import opened Cache
  import opened DataIds
  import opened FullBlocks
  import opened Streams

  /** The engine's answer to a replayed header; when cancellation comes first it may have accepted unheard. */
  datatype Engine = Accepts | Rejects | NoReply(accepted: bool)

  datatype FetchResult = Success | ExcludePeer | TryAgain | Panic

  /** Failing to open a stream counts as a malformed reply. */
  function Parse(e: Env, w: Wire, reply: Option<bytes>): Parsed {
    match reply case Some(stream) => ParseReply(e, w, stream) case None => Malformed
  }

  /** The ID whose data a reply carries. */
  function DataOf(parsed: Parsed): set<string> {
    if parsed.Full? && parsed.blockData != [] then {parsed.ch.header.dataID} else {}
  }

  /** Data is cached before the engine has answered. */
  function FetchStep(cached: set<string>, parsed: Parsed, engine: Engine): FetchResult {
    match parsed
    case Malformed => ExcludePeer
    case PeerError(_) => TryAgain
    case Full(_, _, _) =>
      if DataOf(parsed) * cached != {} then Panic else
      match engine case Accepts => Success case Rejects => ExcludePeer case NoReply(_) => TryAgain
  }

  /** doFetch up to the cache: reads a reply and checks its format. */
  method CheckReply(e: Env, w: Wire, stream: bytes) returns (parsed: Parsed)
    ensures parsed == ParseReply(e, w, stream)
  {
    var limited := if |stream| <= MAX_REPLY then stream else stream[..MAX_REPLY];
    var res := w.decodeResult(limited);
    if res.None? {
      return Malformed;
    }
    if res.value.err != "" {
      return PeerError(res.value.err == "height unknown");
    }
    var fbr := w.unmarshalFull(res.value.result);
    if fbr.None? {
      return Malformed;
    }
    var ch := w.unmarshalHeader(fbr.value.header);
    if ch.None? {
      return Malformed;
    }
    var dataID, blockData := ch.value.header.dataID, fbr.value.blockData;
    if IsZeroTxDataID(dataID) {
      if |blockData| > 0 {
        return Malformed;
      }
    } else if |blockData| == 0 {
      return Malformed;
    }
    var txs: seq<Tx> := [];
    if |blockData| > 0 {
      var dec := NewBlockDataDecoder(dataID);
      if dec.Err? {
        return Malformed;
      }
      var s := new Stream(blockData, true);
      var decoded := Decode(e, dec.value, s);
      if decoded.Err? {
        return Malformed;
      }
      txs := decoded.value;
    }
    parsed := Full(ch.value, blockData, txs);
  }

  /** Data that is good for its ID is made available at once; the ID being cached already is a panic. */
  method DoFetch(e: Env, w: Wire, rCache: RequestCache, reply: Option<bytes>, engine: Engine)
    returns (r: FetchResult, ghost parsed: Parsed)
    modifies rCache
    ensures parsed == Parse(e, w, reply)
    ensures r == FetchStep(old(rCache.rs.Keys), parsed, engine)
    ensures parsed.Malformed? || reply == None ==> r == ExcludePeer
    ensures parsed.PeerError? ==> r == TryAgain
    ensures parsed.Full? ==>
              var repeated := parsed.blockData != [] && parsed.ch.header.dataID in old(rCache.rs);
              r == if repeated then Panic else if engine == Accepts then Success
                   else if engine == Rejects then ExcludePeer else TryAgain
    ensures DataOf(parsed) == {} || r == Panic ==> rCache.rs == old(rCache.rs)
    ensures DataOf(parsed) != {} && r != Panic ==>
              var id := parsed.ch.header.dataID;
              && id in rCache.rs && rCache.rs == old(rCache.rs)[id := rCache.rs[id]]
              && fresh(rCache.rs[id]) && rCache.rs[id].ready
              && rCache.rs[id].transactions == parsed.txs
              && rCache.rs[id].encodedTransactions == parsed.blockData
  {
    if reply.None? {
      return ExcludePeer, Malformed;
    }
    var p := CheckReply(e, w, reply.value);
    parsed := p;
    if p.Malformed? {
      return ExcludePeer, p;
    }
    if p.PeerError? {
      return TryAgain, p;
    }
    if |p.blockData| > 0 {
      var present := rCache.Get(p.ch.header.dataID);
      if present.Some? {
        assert p.ch.header.dataID in DataOf(p) * rCache.rs.Keys;
        return Panic, p;
      }
      rCache.SetImmediatelyAvailable(p.ch.header.dataID, p.txs, p.blockData);
    }
    r := match engine case Accepts => Success case Rejects => ExcludePeer case NoReply(_) => TryAgain;
  }

  // ----- a run of fetches

  /**
   One round of the loop: what the peer it obtained serves for each protocol, the engine's answer, and how the
   sends to the other goroutines went.
   */
  datatype Round = Round(
    cancelled: bool, gotPeer: bool, serve: string -> Option<bytes>, engine: Engine, excludeSent: bool)

  datatype Status = Running | Finished | Interrupted | Panicked

  /** One fetch made: the height asked for, what the reply amounted to, and what came of it. */
  datatype Fetched = Fetched(height: uint64, parsed: Parsed, result: FetchResult, engine: Engine)

  /** Reading replies. */
  type Reader = Option<bytes> -> Parsed

  function ReaderOf(e: Env, w: Wire): Reader {
    (reply: Option<bytes>) => Parse(e, w, reply)
  }

  lemma ReaderReads(e: Env, w: Wire, stream: bytes)
    ensures ReaderOf(e, w)(Some(stream)) == ParseReply(e, w, stream)
  {
  }

  ghost predicate Reads(e: Env, w: Wire, read: Reader) {
    forall reply {:trigger Parse(e, w, reply)} :: read(reply) == Parse(e, w, reply)
  }

  predicate Continues(stop: uint64, height: uint64) {
    stop == 0 || height < stop
  }

  function FetchOf(read: Reader, cached: set<string>, height: uint64, round: Round): Fetched {
    var parsed := read(round.serve(ProtocolFor(height)));
    Fetched(height, parsed, FetchStep(cached, parsed, round.engine), round.engine)
  }

  function NextHeight(f: Fetched): uint64 {
    if f.result == Success then (f.height + 1) % TWO_64 else f.height
  }

  /** How the run goes on from round i, after the fetches already made. */
  function FetchRunFrom(
    read: Reader, cached: set<string>, height: uint64, stop: uint64, rounds: seq<Round>, i: nat, made: seq<Fetched>)
    : (Status, seq<Fetched>)
    requires i <= |rounds|
    decreases |rounds| - i
  {
    if !Continues(stop, height) then (Finished, made)
    else if i == |rounds| then (Running, made)
    else if !rounds[i].gotPeer then (Interrupted, made)
    else
      var f := FetchOf(read, cached, height, rounds[i]);
      if f.result == Panic then (Panicked, made + [f])
      else if f.result == ExcludePeer && !rounds[i].excludeSent then (Interrupted, made + [f])
      else FetchRunFrom(read, cached + DataOf(f.parsed), NextHeight(f), stop, rounds, i + 1, made + [f])
  }

  /** The whole run for the heights from `start` to before `stop`, or without end. */
  function FetchRun(read: Reader, cached: set<string>, start: uint64, stop: uint64, rounds: seq<Round>)
    : (Status, seq<Fetched>)
  {
    FetchRunFrom(read, cached, start, stop, rounds, 0, [])
  }

  /** The fetch of one round. */
  method FetchRound(e: Env, w: Wire, rCache: RequestCache, height: uint64, round: Round, ghost read: Reader)
    returns (r: FetchResult, ghost f: Fetched)
    requires Reads(e, w, read)
    modifies rCache
    ensures f == FetchOf(read, old(rCache.rs.Keys), height, round) && r == f.result
    ensures rCache.rs.Keys == old(rCache.rs.Keys) + DataOf(f.parsed) // Nothing new if it panics.
  {
    ghost var parsed;
    r, parsed := DoFetch(e, w, rCache, round.serve(ProtocolFor(height)), round.engine);
    f := Fetched(height, parsed, r, round.engine);
  }

  /** The loop makes exactly the fetches of the run, and leaves their data in the cache. */
  method FetchLoop(
    e: Env, w: Wire, rCache: RequestCache, start: uint64, stop: uint64, rounds: seq<Round>, ghost read: Reader)
    returns (status: Status, ghost made: seq<Fetched>)
    requires Reads(e, w, read)
    modifies rCache
    ensures (status, made) == FetchRun(read, old(rCache.rs.Keys), start, stop, rounds)
    ensures rCache.rs.Keys == old(rCache.rs.Keys) + AllData(made, |made|)
  {
    var height: uint64 := start;
    made := [];
    var i := 0;
    while Continues(stop, height)
      invariant 0 <= i <= |rounds|
      invariant FetchRun(read, old(rCache.rs.Keys), start, stop, rounds) ==
                FetchRunFrom(read, rCache.rs.Keys, height, stop, rounds, i, made)
      invariant rCache.rs.Keys == old(rCache.rs.Keys) + AllData(made, |made|)
      decreases |rounds| - i
    {
      if i == |rounds| {
        status := Running;
        return;
      }
      var round := rounds[i];
      if !round.gotPeer {
        status := Interrupted;
        return;
      }
      ghost var f;
      var res;
      res, f := FetchRound(e, w, rCache, height, round, read);
      AllDataStep(made, f);
      made := made + [f];
      if res == Panic {
        status := Panicked;
        return;
      }
      i := i + 1;
      if res == ExcludePeer {
        if !round.excludeSent {
          status := Interrupted;
          return;
        }
        continue;
      }
      if res != Success {
        continue;
      }
      height := (height + 1) % TWO_64;
    }
    status := Finished;
  }

  /**
   The fetches made are those of the run. The headers that the engine took were served for consecutive heights
   from `start` on, and for all of the range if it finishes; and it panics if and only if data comes twice.
   */
  method DoFetches(e: Env, w: Wire, rCache: RequestCache, start: uint64, stop: uint64, rounds: seq<Round>)
    returns (status: Status, ghost made: seq<Fetched>)
    modifies rCache
    ensures (status, made) == FetchRun(ReaderOf(e, w), old(rCache.rs.Keys), start, stop, rounds)
    ensures rCache.rs.Keys == old(rCache.rs.Keys) + AllData(made, |made|)
    ensures Plausible(rounds) ==> Contiguous(start, stop, status, AllTaken(made))
    ensures status == Panicked <==> Repeats(old(rCache.rs.Keys), made)
  {
    ghost var read, cached := ReaderOf(e, w), rCache.rs.Keys;
    status, made := FetchLoop(e, w, rCache, start, stop, rounds, read);
    PanicsIffRepeats(read, cached, start, stop, rounds);
    if Plausible(rounds) {
      ContiguousCatchup(read, cached, start, stop, rounds);
    }
  }

  /**
   What a fetch comes to, by its reply and the engine: the peer is excluded if and only if there was no stream or
   what it sent is malformed, or its block, not a repeat, is rejected; an error it reports is always retried; and
   only a block that is accepted counts.
   */
  lemma FetchVerdict(read: Reader, cached: set<string>, height: uint64, round: Round)
    ensures var f := FetchOf(read, cached, height, round);
            var reply := round.serve(ProtocolFor(height));
            && f.height == height && f.parsed == read(reply) && f.engine == round.engine
            && (f.result == ExcludePeer <==>
                  f.parsed.Malformed? || (f.parsed.Full? && !Repeated(cached, f.parsed) && round.engine == Rejects))
            && (f.parsed.PeerError? ==> f.result == TryAgain)
            && (f.result == Success <==> f.parsed.Full? && !Repeated(cached, f.parsed) && round.engine == Accepts)
            && (f.result == Panic <==> f.parsed.Full? && Repeated(cached, f.parsed))
  {
    var parsed := FetchOf(read, cached, height, round).parsed;
    if parsed.Full? && Repeated(cached, parsed) {
      assert parsed.ch.header.dataID in DataOf(parsed) * cached;
    }
  }

  /** A block whose data is in the cache. */
  predicate Repeated(cached: set<string>, block: Parsed)
    requires block.Full?
  {
    block.blockData != [] && block.ch.header.dataID in cached
  }

  /** The height that the next fetch is for: one more for every success. */
  function HeightAfter(start: uint64, made: seq<Fetched>, n: nat): uint64
    requires n <= |made|
  {
    if n == 0 then start
    else if made[n - 1].result == Success then (HeightAfter(start, made, n - 1) + 1) % TWO_64
    else HeightAfter(start, made, n - 1)
  }

  /** The i-th fetch is that of the i-th round: from the peer obtained there, and of the height come to. */
  predicate IsOfRound(read: Reader, start: uint64, stop: uint64, rounds: seq<Round>, made: seq<Fetched>, i: nat)
    requires i < |made| <= |rounds|
  {
    && rounds[i].gotPeer && made[i].engine == rounds[i].engine
    && made[i].height == HeightAfter(start, made, i) && (stop == 0 || made[i].height < stop)
    && made[i].parsed == read(rounds[i].serve(ProtocolFor(made[i].height)))
  }

  predicate AreOfRounds(read: Reader, start: uint64, stop: uint64, rounds: seq<Round>, made: seq<Fetched>) {
    |made| <= |rounds| && forall i :: 0 <= i < |made| ==> IsOfRound(read, start, stop, rounds, made, i)
  }

  /** A panic, or an exclusion that could not be sent. */
  predicate Ends(round: Round, f: Fetched) {
    f.result == Panic || (f.result == ExcludePeer && !round.excludeSent)
  }

  predicate NoneEnds(rounds: seq<Round>, made: seq<Fetched>, n: nat)
    requires n <= |made| <= |rounds|
  {
    forall i :: 0 <= i < n ==> !Ends(rounds[i], made[i])
  }

  /** What it was that ended the run with this status. */
  predicate EndedBy(start: uint64, stop: uint64, rounds: seq<Round>, status: Status, made: seq<Fetched>)
    requires |made| <= |rounds|
  {
    var last := |made| - 1;
    match status
    case Panicked => made != [] && NoneEnds(rounds, made, last) && made[last].result == Panic
    case Finished => NoneEnds(rounds, made, |made|) && stop > 0 && HeightAfter(start, made, |made|) >= stop
    case Running => NoneEnds(rounds, made, |made|) && |made| == |rounds|
    case Interrupted =>
      || (NoneEnds(rounds, made, |made|) && |made| < |rounds| && !rounds[|made|].gotPeer)
      || (made != [] && NoneEnds(rounds, made, last) && Ends(rounds[last], made[last]) && made[last].result != Panic)
  }

  lemma {:induction false} HeightAfterPrefix(start: uint64, made: seq<Fetched>, f: Fetched, n: nat)
    requires n <= |made|
    ensures HeightAfter(start, made + [f], n) == HeightAfter(start, made, n)
  {
    if n > 0 {
      HeightAfterPrefix(start, made, f, n - 1);
    }
  }

  lemma OneMoreRound(
    read: Reader, cached: set<string>, start: uint64, stop: uint64, rounds: seq<Round>, made: seq<Fetched>, f: Fetched)
    requires AreOfRounds(read, start, stop, rounds, made) && |made| < |rounds| && rounds[|made|].gotPeer
    requires Continues(stop, HeightAfter(start, made, |made|))
    requires f == FetchOf(read, cached, HeightAfter(start, made, |made|), rounds[|made|])
    ensures AreOfRounds(read, start, stop, rounds, made + [f])
    ensures HeightAfter(start, made + [f], |made| + 1) == NextHeight(f)
    ensures NoneEnds(rounds, made, |made|) ==> NoneEnds(rounds, made + [f], |made|)
  {
    var all := made + [f];
    HeightAfterPrefix(start, made, f, |made|);
    forall i | 0 <= i < |all| ensures IsOfRound(read, start, stop, rounds, all, i) {
      if i < |made| {
        HeightAfterPrefix(start, made, f, i);
        assert IsOfRound(read, start, stop, rounds, made, i);
      }
    }
  }

  lemma {:induction false} FollowsRoundsFrom(
    read: Reader, cached: set<string>, start: uint64, stop: uint64, rounds: seq<Round>, made: seq<Fetched>)
    requires AreOfRounds(read, start, stop, rounds, made) && NoneEnds(rounds, made, |made|)
    ensures var (status, all) :=
              FetchRunFrom(read, cached, HeightAfter(start, made, |made|), stop, rounds, |made|, made);
            AreOfRounds(read, start, stop, rounds, all) && EndedBy(start, stop, rounds, status, all)
    decreases |rounds| - |made|
  {
    var height := HeightAfter(start, made, |made|);
    if Continues(stop, height) && |made| < |rounds| && rounds[|made|].gotPeer {
      var f := FetchOf(read, cached, height, rounds[|made|]);
      OneMoreRound(read, cached, start, stop, rounds, made, f);
      if !Ends(rounds[|made|], f) {
        FollowsRoundsFrom(read, cached + DataOf(f.parsed), start, stop, rounds, made + [f]);
      }
    }
  }

  /** The fetches of a run are those of its rounds, one after the other, up to what ends it. */
  lemma RunFollowsRounds(read: Reader, cached: set<string>, start: uint64, stop: uint64, rounds: seq<Round>)
    ensures var (status, made) := FetchRun(read, cached, start, stop, rounds);
            AreOfRounds(read, start, stop, rounds, made) && EndedBy(start, stop, rounds, status, made)
  {
    FollowsRoundsFrom(read, cached, start, stop, rounds, []);
  }

  // ----- what the engine accepted

  /** A send or receive gives up only when cancelled, and then no more streams are opened. */
  ghost predicate Plausible(rounds: seq<Round>) {
    && (forall i, j :: 0 <= i <= j < |rounds| && rounds[i].cancelled ==> rounds[j].cancelled)
    && (forall i, protocol :: 0 <= i < |rounds| && rounds[i].cancelled ==> rounds[i].serve(protocol) == None)
    && (forall i :: 0 <= i < |rounds| && !rounds[i].gotPeer ==> rounds[i].cancelled)
    && (forall i, j :: 0 <= i < j < |rounds| && rounds[i].engine.NoReply? ==> rounds[j].cancelled)
  }

  /** Whether the engine took the header, be its answer heard or not. */
  predicate EngineAccepted(f: Fetched) {
    f.parsed.Full? && f.result != Panic && (f.engine == Accepts || f.engine == NoReply(true))
  }

  /** The fetches whose headers the engine took, among the first n. */
  function Taken(made: seq<Fetched>, n: nat): seq<Fetched>
    requires n <= |made|
    ensures forall k :: 0 <= k < |Taken(made, n)| ==> EngineAccepted(Taken(made, n)[k]) && Taken(made, n)[k] in made
  {
    if n == 0 then []
    else if EngineAccepted(made[n - 1]) then Taken(made, n - 1) + [made[n - 1]]
    else Taken(made, n - 1)
  }

  function AllTaken(made: seq<Fetched>): seq<Fetched> {
    Taken(made, |made|)
  }

  lemma {:induction false} TakenPrefix(made: seq<Fetched>, f: Fetched, n: nat)
    requires n <= |made|
    ensures Taken(made + [f], n) == Taken(made, n)
  {
    if n > 0 {
      TakenPrefix(made, f, n - 1);
    }
  }

  lemma TakenStep(made: seq<Fetched>, f: Fetched)
    ensures AllTaken(made + [f]) == if EngineAccepted(f) then AllTaken(made) + [f] else AllTaken(made)
  {
    TakenPrefix(made, f, |made|);
  }

  /** The k-th was asked for as height start + k, in uint64 arithmetic. */
  predicate Consecutive(start: uint64, taken: seq<Fetched>) {
    forall k :: 0 <= k < |taken| ==> taken[k].height == (start + k) % TWO_64
  }

  function Wanted(start: uint64, stop: uint64): nat {
    if start <= stop then stop - start else 0
  }

  /** From this round on everything is cancelled. */
  ghost predicate CancelledFrom(rounds: seq<Round>, i: nat) {
    forall j, protocol :: i <= j < |rounds| ==> rounds[j].serve(protocol) == None
  }

  /** Every header taken has been passed, but that the current one may have been taken unheard. */
  ghost predicate Advanced(start: uint64, stop: uint64, height: uint64, unheard: bool, taken: seq<Fetched>) {
    && Consecutive(start, taken)
    && (unheard ==> Continues(stop, height) && taken != [])
    && var n := if unheard then |taken| - 1 else |taken|;
       && height == (start + n) % TWO_64
       && (stop > 0 ==> n <= Wanted(start, stop) && (start <= stop ==> height == start + n))
  }

  lemma Advance(start: uint64, stop: uint64, f: Fetched, taken: seq<Fetched>)
    requires Advanced(start, stop, f.height, false, taken) && Continues(stop, f.height)
    ensures Advanced(start, stop, f.height, true, taken + [f])
    ensures Advanced(start, stop, (f.height + 1) % TWO_64, false, taken + [f])
  {
  }

  /** What a run's taken headers satisfy in the end. */
  ghost predicate Contiguous(start: uint64, stop: uint64, status: Status, taken: seq<Fetched>) {
    && Consecutive(start, taken)
    && (stop > 0 ==> |taken| <= Wanted(start, stop))
    && (status == Finished ==> stop > 0 && |taken| == Wanted(start, stop))
  }

  lemma SoFar(start: uint64, stop: uint64, height: uint64, unheard: bool, taken: seq<Fetched>, status: Status)
    requires Advanced(start, stop, height, unheard, taken)
    requires status == Finished ==> !Continues(stop, height)
    ensures Contiguous(start, stop, status, taken)
  {
  }

  /** Once taken unheard, nothing is taken again. */
  lemma FetchAdvances(start: uint64, stop: uint64, f: Fetched, made: seq<Fetched>, unheard: bool)
    requires Advanced(start, stop, f.height, unheard, AllTaken(made)) && Continues(stop, f.height)
    requires unheard ==> !EngineAccepted(f)
    requires f.result == Success ==> EngineAccepted(f)
    ensures Advanced(start, stop, NextHeight(f), unheard || (EngineAccepted(f) && f.result != Success),
                     AllTaken(made + [f]))
  {
    TakenStep(made, f);
    if EngineAccepted(f) {
      Advance(start, stop, f, AllTaken(made));
    }
  }

  lemma {:induction false} ContiguousFrom(
    read: Reader, cached: set<string>, start: uint64, height: uint64, stop: uint64, rounds: seq<Round>, i: nat,
    made: seq<Fetched>, unheard: bool)
    requires read(None) == Malformed && Plausible(rounds) && i <= |rounds|
    requires Advanced(start, stop, height, unheard, AllTaken(made))
    requires unheard ==> CancelledFrom(rounds, i)
    ensures var (status, all) := FetchRunFrom(read, cached, height, stop, rounds, i, made);
            Contiguous(start, stop, status, AllTaken(all))
    decreases |rounds| - i
  {
    if !Continues(stop, height) || i == |rounds| || !rounds[i].gotPeer {
      SoFar(start, stop, height, unheard, AllTaken(made), if Continues(stop, height) then Running else Finished);
    } else {
      var f := FetchOf(read, cached, height, rounds[i]);
      FetchAdvances(start, stop, f, made, unheard);
      var unheard' := unheard || (EngineAccepted(f) && f.result != Success);
      SoFar(start, stop, NextHeight(f), unheard', AllTaken(made + [f]), Running);
      if f.result != Panic && (f.result != ExcludePeer || rounds[i].excludeSent) {
        ContiguousFrom(
          read, cached + DataOf(f.parsed), start, NextHeight(f), stop, rounds, i + 1, made + [f], unheard');
      }
    }
  }

  /**
   The headers that the engine takes are served for consecutive heights from `start` on, whatever was retried or
   excluded in between, and a run that finishes has asked for exactly the range, and each height was taken.
   */
  lemma ContiguousCatchup(read: Reader, cached: set<string>, start: uint64, stop: uint64, rounds: seq<Round>)
    requires read(None) == Malformed && Plausible(rounds)
    ensures var (status, made) := FetchRun(read, cached, start, stop, rounds);
            Contiguous(start, stop, status, AllTaken(made))
  {
    ContiguousFrom(read, cached, start, start, stop, rounds, 0, [], false);
  }

  /** The client does not compare a header's height with the one it asked for. */
  predicate ServedAsAsked(f: Fetched) {
    f.parsed.Full? && f.parsed.ch.header.height == f.height
  }

  /** So the headers taken are those of consecutive heights if and only if each was served as asked. */
  lemma HeadersConsecutiveIff(read: Reader, cached: set<string>, start: uint64, stop: uint64, rounds: seq<Round>)
    requires read(None) == Malformed && Plausible(rounds)
    ensures var taken := AllTaken(FetchRun(read, cached, start, stop, rounds).1);
            (forall k :: 0 <= k < |taken| ==> ServedAsAsked(taken[k])) <==>
            (forall k :: 0 <= k < |taken| ==> taken[k].parsed.ch.header.height == (start + k) % TWO_64)
  {
    ContiguousCatchup(read, cached, start, stop, rounds);
    var taken := AllTaken(FetchRun(read, cached, start, stop, rounds).1);
    assert forall k :: 0 <= k < |taken| ==> taken[k].height == (start + k) % TWO_64;
    assert forall k :: 0 <= k < |taken| ==> EngineAccepted(taken[k]);
  }

  /** And an engine that takes another height's header makes the run finish without the height asked for. */
  lemma OtherHeightFinishes(read: Reader, cached: set<string>, height: uint64, round: Round)
    requires height + 1 < TWO_64 && round.gotPeer && round.engine == Accepts
    requires var block := read(round.serve(ProtocolFor(height)));
             block.Full? && block.ch.header.height != height && DataOf(block) * cached == {}
    ensures var (status, made) := FetchRun(read, cached, height, height + 1, [round]);
            && status == Finished && |AllTaken(made)| == 1
            && AllTaken(made)[0].height == height && AllTaken(made)[0].parsed.ch.header.height != height
  {
    var f := FetchOf(read, cached, height, round);
    assert [] + [f] == [f];
    TakenStep([], f);
    assert f.result == Success && NextHeight(f) == height + 1;
    assert FetchRunFrom(read, cached + DataOf(f.parsed), height + 1, height + 1, [round], 1, [f]) == (Finished, [f]);
  }

  // ----- the panic of a retry

  /** The IDs of all data in the first n fetches. */
  function AllData(made: seq<Fetched>, n: nat): set<string>
    requires n <= |made|
  {
    if n == 0 then {} else AllData(made, n - 1) + DataOf(made[n - 1].parsed)
  }

  lemma {:induction false} AllDataPrefix(made: seq<Fetched>, f: Fetched, n: nat)
    requires n <= |made|
    ensures AllData(made + [f], n) == AllData(made, n)
  {
    if n > 0 {
      AllDataPrefix(made, f, n - 1);
    }
  }

  lemma AllDataStep(made: seq<Fetched>, f: Fetched)
    ensures AllData(made + [f], |made|) == AllData(made, |made|)
    ensures AllData(made + [f], |made| + 1) == AllData(made, |made|) + DataOf(f.parsed)
  {
    AllDataPrefix(made, f, |made|);
  }

  /** Some fetch got data under an ID that was cached, or that came before. */
  ghost predicate Repeats(cached: set<string>, made: seq<Fetched>) {
    exists i :: 0 <= i < |made| && RepeatsAt(cached, made, i)
  }

  predicate RepeatsAt(cached: set<string>, made: seq<Fetched>, i: nat)
    requires i < |made|
  {
    DataOf(made[i].parsed) * (cached + AllData(made, i)) != {}
  }

  lemma RepeatsBefore(cached: set<string>, made: seq<Fetched>, f: Fetched, i: nat)
    requires i < |made|
    ensures RepeatsAt(cached, made + [f], i) <==> RepeatsAt(cached, made, i)
  {
    AllDataPrefix(made, f, i);
    assert (made + [f])[i] == made[i];
  }

  lemma RepeatsLast(cached: set<string>, made: seq<Fetched>, f: Fetched)
    ensures RepeatsAt(cached, made + [f], |made|) <==> DataOf(f.parsed) * (cached + AllData(made, |made|)) != {}
  {
    AllDataPrefix(made, f, |made|);
    assert (made + [f])[|made|] == f;
  }

  lemma RepeatsStep(cached: set<string>, made: seq<Fetched>, f: Fetched)
    requires !Repeats(cached, made)
    ensures Repeats(cached, made + [f]) <==> DataOf(f.parsed) * (cached + AllData(made, |made|)) != {}
  {
    var all := made + [f];
    RepeatsLast(cached, made, f);
    if Repeats(cached, all) {
      var i :| 0 <= i < |all| && RepeatsAt(cached, all, i);
      if i < |made| {
        RepeatsBefore(cached, made, f, i);
        assert false;
      }
      assert i == |made|;
    } else {
      assert !RepeatsAt(cached, all, |made|);
    }
  }

  lemma {:induction false} PanicsIffRepeatsFrom(
    read: Reader, first: set<string>, cached: set<string>, height: uint64, stop: uint64, rounds: seq<Round>, i: nat,
    made: seq<Fetched>)
    requires i <= |rounds| && cached == first + AllData(made, |made|) && !Repeats(first, made)
    ensures var (status, all) := FetchRunFrom(read, cached, height, stop, rounds, i, made);
            status == Panicked <==> Repeats(first, all)
    decreases |rounds| - i
  {
    if Continues(stop, height) && i < |rounds| && rounds[i].gotPeer {
      var f := FetchOf(read, cached, height, rounds[i]);
      RepeatsStep(first, made, f);
      AllDataStep(made, f);
      if f.result != Panic && (f.result != ExcludePeer || rounds[i].excludeSent) {
        PanicsIffRepeatsFrom(
          read, first, cached + DataOf(f.parsed), NextHeight(f), stop, rounds, i + 1, made + [f]);
      }
    }
  }

  /**
   A run of fetches panics if and only if it gets data twice under one ID, or data that was cached already:
   whatever the engine said about it the first time.
   */
  lemma PanicsIffRepeats(read: Reader, cached: set<string>, start: uint64, stop: uint64, rounds: seq<Round>)
    ensures var (status, made) := FetchRun(read, cached, start, stop, rounds);
            status == Panicked <==> Repeats(cached, made)
  {
    PanicsIffRepeatsFrom(read, cached, cached, start, stop, rounds, 0, []);
  }

  /** In particular a block that the engine rejected, fetched again from anyone, panics. */
  lemma RejectedThenRetried(
    read: Reader, cached: set<string>, height: uint64, stop: uint64, first: Round, again: Round, rounds: seq<Round>)
    requires Continues(stop, height) && first.gotPeer && again.gotPeer
    requires first.engine == Rejects && first.excludeSent
    requires var block := read(first.serve(ProtocolFor(height)));
             && block.Full? && block.blockData != [] && block.ch.header.dataID !in cached
             && read(again.serve(ProtocolFor(height))) == block
    ensures FetchRun(read, cached, height, stop, [first, again] + rounds).0 == Panicked
  {
    var all := [first, again] + rounds;
    var f := FetchOf(read, cached, height, first);
    assert all[0] == first && all[1] == again;
    assert f.parsed.ch.header.dataID in DataOf(f.parsed) * (cached + DataOf(f.parsed));
    assert DataOf(f.parsed) * cached == {};
    var g := FetchOf(read, cached + DataOf(f.parsed), height, again);
    assert FetchRunFrom(read, cached + DataOf(f.parsed), height, stop, all, 1, [] + [f]).0 == Panicked;
  }
}
