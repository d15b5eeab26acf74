/**
 The consensus strategy (gserver/internal/gsi/consensusstrategy.go): proposing on entering a round, choosing
 among proposed blocks, and deciding what to precommit.
 */
module Strategy {
  import opened Basics
  import opened BlockData
  import opened DataIds
  import opened Driver
  import opened Store
  import Numerals
  import Cache

  datatype ProposedHeader = ProposedHeader(header: Header, round: uint32, metadata: bytes)

  /** Executing transactions without effect, each on the state the one before left; None when one is refused. */
  datatype App<!S> = App(simulate: Tx -> Option<S>, simulateWithState: (S, Tx) -> Option<S>)

  /** The states after each transaction of a list. */
  ghost predicate Chain<S>(app: App<S>, txs: seq<Tx>, states: seq<S>) {
    && |states| == |txs|
    && (txs != [] ==> app.simulate(txs[0]) == Some(states[0]))
    && forall i :: 0 < i < |txs| ==> app.simulateWithState(states[i - 1], txs[i]) == Some(states[i])
  }

  ghost predicate Executes<S(!new)>(app: App<S>, txs: seq<Tx>) {
    exists states :: Chain(app, txs, states)
  }

  /** The header and its data ID are for this height and round. */
  predicate Addressed(h: uint64, r: uint32, ph: ProposedHeader) {
    && ph.header.height == h && ph.round == r
    && var p := ParseDataID(ph.header.dataID);
       p.Ok? && p.value.height == h && p.value.round == r
  }

  predicate HasTxs(id: string)
    requires ParseDataID(id).Ok?
  {
    ParseDataID(id).value.nTxs != 0
  }

  predicate Timely(times: bytes -> Option<int>, header: Header, now: int) {
    times(header.annotation).Some? && times(header.annotation).value <= now
  }

  /** A block worth voting for, as far as this node can tell: its whole list executes, in order. */
  ghost predicate Acceptable<S(!new)>(
    h: uint64, r: uint32, app: App<S>, times: bytes -> Option<int>, ph: ProposedHeader, view: View, now: int)
  {
    && Addressed(h, r, ph)
    && (HasTxs(ph.header.dataID) ==> view.Ready? && Executes(app, view.txs))
    && Timely(times, ph.header, now)
  }

  /** The least index of an acceptable header from k on, or how many headers there are. */
  ghost function Least<S(!new)>(
    h: uint64, r: uint32, app: App<S>, times: bytes -> Option<int>,
    phs: seq<ProposedHeader>, views: seq<View>, nows: seq<int>, k: nat): (n: nat)
    requires |views| == |phs| && |nows| == |phs| && k <= |phs|
    ensures k <= n <= |phs|
    ensures n < |phs| ==> Acceptable(h, r, app, times, phs[n], views[n], nows[n])
    ensures forall i :: k <= i < n ==> !Acceptable(h, r, app, times, phs[i], views[i], nows[i])
    decreases |phs| - k
  {
    if k == |phs| || Acceptable(h, r, app, times, phs[k], views[k], nows[k]) then k
    else Least(h, r, app, times, phs, views, nows, k + 1)
  }

  /** Data that is needed to judge a header, and not known yet. */
  predicate NeedsRetrieval(h: uint64, r: uint32, ph: ProposedHeader, view: View) {
    Addressed(h, r, ph) && HasTxs(ph.header.dataID) && view == Missing
  }

  /** The data asked for while looking at the first n headers. */
  function Retrievals(h: uint64, r: uint32, phs: seq<ProposedHeader>, views: seq<View>, n: nat): seq<string>
    requires n <= |phs| <= |views|
  {
    if n == 0 then []
    else if NeedsRetrieval(h, r, phs[n - 1], views[n - 1])
    then Retrievals(h, r, phs, views, n - 1) + [phs[n - 1].header.dataID]
    else Retrievals(h, r, phs, views, n - 1)
  }

  /** What a ready entry holds is as many transactions as its ID says: see Agreement. */
  ghost predicate Counted(ph: ProposedHeader, view: View) {
    view.Ready? && ParseDataID(ph.header.dataID).Ok? ==> |view.txs| == ParseDataID(ph.header.dataID).value.nTxs
  }

  /** A header for this height and round with this ID, which names transactions, and that the cache lacked. */
  predicate FirstSeen(h: uint64, r: uint32, ph: ProposedHeader, view: View, id: string) {
    && ph.header.dataID == id && ph.header.height == h && ph.round == r && view == Missing
    && match ParseDataID(id)
       case Ok(p) => p.height == h && p.round == r && p.nTxs != 0
       case Err(_) => false
  }

  lemma NeedsIffFirstSeen(h: uint64, r: uint32, ph: ProposedHeader, view: View)
    ensures NeedsRetrieval(h, r, ph, view) <==> FirstSeen(h, r, ph, view, ph.header.dataID)
  {
  }

  /** Every ID asked for is that of a header first seen, */
  lemma {:induction false} RetrievedIsFirstSeen(
    h: uint64, r: uint32, phs: seq<ProposedHeader>, views: seq<View>, n: nat, id: string) returns (i: nat)
    requires n <= |phs| <= |views| && id in Retrievals(h, r, phs, views, n)
    ensures i < n && FirstSeen(h, r, phs[i], views[i], id)
  {
    NeedsIffFirstSeen(h, r, phs[n - 1], views[n - 1]);
    if NeedsRetrieval(h, r, phs[n - 1], views[n - 1]) && phs[n - 1].header.dataID == id {
      i := n - 1;
    } else {
      i := RetrievedIsFirstSeen(h, r, phs, views, n - 1, id);
    }
  }

  /** and every header first seen has its ID asked for. */
  lemma {:induction false} FirstSeenIsRetrieved(
    h: uint64, r: uint32, phs: seq<ProposedHeader>, views: seq<View>, n: nat, i: nat)
    requires i < n <= |phs| <= |views| && FirstSeen(h, r, phs[i], views[i], phs[i].header.dataID)
    ensures phs[i].header.dataID in Retrievals(h, r, phs, views, n)
  {
    if i == n - 1 {
      NeedsIffFirstSeen(h, r, phs[i], views[i]);
    } else {
      FirstSeenIsRetrieved(h, r, phs, views, n - 1, i);
    }
  }

  datatype Entered =
    | NotProposing
    | NoWayOut // A panic: there is no channel to propose on.
    | AlreadyCached // A panic of the cache.
    | Proposed(dataID: string)

  class ConsensusStrategy {
    var curH: uint64
    var curR: uint32

    constructor ()
      ensures curH == 0 && curR == 0
    {
      curH, curR := 0, 0;
    }

    /** The data of a proposal with transactions is available here from then on. */
    method EnterRound(
      e: Env, cache: Cache.RequestCache, h: uint64, r: uint32, weShouldPropose: bool, canPropose: bool,
      proposedBefore: bool, pendingTxs: seq<Tx>) returns (out: Entered)
      requires pendingTxs != [] ==> Encodable(pendingTxs)
      modifies this, cache
      ensures curH == h && curR == r
      ensures out == NotProposing <==> !weShouldPropose || (!canPropose && proposedBefore)
      ensures out == NoWayOut <==> weShouldPropose && !canPropose && !proposedBefore
      ensures weShouldPropose && canPropose && pendingTxs == [] ==> out == Proposed(DataID(e.blake2b, h, r, 0, []))
      ensures weShouldPropose && canPropose && pendingTxs != [] ==>
                var id := DataID(e.blake2b, h, r, |RawData(pendingTxs)|, pendingTxs);
                if id in old(cache.rs) then out == AlreadyCached
                else
                  && out == Proposed(id) && id in cache.rs && cache.rs == old(cache.rs)[id := cache.rs[id]]
                  && fresh(cache.rs[id])
                  && ViewOf(cache, id) == Ready(pendingTxs, EncodedBlockData(e, pendingTxs))
      ensures !out.Proposed? || pendingTxs == [] ==> cache.rs == old(cache.rs)
    {
      curH, curR := h, r;
      if !weShouldPropose {
        return NotProposing;
      }
      if !canPropose {
        return if proposedBefore then NotProposing else NoWayOut;
      }
      var blockDataID;
      if |pendingTxs| == 0 {
        blockDataID := DataID(e.blake2b, curH, curR, 0, []);
      } else {
        var encoded;
        blockDataID, encoded := Provide(e, curH, curR, pendingTxs);
        var present := cache.Get(blockDataID);
        if present.Some? {
          return AlreadyCached;
        }
        cache.SetImmediatelyAvailable(blockDataID, pendingTxs, encoded);
      }
      out := Proposed(blockDataID);
    }

    /** Whether the whole list executes: the first on its own, the others on the state left so far. */
    static method Simulate<S(!new)>(app: App<S>, txs: seq<Tx>) returns (ok: bool)
      requires txs != []
      ensures ok <==> Executes(app, txs)
    {
      var first := app.simulate(txs[0]);
      if first.None? {
        return false;
      }
      var state := first.value;
      ghost var states := [state];
      for i := 1 to |txs|
        invariant |states| == i && states[i - 1] == state && Chain(app, txs[..i], states)
        invariant forall others :: Chain(app, txs, others) ==> others[..i] == states
      {
        var next := app.simulateWithState(state, txs[i]);
        if next.None? {
          assert forall others :: Chain(app, txs, others) ==> others[..i][i - 1] == state;
          return false;
        }
        state := next.value;
        states := states + [state];
      }
      assert txs[..|txs|] == txs;
      ok := true;
    }

    /** One turn of the loop: whether to choose this header, and whether to ask for its data. */
    method Judge<S(!new)>(app: App<S>, times: bytes -> Option<int>, ph: ProposedHeader, view: View, now: int)
      returns (chosen: bool, retrieve: bool)
      requires Counted(ph, view)
      ensures chosen <==> Acceptable(curH, curR, app, times, ph, view, now)
      ensures retrieve <==> NeedsRetrieval(curH, curR, ph, view)
      ensures var p := ParseDataID(ph.header.dataID);
              var addressed := ph.header.height == curH && ph.round == curR && p.Ok? &&
                               p.value.height == curH && p.value.round == curR;
              && (retrieve <==> addressed && p.value.nTxs != 0 && view == Missing)
              && (chosen <==>
                    && addressed && (p.value.nTxs != 0 ==> view.Ready? && Executes(app, view.txs))
                    && times(ph.header.annotation).Some? && times(ph.header.annotation).value <= now)
    {
      chosen, retrieve := false, false;
      if ph.header.height != curH {
        return;
      }
      if ph.round != curR {
        return;
      }
      var parsed := ParseDataID(ph.header.dataID);
      if parsed.Err? {
        return;
      }
      if parsed.value.height != curH {
        return;
      }
      if parsed.value.round != curR {
        return;
      }
      if parsed.value.nTxs != 0 {
        if view == Missing {
          retrieve := true;
          return;
        }
        if !view.Ready? {
          return;
        }
        var ok := Simulate(app, view.txs);
        if !ok {
          return;
        }
      }
      var bt := times(ph.header.annotation);
      if bt.None? {
        return;
      }
      if bt.value > now {
        return;
      }
      chosen := true;
    }

    /**
     Chooses the least acceptable header, and asks for the data that is missing on the way to it. The views
     are what the cache shows when each header is looked at, whatever happens in between.
     */
    method ConsiderProposedBlocks<S(!new)>(
      app: App<S>, times: bytes -> Option<int>, phs: seq<ProposedHeader>, views: seq<View>, nows: seq<int>)
      returns (choice: Option<string>, retrieved: seq<string>)
      requires |views| == |phs| && |nows| == |phs|
      requires forall i :: 0 <= i < |phs| ==> Counted(phs[i], views[i])
      ensures var least := Least(curH, curR, app, times, phs, views, nows, 0);
              && choice == (if least < |phs| then Some(phs[least].header.hash) else None)
              && retrieved == Retrievals(curH, curR, phs, views, least)
    {
      retrieved := [];
      for i := 0 to |phs|
        invariant Least(curH, curR, app, times, phs, views, nows, 0) ==
                  Least(curH, curR, app, times, phs, views, nows, i)
        invariant retrieved == Retrievals(curH, curR, phs, views, i)
      {
        var chosen, retrieve := Judge(app, times, phs[i], views[i], nows[i]);
        if chosen {
          return Some(phs[i].header.hash), retrieved;
        }
        if retrieve {
          retrieved := retrieved + [phs[i].header.dataID];
        }
      }
      choice := None;
    }
  }

  /** An application that counts its transactions, up to a limit. */
  function Counting(limit: int): App<int> {
    App((tx: Tx) => if 1 <= limit then Some(1) else None,
        (state: int, tx: Tx) => if state + 1 <= limit then Some(state + 1) else None)
  }

  /** The state is handed on from each transaction to the next: exactly so many fit as the limit says. */
  lemma StateIsThreaded(limit: int, txs: seq<Tx>)
    ensures Executes(Counting(limit), txs) <==> txs == [] || |txs| <= limit
  {
    var app, counts := Counting(limit), seq(|txs|, i => i + 1);
    if txs == [] || |txs| <= limit {
      assert Chain(app, txs, counts);
    }
    if Executes(app, txs) && txs != [] {
      var states :| Chain(app, txs, states);
      CountsUp(limit, txs, states, |txs| - 1);
    }
  }

  lemma {:induction false} CountsUp(limit: int, txs: seq<Tx>, states: seq<int>, i: nat)
    requires Chain(Counting(limit), txs, states) && i < |txs|
    ensures states[i] == i + 1 && i + 1 <= limit
  {
    if i > 0 {
      CountsUp(limit, txs, states, i - 1);
      assert Counting(limit).simulateWithState(states[i - 1], txs[i]) == Some(states[i]);
    }
  }

  // ----- what is accepted can be finalized

  /** The driver waits for no data, and misses none. */
  predicate FindsData(times: bytes -> Option<int>, view: View, store: Contents, header: Header) {
    var out := FinalizeData(times, view, store, header).0;
    out != MissingEntry && out != NotReady
  }

  /** At every height and round some header is acceptable that the driver then panics over. */
  lemma AcceptedNotFinalizable<S(!new)>(
    h: uint64, r: uint32, app: App<S>, times: bytes -> Option<int>, ph: ProposedHeader, now: int, store: Contents,
    blake2b: bytes -> Hash)
    requires h != INITIAL_HEIGHT
    requires ph.header.height == h && ph.round == r && Timely(times, ph.header, now)
    requires ph.header.dataID ==
             Numerals.Join([Numerals.FormatUint(h, 10), Numerals.FormatUint(r, 10), "00", "0",
                            Numerals.HexEncode(blake2b([]))])
    ensures Acceptable(h, r, app, times, ph, Missing, now)
    ensures FinalizeData(times, Missing, store, ph.header).0 == MissingEntry
  {
    ZeroTestsDisagree([Numerals.FormatUint(h, 10), Numerals.FormatUint(r, 10), "00", "0",
                       Numerals.HexEncode(blake2b([]))], h, r, blake2b);
  }

  // ----- precommits

  datatype VoteSummary = VoteSummary(
    availablePower: nat, prevoteBlockPower: map<string, nat>, mostVotedPrevoteHash: string)

  /** The least power above two thirds. */
  function ByzantineMajority(n: nat): (m: nat)
    ensures 3 * m > 2 * n && 3 * (m - 1) <= 2 * n
  {
    2 * n / 3 + 1
  }

  /** The empty hash is a precommit for nil. */
  function DecidePrecommit(vs: VoteSummary): string {
    var most := vs.mostVotedPrevoteHash;
    var pow := if most in vs.prevoteBlockPower then vs.prevoteBlockPower[most] else 0;
    if pow >= ByzantineMajority(vs.availablePower) then most else ""
  }

  function Total(powers: seq<nat>): nat {
    if powers == [] then 0 else powers[0] + Total(powers[1..])
  }

  /** The power behind a hash in some collection of votes, one set of hashes for each validator. */
  function PowerFor(powers: seq<nat>, votes: seq<set<string>>, hash: string): nat
    requires |votes| == |powers|
  {
    if powers == [] then 0
    else (if hash in votes[0] then powers[0] else 0) + PowerFor(powers[1..], votes[1..], hash)
  }

  /** The power of those who voted more than once. */
  function DoublePower(powers: seq<nat>, cast: seq<set<string>>): nat
    requires |cast| == |powers|
  {
    if powers == [] then 0
    else (if |cast[0]| > 1 then powers[0] else 0) + DoublePower(powers[1..], cast[1..])
  }

  predicate Seen(votes: seq<set<string>>, cast: seq<set<string>>) {
    |votes| == |cast| && forall i :: 0 <= i < |votes| ==> votes[i] <= cast[i]
  }

  /** A summary of some of the votes that were cast. */
  ghost predicate Summarizes(vs: VoteSummary, powers: seq<nat>, votes: seq<set<string>>)
    requires |votes| == |powers|
  {
    && vs.availablePower == Total(powers)
    && forall hash :: hash in vs.prevoteBlockPower ==> vs.prevoteBlockPower[hash] == PowerFor(powers, votes, hash)
  }

  lemma {:induction false} Overlap(
    powers: seq<nat>, cast: seq<set<string>>, votes1: seq<set<string>>, votes2: seq<set<string>>, a: string, b: string)
    requires |cast| == |powers| && Seen(votes1, cast) && Seen(votes2, cast) && a != b
    ensures PowerFor(powers, votes1, a) + PowerFor(powers, votes2, b) <= Total(powers) + DoublePower(powers, cast)
  {
    if powers != [] {
      Overlap(powers[1..], cast[1..], votes1[1..], votes2[1..], a, b);
      if a in votes1[0] && b in votes2[0] {
        assert {a, b} <= cast[0];
        TwoMembers(cast[0], a, b);
      }
    }
  }

  lemma TwoMembers(s: set<string>, a: string, b: string)
    requires a in s && b in s && a != b
    ensures |s| > 1
  {
    assert {a, b} <= s && |{a, b}| == 2;
    var rest := s - {a, b};
    assert s == rest + {a, b};
  }

  /** Two nodes that precommit different blocks expose double voters holding at least 2m - n of the power n. */
  lemma DisagreementExposes(
    powers: seq<nat>, cast: seq<set<string>>,
    votes1: seq<set<string>>, vs1: VoteSummary, votes2: seq<set<string>>, vs2: VoteSummary)
    requires |cast| == |powers| && Seen(votes1, cast) && Seen(votes2, cast)
    requires Summarizes(vs1, powers, votes1) && Summarizes(vs2, powers, votes2)
    requires DecidePrecommit(vs1) != "" && DecidePrecommit(vs2) != ""
    requires DecidePrecommit(vs1) != DecidePrecommit(vs2)
    ensures DoublePower(powers, cast) >= 2 * ByzantineMajority(Total(powers)) - Total(powers)
  {
    Overlap(powers, cast, votes1, votes2, DecidePrecommit(vs1), DecidePrecommit(vs2));
  }

  /** So while double voters hold less than a third, all that is precommitted but nil is one block. */
  lemma QuorumIntersection(
    powers: seq<nat>, cast: seq<set<string>>,
    votes1: seq<set<string>>, vs1: VoteSummary, votes2: seq<set<string>>, vs2: VoteSummary)
    requires |cast| == |powers| && Seen(votes1, cast) && Seen(votes2, cast)
    requires Summarizes(vs1, powers, votes1) && Summarizes(vs2, powers, votes2)
    requires 3 * DoublePower(powers, cast) < Total(powers)
    ensures DecidePrecommit(vs1) == "" || DecidePrecommit(vs2) == "" || DecidePrecommit(vs1) == DecidePrecommit(vs2)
  {
    if DecidePrecommit(vs1) != "" && DecidePrecommit(vs2) != "" && DecidePrecommit(vs1) != DecidePrecommit(vs2) {
      DisagreementExposes(powers, cast, votes1, vs1, votes2, vs2);
    }
  }

  lemma ThreeVoters(powers: seq<nat>, votes: seq<set<string>>, hash: string)
    requires |powers| == 3 && |votes| == 3
    ensures Total(powers) == powers[0] + powers[1] + powers[2]
    ensures PowerFor(powers, votes, hash) ==
            (if hash in votes[0] then powers[0] else 0) + (if hash in votes[1] then powers[1] else 0) +
            (if hash in votes[2] then powers[2] else 0)
    ensures DoublePower(powers, votes) ==
            (if |votes[0]| > 1 then powers[0] else 0) + (if |votes[1]| > 1 then powers[1] else 0) +
            (if |votes[2]| > 1 then powers[2] else 0)
  {
    var powers1, votes1 := powers[1..], votes[1..];
    assert powers1[1..] == [powers[2]] && votes1[1..] == [votes[2]];
    assert PowerFor([powers[2]], [votes[2]], hash) == if hash in votes[2] then powers[2] else 0;
    assert DoublePower([powers[2]], [votes[2]]) == if |votes[2]| > 1 then powers[2] else 0;
    assert Total([powers[2]]) == powers[2];
  }

  /** The bound is exact: one double voter with that much can split two equals. */
  lemma DoubleVoterSplits(d: nat, x: nat, a: string, b: string, vs1: VoteSummary, vs2: VoteSummary)
    requires a != b && a != "" && b != ""
    requires d >= 2 * ByzantineMajority(d + 2 * x) - (d + 2 * x)
    requires vs1 == VoteSummary(d + 2 * x, map[a := d + x], a) && vs2 == VoteSummary(d + 2 * x, map[b := d + x], b)
    ensures var powers, cast := [d, x, x], [{a, b}, {a}, {b}];
            && Summarizes(vs1, powers, [{a}, {a}, {}]) && Seen([{a}, {a}, {}], cast)
            && Summarizes(vs2, powers, [{b}, {}, {b}]) && Seen([{b}, {}, {b}], cast)
            && DoublePower(powers, cast) == d
    ensures DecidePrecommit(vs1) == a && DecidePrecommit(vs2) == b
  {
    ThreeVoters([d, x, x], [{a}, {a}, {}], a);
    ThreeVoters([d, x, x], [{b}, {}, {b}], b);
    ThreeVoters([d, x, x], [{a, b}, {a}, {b}], a);
    TwoMembers({a, b}, a, b);
    assert |{a}| == 1 && |{b}| == 1;
  }
}
