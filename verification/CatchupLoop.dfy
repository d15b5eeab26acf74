/**
 The catchup client's main loop and fetch worker as a protocol
 (gserver/internal/gp2papi/catchupclient.go).

 An action is one step of the main loop, of the worker, or of a caller. A blocked channel operation is an
 action that is not enabled, and a select is a choice among enabled actions.
 */
module CatchupLoop {
  import opened Basics

  type Peer = string
  type Chan = nat // Response channels, numbered as they are made.

  const QUEUE_SIZE := 8

  /** One resumed fetch: its context's generation, the next height, and the height to stop before (0 for none). */
  datatype Fetch = Fetch(gen: nat, height: uint64, stop: uint64)

  /** The main loop's variables; pausing cancels the current generation of contexts and starts the next. */
  datatype Loop = Loop(peers: set<Peer>, excludedPeers: set<Peer>, blocked: Option<Chan>, gen: nat)

  datatype Main = Selecting | SendingState(f: Fetch)

  datatype Worker =
    | Waiting
    | Asking(f: Fetch, resp: Chan)
    | Awaiting(f: Fetch, resp: Chan)
    | Fetching(f: Fetch, p: Peer)
    | Excluding(f: Fetch, p: Peer)

  /** Whether the watched peer's first exclusion is still to be queued, is queued, or has been processed. */
  datatype Phase = NotQueued | Queued | Processed

  datatype State = State(
    main: Main,
    loop: Loop,
    worker: Worker,
    stateRequests: seq<Fetch>,
    addRequests: seq<Peer>,
    removeRequests: seq<Peer>,
    excludeRequests: seq<Peer>,
    sent: seq<seq<Peer>>, // All that was ever sent on each response channel.
    watch: Watch)

  /** Bookkeeping about one peer; nothing in the protocol depends on it. */
  datatype Watch = Watch(peer: Peer, phase: Phase, failures: nat, abandoned: nat)

  // ----- the main loop's reactions

  /** A peer for the asking channel, if there is one; the caller's choice among them is arbitrary. */
  function NextPeer(l: Loop, resp: Chan, choice: Peer): (Loop, Option<(Chan, Peer)>) {
    if l.peers == {} then (l.(blocked := Some(resp)), None) else (l, Some((resp, choice)))
  }

  function AddPeer(l: Loop, p: Peer): (Loop, Option<(Chan, Peer)>) {
    if p in l.excludedPeers then (l, None)
    else
      match l.blocked
      case Some(resp) => (l.(peers := l.peers + {p}, blocked := None), Some((resp, p)))
      case None => (l.(peers := l.peers + {p}), None)
  }

  function RemovePeer(l: Loop, p: Peer): Loop {
    l.(peers := l.peers - {p})
  }

  function ExcludePeer(l: Loop, p: Peer): Loop {
    l.(peers := l.peers - {p}, excludedPeers := l.excludedPeers + {p})
  }

  function Pause(l: Loop): Loop {
    l.(gen := l.gen + 1)
  }

  /** The variables of mainLoop; each method is one case of its select. */
  class MainLoop {
    var peers: set<Peer>
    var excludedPeers: set<Peer>
    var requestBlockedOnMissingPeer: Option<Chan>
    var fetchGen: nat

    constructor ()
      ensures Value() == Loop({}, {}, None, 0)
    {
      peers, excludedPeers, requestBlockedOnMissingPeer, fetchGen := {}, {}, None, 0;
    }

    function Value(): Loop
      reads this
    {
      Loop(peers, excludedPeers, requestBlockedOnMissingPeer, fetchGen)
    }

    method OnNextPeerRequest(resp: Chan) returns (sent: Option<(Chan, Peer)>)
      requires requestBlockedOnMissingPeer == None
      modifies this
      ensures sent.Some? ==> sent.value.1 in old(peers)
      ensures exists choice :: (Value(), sent) == NextPeer(old(Value()), resp, choice)
    {
      ghost var before := Value();
      if |peers| == 0 {
        requestBlockedOnMissingPeer := Some(resp);
        assert (Value(), None) == NextPeer(before, resp, "");
        return None;
      }
      var p :| p in peers; // Map iteration order is arbitrary.
      assert (Value(), Some((resp, p))) == NextPeer(before, resp, p);
      return Some((resp, p));
    }

    method OnAddPeer(p: Peer) returns (sent: Option<(Chan, Peer)>)
      modifies this
      ensures (Value(), sent) == AddPeer(old(Value()), p)
    {
      if p in excludedPeers {
        return None;
      }
      peers := peers + {p};
      sent := None;
      if requestBlockedOnMissingPeer.Some? {
        sent := Some((requestBlockedOnMissingPeer.value, p));
        requestBlockedOnMissingPeer := None;
      }
    }

    method OnRemovePeer(p: Peer)
      modifies this
      ensures Value() == RemovePeer(old(Value()), p)
    {
      peers := peers - {p};
    }

    method OnExcludePeer(p: Peer)
      modifies this
      ensures Value() == ExcludePeer(old(Value()), p)
    {
      peers := peers - {p};
      excludedPeers := excludedPeers + {p};
    }

    method OnPause()
      modifies this
      ensures Value() == Pause(old(Value()))
    {
      fetchGen := fetchGen + 1;
    }
  }

  // ----- the steps

  datatype Action =
    | Resume(start: uint64, stop: uint64)
    | PauseFetches
    | SendState
    | TakeNextPeerRequest(choice: Peer)
    | QueueAdd(p: Peer)
    | QueueRemove(p: Peer)
    | TakeAdd
    | TakeRemove
    | TakeExclude
    | WorkerStarts
    | WorkerStops // Its context was cancelled.
    | WorkerReceives
    | FetchSucceeds
    | FetchIsRetried
    | FetchExcludes
    | QueueExclude

  function Initial(watched: Peer): State {
    State(Selecting, Loop({}, {}, None, 0), Waiting, [], [], [], [], [], Watch(watched, NotQueued, 0, 0))
  }

  /** Whether the worker's context has been cancelled by a pause. */
  predicate Cancelled(s: State) {
    !s.worker.Waiting? && s.worker.f.gen < s.loop.gen
  }

  predicate Enabled(s: State, a: Action) {
    match a
    case Resume(_, _) => s.main.Selecting?
    case PauseFetches => s.main.Selecting?
    case SendState => s.main.SendingState? && |s.stateRequests| < 1
    case TakeNextPeerRequest(choice) =>
      && s.main.Selecting? && s.loop.blocked == None && s.worker.Asking? && s.worker.resp < |s.sent|
      && (s.loop.peers != {} ==> choice in s.loop.peers)
    case QueueAdd(_) => |s.addRequests| < QUEUE_SIZE
    case QueueRemove(_) => |s.removeRequests| < QUEUE_SIZE
    case TakeAdd => s.main.Selecting? && s.addRequests != []
    case TakeRemove => s.main.Selecting? && s.removeRequests != []
    case TakeExclude => s.main.Selecting? && s.excludeRequests != []
    case WorkerStarts => s.worker.Waiting? && s.stateRequests != []
    case WorkerStops => Cancelled(s) && (s.worker.Asking? || s.worker.Awaiting? || s.worker.Excluding?)
    case WorkerReceives => s.worker.Awaiting? && s.worker.resp < |s.sent| && s.sent[s.worker.resp] != []
    case FetchSucceeds => s.worker.Fetching?
    case FetchIsRetried => s.worker.Fetching?
    case FetchExcludes => s.worker.Fetching?
    case QueueExclude => s.worker.Excluding? && |s.excludeRequests| < QUEUE_SIZE
  }

  function Apply(s: State, a: Action): State
    requires Enabled(s, a)
  {
    match a
    case Resume(start, stop) => s.(main := SendingState(Fetch(s.loop.gen, start, stop)))
    case PauseFetches => s.(loop := Pause(s.loop))
    case SendState => s.(main := Selecting, stateRequests := s.stateRequests + [s.main.f])
    case TakeNextPeerRequest(choice) =>
      var (l, out) := NextPeer(s.loop, s.worker.resp, choice);
      Deliver(s.(loop := l, worker := Awaiting(s.worker.f, s.worker.resp)), out)
    case QueueAdd(p) => s.(addRequests := s.addRequests + [p])
    case QueueRemove(p) => s.(removeRequests := s.removeRequests + [p])
    case TakeAdd =>
      var (l, out) := AddPeer(s.loop, s.addRequests[0]);
      Deliver(s.(loop := l, addRequests := s.addRequests[1..]), out)
    case TakeRemove => s.(loop := RemovePeer(s.loop, s.removeRequests[0]), removeRequests := s.removeRequests[1..])
    case TakeExclude =>
      var p := s.excludeRequests[0];
      s.(loop := ExcludePeer(s.loop, p), excludeRequests := s.excludeRequests[1..],
         watch := if p == s.watch.peer then s.watch.(phase := Processed) else s.watch)
    case WorkerStarts => Next(s.(stateRequests := s.stateRequests[1..]), s.stateRequests[0])
    case WorkerStops =>
      s.(worker := Waiting,
         watch := if s.worker.Excluding? && s.worker.p == s.watch.peer && s.watch.phase == Queued
                  then s.watch.(abandoned := s.watch.abandoned + 1) else s.watch)
    case WorkerReceives => s.(worker := Fetching(s.worker.f, s.sent[s.worker.resp][0]))
    case FetchSucceeds => Next(s, s.worker.f.(height := (s.worker.f.height + 1) % TWO_64))
    case FetchIsRetried => Next(s, s.worker.f)
    case FetchExcludes =>
      s.(worker := Excluding(s.worker.f, s.worker.p),
         watch := if s.worker.p == s.watch.peer && s.watch.phase == Queued
                  then s.watch.(failures := s.watch.failures + 1) else s.watch)
    case QueueExclude =>
      Next(s.(excludeRequests := s.excludeRequests + [s.worker.p],
              watch := if s.worker.p == s.watch.peer && s.watch.phase == NotQueued
                       then Watch(s.watch.peer, Queued, 0, 0) else s.watch), s.worker.f)
  }

  /** The worker asks for a peer for the next height, on a new channel, or is done. */
  function Next(s: State, f: Fetch): State {
    if f.stop == 0 || f.height < f.stop then s.(worker := Asking(f, |s.sent|), sent := s.sent + [[]])
    else s.(worker := Waiting)
  }

  function Deliver(s: State, out: Option<(Chan, Peer)>): State {
    match out
    case Some((resp, p)) => if resp < |s.sent| then s.(sent := s.sent[resp := s.sent[resp] + [p]]) else s
    case None => s
  }

  ghost predicate Run(s: State, actions: seq<Action>, t: State)
    decreases |actions|
  {
    if actions == [] then s == t
    else Enabled(s, actions[0]) && Run(Apply(s, actions[0]), actions[1..], t)
  }

  ghost predicate Reachable(watched: Peer, s: State) {
    exists actions :: Run(Initial(watched), actions, s)
  }

  // ----- what every step keeps

  ghost predicate PeersInv(l: Loop) {
    l.peers !! l.excludedPeers && (l.blocked.Some? ==> l.peers == {})
  }

  /** A channel is sent on at most once, and the one still owed a peer has not been sent on. */
  ghost predicate ChannelsInv(s: State) {
    && (forall r :: 0 <= r < |s.sent| ==> |s.sent[r]| <= 1)
    && (s.loop.blocked.Some? ==> s.loop.blocked.value < |s.sent| && s.sent[s.loop.blocked.value] == [])
    && (s.worker.Asking? || s.worker.Awaiting? ==> s.worker.resp < |s.sent|)
    && (s.worker.Asking? ==> s.sent[s.worker.resp] == [] && s.loop.blocked != Some(s.worker.resp))
    && (s.worker.Awaiting? ==> (s.sent[s.worker.resp] == [] <==> s.loop.blocked == Some(s.worker.resp)))
  }

  predicate QueuesInv(s: State) {
    && |s.stateRequests| <= 1 && |s.addRequests| <= QUEUE_SIZE && |s.removeRequests| <= QUEUE_SIZE
    && |s.excludeRequests| <= QUEUE_SIZE
    && (!s.worker.Waiting? ==> s.worker.f.gen <= s.loop.gen)
    && (forall i :: 0 <= i < |s.stateRequests| ==> s.stateRequests[i].gen <= s.loop.gen)
    && (s.main.SendingState? ==> s.main.f.gen <= s.loop.gen)
  }

  function Count(ps: seq<Peer>, p: Peer): (n: nat)
    ensures n <= |ps|
    ensures n > 0 <==> p in ps
  {
    if ps == [] then 0 else (if ps[0] == p then 1 else 0) + Count(ps[1..], p)
  }

  /** Each failure on the watched peer is queued, about to be queued, or was abandoned. */
  predicate WatchInv(s: State) {
    var w := s.watch;
    && (w.phase == NotQueued ==> w.peer !in s.excludeRequests)
    && (w.phase == Queued ==>
          w.failures + 1 ==
          Count(s.excludeRequests, w.peer) + w.abandoned +
          if s.worker.Excluding? && s.worker.p == w.peer then 1 else 0)
    && (w.phase == Processed ==> w.peer in s.loop.excludedPeers)
  }

  ghost predicate Inv(s: State) {
    PeersInv(s.loop) && ChannelsInv(s) && QueuesInv(s)
  }

  lemma StepKeepsPeers(s: State, a: Action)
    requires Inv(s) && Enabled(s, a)
    ensures PeersInv(Apply(s, a).loop)
    ensures s.loop.excludedPeers <= Apply(s, a).loop.excludedPeers
  {
  }

  lemma StepKeepsChannels(s: State, a: Action)
    requires Inv(s) && Enabled(s, a)
    ensures ChannelsInv(Apply(s, a))
  {
  }

  lemma StepKeepsQueues(s: State, a: Action)
    requires Inv(s) && Enabled(s, a)
    ensures QueuesInv(Apply(s, a))
  {
  }

  lemma {:induction false} CountAppend(ps: seq<Peer>, q: Peer, p: Peer)
    ensures Count(ps + [q], p) == Count(ps, p) + if q == p then 1 else 0
  {
    if ps == [] {
      assert ps + [q] == [q];
    } else {
      CountAppend(ps[1..], q, p);
      assert (ps + [q])[1..] == ps[1..] + [q];
    }
  }

  lemma QueueExcludeKeepsWatch(s: State)
    requires WatchInv(s) && Enabled(s, QueueExclude)
    ensures WatchInv(Apply(s, QueueExclude))
  {
    CountAppend(s.excludeRequests, s.worker.p, s.watch.peer);
  }

  lemma TakeExcludeKeepsWatch(s: State)
    requires WatchInv(s) && Enabled(s, TakeExclude)
    ensures WatchInv(Apply(s, TakeExclude))
  {
  }

  lemma StepKeepsWatch(s: State, a: Action)
    requires Inv(s) && WatchInv(s) && Enabled(s, a)
    ensures WatchInv(Apply(s, a)) && Apply(s, a).watch.peer == s.watch.peer
  {
    if a.QueueExclude? {
      QueueExcludeKeepsWatch(s);
    } else if a.TakeExclude? {
      TakeExcludeKeepsWatch(s);
    }
  }

  lemma {:induction false} RunKeepsInv(s: State, actions: seq<Action>, t: State)
    requires Inv(s) && WatchInv(s) && Run(s, actions, t)
    ensures Inv(t) && WatchInv(t) && t.watch.peer == s.watch.peer
    ensures s.loop.excludedPeers <= t.loop.excludedPeers
    decreases |actions|
  {
    if actions != [] {
      var a := actions[0];
      StepKeepsPeers(s, a);
      StepKeepsChannels(s, a);
      StepKeepsQueues(s, a);
      StepKeepsWatch(s, a);
      RunKeepsInv(Apply(s, a), actions[1..], t);
    }
  }

  // ----- main results

  /**
   In every reachable state no excluded peer is a candidate, a blocked request means that there are no
   candidates, and no response channel has been sent on twice; where the main loop is about to send on one,
   its buffer of one is empty, so that it never blocks there.
   */
  lemma LoopInvariants(watched: Peer, s: State)
    requires Reachable(watched, s)
    ensures s.loop.peers !! s.loop.excludedPeers
    ensures s.loop.blocked.Some? ==> s.loop.peers == {}
    ensures forall r :: 0 <= r < |s.sent| ==> |s.sent[r]| <= 1
    ensures forall choice :: Enabled(s, TakeNextPeerRequest(choice)) ==> s.sent[s.worker.resp] == []
    ensures s.loop.blocked.Some? ==> s.loop.blocked.value < |s.sent| && s.sent[s.loop.blocked.value] == []
  {
    var actions :| Run(Initial(watched), actions, s);
    RunKeepsInv(Initial(watched), actions, s);
  }

  /** A step sends an excluded peer on no channel. */
  lemma StepSendsNoExcluded(s: State, a: Action, p: Peer)
    requires Inv(s) && p in s.loop.excludedPeers && Enabled(s, a)
    ensures |s.sent| <= |Apply(s, a).sent|
    ensures forall r :: 0 <= r < |Apply(s, a).sent| && p in Apply(s, a).sent[r] ==> r < |s.sent| && p in s.sent[r]
  {
  }

  /** From the moment an exclusion is processed the peer is never handed out again, whatever is added or removed. */
  lemma {:induction false} NeverHandedOutAgain(s: State, actions: seq<Action>, t: State, p: Peer)
    requires Inv(s) && p in s.loop.excludedPeers && Run(s, actions, t)
    ensures p in t.loop.excludedPeers && p !in t.loop.peers
    ensures |s.sent| <= |t.sent|
    ensures forall r :: 0 <= r < |t.sent| && p in t.sent[r] ==> r < |s.sent| && p in s.sent[r]
    decreases |actions|
  {
    if actions != [] {
      var a := actions[0];
      StepKeepsPeers(s, a);
      StepKeepsChannels(s, a);
      StepKeepsQueues(s, a);
      StepSendsNoExcluded(s, a, p);
      NeverHandedOutAgain(Apply(s, a), actions[1..], t, p);
    }
  }

  /** A peer that is no candidate, nor about to be, and that no step adds, stays away. */
  lemma StepKeepsAway(s: State, a: Action, p: Peer)
    requires Enabled(s, a) && p !in s.loop.peers && p !in s.addRequests && a != QueueAdd(p)
    ensures p !in Apply(s, a).loop.peers && p !in Apply(s, a).addRequests
    ensures |s.sent| <= |Apply(s, a).sent|
    ensures forall r :: 0 <= r < |Apply(s, a).sent| && p in Apply(s, a).sent[r] ==> r < |s.sent| && p in s.sent[r]
  {
  }

  lemma {:induction false} AwayUntilAdded(s: State, actions: seq<Action>, t: State, p: Peer)
    requires Run(s, actions, t) && p !in s.loop.peers && p !in s.addRequests && QueueAdd(p) !in actions
    ensures p !in t.loop.peers && |s.sent| <= |t.sent|
    ensures forall r :: 0 <= r < |t.sent| && p in t.sent[r] ==> r < |s.sent| && p in s.sent[r]
    decreases |actions|
  {
    if actions != [] {
      assert actions[0] in actions;
      assert forall b :: b in actions[1..] ==> b in actions;
      StepKeepsAway(s, actions[0], p);
      AwayUntilAdded(Apply(s, actions[0]), actions[1..], t, p);
    }
  }

  /** Once a removal is processed, the peer is handed out again only after it has been added again. */
  lemma RemovedStaysAway(s: State, actions: seq<Action>, t: State, p: Peer)
    requires Enabled(s, TakeRemove) && s.removeRequests[0] == p && p !in s.addRequests
    requires Run(Apply(s, TakeRemove), actions, t) && QueueAdd(p) !in actions
    ensures p !in t.loop.peers
    ensures forall r :: 0 <= r < |t.sent| && p in t.sent[r] ==> r < |s.sent| && p in s.sent[r]
  {
    AwayUntilAdded(Apply(s, TakeRemove), actions, t, p);
  }

  /** And no peer is handed out that was never added. */
  lemma OnlyAddedAreSent(watched: Peer, actions: seq<Action>, t: State, p: Peer)
    requires Run(Initial(watched), actions, t) && QueueAdd(p) !in actions
    ensures forall r :: 0 <= r < |t.sent| ==> p !in t.sent[r]
  {
    AwayUntilAdded(Initial(watched), actions, t, p);
  }

  predicate WasSent(s: State, p: Peer) {
    exists r :: 0 <= r < |s.sent| && p in s.sent[r]
  }

  /** Whoever is fetched from, about to be excluded, or excluded was handed out. */
  ghost predicate AllWereSent(s: State) {
    && (s.worker.Fetching? || s.worker.Excluding? ==> WasSent(s, s.worker.p))
    && (forall p :: p in s.excludeRequests ==> WasSent(s, p))
    && (forall p :: p in s.loop.excludedPeers ==> WasSent(s, p))
  }

  lemma SentStays(s: State, a: Action, p: Peer)
    requires Enabled(s, a) && WasSent(s, p)
    ensures WasSent(Apply(s, a), p)
  {
    var r :| 0 <= r < |s.sent| && p in s.sent[r];
    assert p in Apply(s, a).sent[r];
  }

  lemma StepKeepsAllWereSent(s: State, a: Action)
    requires Inv(s) && Enabled(s, a) && AllWereSent(s)
    ensures AllWereSent(Apply(s, a))
  {
    var t := Apply(s, a);
    if a.WorkerReceives? {
      assert t.worker.p in s.sent[s.worker.resp];
      assert WasSent(s, t.worker.p);
    }
    if t.worker.Fetching? || t.worker.Excluding? {
      SentStays(s, a, t.worker.p);
    }
    forall p | p in t.excludeRequests || p in t.loop.excludedPeers ensures WasSent(t, p) {
      SentStays(s, a, p);
    }
  }

  lemma {:induction false} RunKeepsAllWereSent(s: State, actions: seq<Action>, t: State)
    requires Inv(s) && WatchInv(s) && AllWereSent(s) && Run(s, actions, t)
    ensures AllWereSent(t)
    decreases |actions|
  {
    if actions != [] {
      StepKeepsAllWereSent(s, actions[0]);
      RunKeepsInv(s, [actions[0]], Apply(s, actions[0]));
      RunKeepsAllWereSent(Apply(s, actions[0]), actions[1..], t);
    }
  }

  /** So only peers that were handed out are ever excluded. */
  lemma OnlySentAreExcluded(watched: Peer, s: State)
    requires Reachable(watched, s)
    ensures forall p :: p in s.loop.excludedPeers ==> WasSent(s, p)
  {
    var actions :| Run(Initial(watched), actions, s);
    RunKeepsAllWereSent(Initial(watched), actions, s);
  }

  function Successes(actions: seq<Action>): nat {
    if actions == [] then 0 else (if actions[0].FetchSucceeds? then 1 else 0) + Successes(actions[1..])
  }

  /** While the worker is at one fetch, its height goes up by one for each success and by nothing else. */
  lemma {:induction false} HeightsInTurn(s: State, actions: seq<Action>, t: State)
    requires Run(s, actions, t) && !s.worker.Waiting? && !t.worker.Waiting? && WorkerStarts !in actions
    ensures t.worker.f == s.worker.f.(height := (s.worker.f.height + Successes(actions)) % TWO_64)
    decreases |actions|
  {
    if actions != [] {
      assert actions[0] in actions;
      assert forall b :: b in actions[1..] ==> b in actions;
      var s' := Apply(s, actions[0]);
      if s'.worker.Waiting? {
        WaitingStays(s', actions[1..], t);
      } else {
        HeightsInTurn(s', actions[1..], t);
        StepHeight(s, actions[0]);
        OneMore(s.worker.f.height, Successes(actions[1..]));
      }
    }
  }

  lemma StepHeight(s: State, a: Action)
    requires Enabled(s, a) && !s.worker.Waiting? && !Apply(s, a).worker.Waiting? && a != WorkerStarts
    ensures Apply(s, a).worker.f ==
            if a.FetchSucceeds? then s.worker.f.(height := (s.worker.f.height + 1) % TWO_64) else s.worker.f
  {
  }

  lemma OneMore(height: uint64, k: nat)
    ensures ((height + 1) % TWO_64 + k) % TWO_64 == (height + (1 + k)) % TWO_64
  {
  }

  lemma {:induction false} WaitingStays(s: State, actions: seq<Action>, t: State)
    requires Run(s, actions, t) && s.worker.Waiting? && WorkerStarts !in actions
    ensures t.worker.Waiting?
    decreases |actions|
  {
    if actions != [] {
      assert actions[0] in actions;
      assert forall b :: b in actions[1..] ==> b in actions;
      WaitingStays(Apply(s, actions[0]), actions[1..], t);
    }
  }

  /**
   Between the first queued exclusion of a peer and its processing at most eight more fetches from it fail,
   and one more for each exclusion that a pause keeps from being queued.
   */
  lemma BoundedRetries(s: State)
    requires Reachable(s.watch.peer, s)
    ensures s.watch.phase == Queued ==> s.watch.failures <= 8 + s.watch.abandoned
    ensures s.watch.phase == Processed ==> s.watch.peer in s.loop.excludedPeers
  {
    var actions :| Run(Initial(s.watch.peer), actions, s);
    RunKeepsInv(Initial(s.watch.peer), actions, s);
  }

  /** The resumes not yet finished: running, buffered, or being sent. */
  function Unfinished(s: State): nat {
    (if s.worker.Waiting? then 0 else 1) + |s.stateRequests| + (if s.main.SendingState? then 1 else 0)
  }

  /** The main loop waits to send a fetch state while the worker waits for a peer that only the main loop can give. */
  predicate BlockedOnEachOther(s: State) {
    && s.main.SendingState? && |s.stateRequests| >= 1
    && !Cancelled(s)
    && (s.worker.Asking? || (s.worker.Awaiting? && s.worker.resp < |s.sent| && s.sent[s.worker.resp] == []))
  }

  /** With at most two unfinished resumes, a main loop that is sending a fetch state gets on, or the worker does. */
  lemma ResumeProgress(watched: Peer, s: State)
    requires Reachable(watched, s)
    ensures BlockedOnEachOther(s) ==> Unfinished(s) == 3
    ensures Unfinished(s) <= 2 && s.main.SendingState? ==> Enabled(s, SendState) || Enabled(s, WorkerStarts)
  {
    var actions :| Run(Initial(watched), actions, s);
    RunKeepsInv(Initial(watched), actions, s);
  }

  /** Blocked on each other once, they stay so for ever. */
  lemma {:induction false} BlockedForEver(s: State, actions: seq<Action>, t: State)
    requires BlockedOnEachOther(s) && Run(s, actions, t)
    ensures BlockedOnEachOther(t) && t.main == s.main && t.worker == s.worker && t.loop == s.loop
    decreases |actions|
  {
    if actions != [] {
      BlockedForEver(Apply(s, actions[0]), actions[1..], t);
    }
  }

  // ----- the bounds are exact

  lemma {:induction false} RunAppend(s: State, actions: seq<Action>, t: State, a: Action)
    requires Run(s, actions, t) && Enabled(t, a)
    ensures Run(s, actions + [a], Apply(t, a))
    decreases |actions|
  {
    if actions == [] {
      assert [] + [a] == [a] && [a][1..] == [];
    } else {
      RunAppend(Apply(s, actions[0]), actions[1..], t, a);
      assert (actions + [a])[1..] == actions[1..] + [a];
    }
  }

  /** One more step of a run. */
  lemma Extend(p: Peer, s: State, a: Action) returns (t: State)
    requires Reachable(p, s) && Enabled(s, a)
    ensures t == Apply(s, a) && Reachable(p, t)
  {
    t := Apply(s, a);
    var actions :| Run(Initial(p), actions, s);
    RunAppend(Initial(p), actions, s, a);
  }

  lemma InitialReachable(p: Peer)
    ensures Reachable(p, Initial(p))
  {
    assert Run(Initial(p), [], Initial(p));
  }

  // ----- when the two block each other

  /** What the driver hears about how far this node lags behind (driver.go, handleLagStateUpdate). */
  datatype LagState =
    | Behind(committingHeight: uint64, needHeight: uint64) // Initializing, assumed behind, or known missing.
    | UpToDate

  function LagAction(ls: LagState): Action {
    match ls
    case Behind(committing, need) => Resume((committing + 1) % TWO_64, need)
    case UpToDate => PauseFetches
  }

  /** Told that it is behind, an idle client starts after the height being committed, or has nothing to do. */
  lemma FirstHeightAfterLag(s: State, committing: uint64, need: uint64)
    requires s.main.Selecting? && s.stateRequests == [] && s.worker.Waiting? && committing + 1 < TWO_64
    ensures var a := LagAction(Behind(committing, need));
            && Enabled(s, a) && Enabled(Apply(s, a), SendState)
            && Enabled(Apply(Apply(s, a), SendState), WorkerStarts)
            && var t := Apply(Apply(Apply(s, a), SendState), WorkerStarts);
               if need == 0 || committing + 1 < need
               then t.worker.Asking? && t.worker.f.height == committing + 1 && t.worker.f.stop == need && !Cancelled(t)
               else t.worker.Waiting?
  {
    var s1 := Apply(s, LagAction(Behind(committing, need)));
    var s2 := Apply(s1, SendState);
    assert s2.stateRequests == [Fetch(s.loop.gen, committing + 1, need)];
  }

  /** Told that it is up to date, it cancels what it is doing. */
  lemma UpToDateCancels(s: State)
    requires s.main.Selecting? && !s.worker.Waiting? && s.worker.f.gen <= s.loop.gen
    ensures Enabled(s, LagAction(UpToDate)) && Cancelled(Apply(s, LagAction(UpToDate)))
  {
  }

  /** The driver's requests among the actions of a run, in order. */
  function Requested(actions: seq<Action>): seq<Action> {
    if actions == [] then []
    else if actions[0].Resume? || actions[0].PauseFetches? then [actions[0]] + Requested(actions[1..])
    else Requested(actions[1..])
  }

  function LagActions(updates: seq<LagState>): seq<Action> {
    seq(|updates|, i requires 0 <= i < |updates| => LagAction(updates[i]))
  }

  /** Some schedule, taking in these updates or the first of them, ends with the two blocked on each other. */
  ghost predicate CanBlock(p: Peer, updates: seq<LagState>) {
    exists actions, s ::
      Run(Initial(p), actions, s) && Requested(actions) <= LagActions(updates) && BlockedOnEachOther(s)
  }

  /** There is something to fetch. */
  predicate Nonempty(start: uint64, stop: uint64) {
    stop == 0 || start < stop
  }

  predicate NonemptyFetch(f: Fetch) {
    Nonempty(f.height, f.stop)
  }

  predicate NonemptyResume(a: Action) {
    a.Resume? && Nonempty(a.start, a.stop)
  }

  /** Resumes to the end without a pause, the first with something to fetch. */
  predicate TailFrom(requests: seq<Action>, i: nat) {
    i < |requests| && NonemptyResume(requests[i]) && forall j :: i <= j < |requests| ==> requests[j].Resume?
  }

  /** There is such a tail of at least k requests. */
  ghost predicate Tail(requests: seq<Action>, k: nat) {
    exists i: nat :: TailFrom(requests, i) && |requests| - i >= k
  }

  lemma TailAppend(requests: seq<Action>, k: nat, a: Action)
    requires Tail(requests, k) && a.Resume?
    ensures Tail(requests + [a], k + 1)
  {
    var i: nat :| TailFrom(requests, i) && |requests| - i >= k;
    assert TailFrom(requests + [a], i);
  }

  lemma TailStarts(requests: seq<Action>, a: Action)
    requires NonemptyResume(a)
    ensures Tail(requests + [a], 1)
  {
    assert TailFrom(requests + [a], |requests|);
  }

  /** Generations are in order from the worker over the queue to the main loop. */
  predicate GenerationsInOrder(s: State) {
    && |s.stateRequests| <= 1
    && (s.main.SendingState? ==> s.main.f.gen == s.loop.gen)
    && (s.stateRequests != [] ==> s.stateRequests[0].gen <= s.loop.gen)
    && (!s.worker.Waiting? ==> s.worker.f.gen <= s.loop.gen)
    && (!s.worker.Waiting? && s.stateRequests != [] ==> s.worker.f.gen <= s.stateRequests[0].gen)
  }

  function AtMain(s: State): nat {
    if s.main.SendingState? then 1 else 0
  }

  /** A fetch of the current generation with something to do heads a tail as long as the line behind it. */
  ghost predicate Lined(s: State, requests: seq<Action>) {
    && (s.main.SendingState? && NonemptyFetch(s.main.f) ==> Tail(requests, 1))
    && (s.stateRequests != [] && s.stateRequests[0].gen == s.loop.gen && NonemptyFetch(s.stateRequests[0]) ==>
          Tail(requests, 1 + AtMain(s)))
    && (!s.worker.Waiting? && s.worker.f.gen == s.loop.gen ==> Tail(requests, 1 + |s.stateRequests| + AtMain(s)))
  }

  lemma StepKeepsLined(s: State, a: Action, requests: seq<Action>)
    requires GenerationsInOrder(s) && Lined(s, requests) && Enabled(s, a)
    ensures GenerationsInOrder(Apply(s, a))
    ensures Lined(Apply(s, a), requests + Requested([a]))
  {
    assert [a][1..] == [];
    if a.Resume? {
      if s.stateRequests != [] && Tail(requests, 1) {
        TailAppend(requests, 1, a);
      }
      if Tail(requests, 1 + |s.stateRequests|) {
        TailAppend(requests, 1 + |s.stateRequests|, a);
      }
      if NonemptyResume(a) {
        TailStarts(requests, a);
      }
      assert requests + Requested([a]) == requests + [a];
    } else if !a.PauseFetches? {
      assert requests + Requested([a]) == requests;
    }
  }

  lemma {:induction false} RunKeepsLined(s: State, actions: seq<Action>, t: State, requests: seq<Action>)
    requires GenerationsInOrder(s) && Lined(s, requests) && Run(s, actions, t)
    ensures GenerationsInOrder(t) && Lined(t, requests + Requested(actions))
    decreases |actions|
  {
    if actions == [] {
      assert requests + Requested(actions) == requests;
    } else {
      StepKeepsLined(s, actions[0], requests);
      RunKeepsLined(Apply(s, actions[0]), actions[1..], t, requests + Requested([actions[0]]));
      assert [actions[0]][1..] == [];
      assert requests + Requested([actions[0]]) + Requested(actions[1..]) == requests + Requested(actions);
    }
  }

  /** Three updates in a row say that the node is behind, the first of them with something to fetch. */
  predicate ThreeBehindAt(updates: seq<LagState>, i: nat) {
    && i + 3 <= |updates| && updates[i].Behind? && updates[i + 1].Behind? && updates[i + 2].Behind?
    && NonemptyResume(LagAction(updates[i]))
  }

  ghost predicate ThreeBehind(updates: seq<LagState>) {
    exists i: nat :: ThreeBehindAt(updates, i)
  }

  /** Three resumes in a row, the first of them with something to fetch. */
  predicate ThreeResumesAt(requests: seq<Action>, i: nat) {
    i + 3 <= |requests| && NonemptyResume(requests[i]) && requests[i + 1].Resume? && requests[i + 2].Resume?
  }

  lemma BlockedHasThree(p: Peer, actions: seq<Action>, s: State) returns (i: nat)
    requires Run(Initial(p), actions, s) && BlockedOnEachOther(s)
    ensures ThreeResumesAt(Requested(actions), i)
  {
    var requests := Requested(actions);
    RunKeepsLined(Initial(p), actions, s, []);
    assert [] + requests == requests;
    i :| TailFrom(requests, i) && |requests| - i >= 3;
  }

  /** Blocking takes three such updates. */
  lemma BlockedNeedsThree(p: Peer, updates: seq<LagState>)
    requires CanBlock(p, updates)
    ensures ThreeBehind(updates)
  {
    var actions, s :|
      Run(Initial(p), actions, s) && Requested(actions) <= LagActions(updates) && BlockedOnEachOther(s);
    var i := BlockedHasThree(p, actions, s);
    SameThree(Requested(actions), updates, i);
  }

  lemma SameThree(requests: seq<Action>, updates: seq<LagState>, i: nat)
    requires requests <= LagActions(updates) && ThreeResumesAt(requests, i)
    ensures ThreeBehind(updates)
  {
    assert forall j :: 0 <= j < |requests| ==> requests[j] == LagActions(updates)[j] == LagAction(updates[j]);
    assert ThreeBehindAt(updates, i);
  }

  /** The main loop is free and knows no peer, and the worker has nothing, or waits, or waits with more queued. */
  predicate Clean(s: State, busy: nat) {
    && s.main.Selecting? && s.loop.peers == {} && s.loop.blocked == None
    && (busy == 0 ==> s.worker.Waiting? && s.stateRequests == [])
    && (busy > 0 ==> s.worker.Asking? && s.worker.f.gen == s.loop.gen && |s.stateRequests| == busy - 1)
    && (busy == 2 ==> s.stateRequests[0].gen <= s.loop.gen)
  }

  /** How many updates behind in a row would block the two now. */
  predicate WouldBlock(updates: seq<LagState>, busy: nat) {
    busy <= 2 && 3 - busy <= |updates| && forall j :: 0 <= j < 3 - busy ==> updates[j].Behind?
  }

  ghost predicate ReachableBy(p: Peer, requests: seq<Action>, s: State) {
    exists actions :: Run(Initial(p), actions, s) && Requested(actions) == requests
  }

  lemma {:induction false} RequestedAppend(actions: seq<Action>, a: Action)
    ensures Requested(actions + [a]) == Requested(actions) + Requested([a])
  {
    if actions == [] {
      assert [] + [a] == [a];
      assert [] + Requested([a]) == Requested([a]);
    } else {
      RequestedAppend(actions[1..], a);
      assert (actions + [a])[0] == actions[0] && (actions + [a])[1..] == actions[1..] + [a];
      Associative([actions[0]], Requested(actions[1..]), Requested([a]));
    }
  }

  lemma Associative(a: seq<Action>, b: seq<Action>, c: seq<Action>)
    ensures (a + b) + c == a + (b + c)
  {
  }

  /** One more step, which the driver asks for or not. */
  lemma Go(p: Peer, requests: seq<Action>, s: State, a: Action) returns (t: State)
    requires ReachableBy(p, requests, s) && Enabled(s, a)
    ensures t == Apply(s, a)
    ensures ReachableBy(p, if a.Resume? || a.PauseFetches? then requests + [a] else requests, t)
  {
    t := Apply(s, a);
    var actions :| Run(Initial(p), actions, s) && Requested(actions) == requests;
    RunAppend(Initial(p), actions, s, a);
    RequestedAppend(actions, a);
    assert [a][1..] == [] && requests + [] == requests;
    assert Run(Initial(p), actions + [a], t);
  }

  /** How many resumes of this generation are unfinished after an update, if that does not block. */
  function BusyAfter(u: LagState, busy: nat): nat {
    if u.UpToDate? then 0
    else if busy > 0 then busy + 1
    else if NonemptyResume(LagAction(u)) then 1
    else 0
  }

  /** After an update either the two are blocked, or a schedule comes to rest. */
  lemma Settle(p: Peer, requests: seq<Action>, s: State, u: LagState, busy: nat) returns (t: State)
    requires ReachableBy(p, requests, s) && busy <= 2 && Clean(s, busy)
    ensures ReachableBy(p, requests + [LagAction(u)], t)
    ensures if BusyAfter(u, busy) == 3 then BlockedOnEachOther(t) else Clean(t, BusyAfter(u, busy))
  {
    var requests' := requests + [LagAction(u)];
    t := Go(p, requests, s, LagAction(u));
    if u.Behind? {
      if busy < 2 {
        t := Go(p, requests', t, SendState);
      }
      if busy == 0 {
        t := Go(p, requests', t, WorkerStarts);
      }
    } else {
      if busy > 0 {
        t := Go(p, requests', t, WorkerStops);
      }
      if busy == 2 {
        t := Go(p, requests', t, WorkerStarts);
        if t.worker.Asking? {
          t := Go(p, requests', t, WorkerStops);
        }
      }
    }
  }

  lemma {:induction false} ScheduleBlocks(
    p: Peer, requests: seq<Action>, s: State, updates: seq<LagState>, busy: nat)
    returns (requests': seq<Action>, t: State)
    requires ReachableBy(p, requests, s) && busy <= 2 && Clean(s, busy)
    requires ThreeBehind(updates) || (busy > 0 && WouldBlock(updates, busy))
    ensures ReachableBy(p, requests', t) && BlockedOnEachOther(t)
    ensures requests' <= requests + LagActions(updates)
    decreases |updates|
  {
    var u, rest := updates[0], updates[1..];
    var first := requests + [LagAction(u)];
    assert first + LagActions(rest) == requests + LagActions(updates);
    var s1 := Settle(p, requests, s, u, busy);
    if BusyAfter(u, busy) == 3 {
      return first, s1;
    }
    if !(BusyAfter(u, busy) > 0 && WouldBlock(rest, BusyAfter(u, busy))) {
      LaterThree(updates, busy);
    }
    requests', t := ScheduleBlocks(p, first, s1, rest, BusyAfter(u, busy));
  }

  /** An update that does not block leaves the three to come, or leads on to blocking. */
  lemma LaterThree(updates: seq<LagState>, busy: nat)
    requires ThreeBehind(updates) || (busy > 0 && WouldBlock(updates, busy))
    requires busy <= 2 && BusyAfter(updates[0], busy) < 3
    requires !(BusyAfter(updates[0], busy) > 0 && WouldBlock(updates[1..], BusyAfter(updates[0], busy)))
    ensures ThreeBehind(updates[1..])
  {
    assert !(busy > 0 && WouldBlock(updates, busy));
    var i: nat :| ThreeBehindAt(updates, i);
    assert i > 0;
    assert ThreeBehindAt(updates[1..], i - 1);
  }

  /**
   Some schedule blocks the two for ever if and only if three updates in a row say that the node is behind, the
   first of them with something to fetch: what comes before or after, and any other traffic, makes no difference.
   */
  lemma CanBlockIffThreeBehind(p: Peer, updates: seq<LagState>)
    ensures CanBlock(p, updates) <==> ThreeBehind(updates)
  {
    if CanBlock(p, updates) {
      BlockedNeedsThree(p, updates);
    }
    if ThreeBehind(updates) {
      assert Run(Initial(p), [], Initial(p)) && Requested([]) == [];
      var requests, s := ScheduleBlocks(p, [], Initial(p), updates, 0);
      assert [] + LagActions(updates) == LagActions(updates);
      var actions :| Run(Initial(p), actions, s) && Requested(actions) == requests;
    }
  }

  /** Three updates in a row saying that the node is behind, with no peer known yet, block the two for ever. */
  lemma BlockedReachable(p: Peer, ls1: LagState, ls2: LagState, ls3: LagState) returns (s: State)
    requires ls1.Behind? && ls2.Behind? && ls3.Behind? && NonemptyResume(LagAction(ls1))
    ensures Reachable(p, s) && BlockedOnEachOther(s)
  {
    var updates := [ls1, ls2, ls3];
    assert ThreeBehindAt(updates, 0);
    CanBlockIffThreeBehind(p, updates);
    var actions, t :|
      Run(Initial(p), actions, t) && Requested(actions) <= LagActions(updates) && BlockedOnEachOther(t);
    s := t;
  }

  /** Without three such resumes in a row the two never block each other, whatever else happens. */
  lemma PausesPreventBlocking(p: Peer, actions: seq<Action>, s: State)
    requires Run(Initial(p), actions, s)
    requires forall i: nat :: !ThreeResumesAt(Requested(actions), i)
    ensures !BlockedOnEachOther(s)
  {
    if BlockedOnEachOther(s) {
      var i := BlockedHasThree(p, actions, s);
    }
  }

  /** The watched peer is the only candidate, and a fetch from it has just failed once more. */
  predicate Failing(s: State, p: Peer, queued: nat, failures: nat, abandoned: nat) {
    && s.main.Selecting? && s.loop == Loop({p}, {}, None, s.loop.gen)
    && s.worker.Excluding? && s.worker.p == p && s.worker.f.gen == s.loop.gen && s.worker.f.stop == 0
    && s.stateRequests == [] && |s.excludeRequests| == queued
    && s.watch == Watch(p, if queued == 0 then NotQueued else Queued, failures, abandoned)
  }

  /** The worker gets the only candidate again, and fails again. */
  lemma FailOnceMore(p: Peer, s: State) returns (t: State)
    requires Reachable(p, s) && s.main.Selecting? && s.loop == Loop({p}, {}, None, s.loop.gen)
    requires s.worker.Asking? && s.worker.resp < |s.sent| && s.sent[s.worker.resp] == []
    requires s.watch.peer == p
    ensures Reachable(p, t)
    ensures t == s.(worker := Excluding(s.worker.f, p), sent := s.sent[s.worker.resp := [p]],
                    watch := if s.watch.phase == Queued then s.watch.(failures := s.watch.failures + 1) else s.watch)
  {
    assert s.sent[s.worker.resp] + [p] == [p];
    t := Extend(p, s, TakeNextPeerRequest(p));
    t := Extend(p, t, WorkerReceives);
    t := Extend(p, t, FetchExcludes);
  }

  lemma FirstFailure(p: Peer, start: uint64) returns (s: State)
    ensures Reachable(p, s) && Failing(s, p, 0, 0, 0)
  {
    InitialReachable(p);
    s := Extend(p, Initial(p), QueueAdd(p));
    s := Extend(p, s, TakeAdd);
    s := Extend(p, s, Resume(start, 0));
    s := Extend(p, s, SendState);
    s := Extend(p, s, WorkerStarts);
    s := FailOnceMore(p, s);
  }

  lemma {:induction false} QueuedFailures(p: Peer, start: uint64, k: nat) returns (s: State)
    requires k <= QUEUE_SIZE
    ensures Reachable(p, s) && Failing(s, p, k, k, 0)
  {
    if k == 0 {
      s := FirstFailure(p, start);
    } else {
      s := QueuedFailures(p, start, k - 1);
      s := Extend(p, s, QueueExclude);
      s := FailOnceMore(p, s);
    }
  }

  /**
   Eight failures are possible without any pause, and each pause that interrupts the queueing of an
   exclusion allows one more: there is no bound over runs with pauses.
   */
  lemma {:induction false} RetriesReachable(p: Peer, start: uint64, m: nat) returns (s: State)
    ensures Reachable(p, s) && s.watch == Watch(p, Queued, QUEUE_SIZE + m, m)
    ensures Failing(s, p, QUEUE_SIZE, QUEUE_SIZE + m, m)
  {
    if m == 0 {
      s := QueuedFailures(p, start, QUEUE_SIZE);
    } else {
      s := RetriesReachable(p, start, m - 1);
      s := Extend(p, s, PauseFetches);
      s := Extend(p, s, WorkerStops);
      s := Extend(p, s, Resume(start, 0));
      s := Extend(p, s, SendState);
      s := Extend(p, s, WorkerStarts);
      s := FailOnceMore(p, s);
    }
  }
}
