/**
 The handshake between the consensus strategy and the retriever over the request cache
 (gserver/internal/gsi/consensusstrategy.go, pbdretriever.go): the strategy looks an ID up, asks for it, and
 waits until the request has been accepted, while the coordinator makes the cache entry.
 */
module Handshake {
  import opened Basics
  import R = Retriever

  datatype Moment = Moment(height: uint64, round: uint32)

  predicate Before(a: Moment, b: Moment) {
    a.height < b.height || (a.height == b.height && a.round < b.round)
  }

  /** Requests are numbered as the coordinator receives them; the strategy waits for its own to be accepted. */
  datatype Strategy = Ready | Requesting(req: R.Request) | AwaitingAccept(ticket: nat)

  datatype State = State(r: R.State, strategy: Strategy, now: Option<Moment>, received: nat, accepted: nat)

  datatype Action =
    | EnterRound(m: Moment, proposal: Option<R.Fetched>)
    | Consider(req: R.Request) // Looks the ID up in the cache.
    | Ask(req: R.Request)
    | SeesAccepted
    | RetrieverSteps(a: R.Action)
    | GivesUp // Its context was cancelled.
    | CatchupDeposits(data: R.Fetched)

  /** The moment an ID names, where it can be parsed at all. */
  type Naming = R.Id -> Option<Moment>

  function Initial(n: nat): State {
    State(R.Initial(n), Ready, None, 0, 0)
  }

  function DepositOf(data: R.Fetched): R.Action {
    R.Deposit(data.id, data.txs, data.raw)
  }

  ghost predicate Enabled(c: R.Codec, at: Naming, s: State, a: Action) {
    && s.r.fault == R.NoFault
    && match a
       case EnterRound(m, proposal) =>
         s.strategy.Ready? &&
         (proposal.Some? ==> at(proposal.value.id) == Some(m) && R.Enabled(c, s.r, DepositOf(proposal.value)))
       case Consider(req) => s.strategy.Ready? && s.now.Some? && at(req.id) == s.now
       case Ask(req) => s.strategy == Requesting(req) && R.Enabled(c, s.r, R.Receive(req))
       case SeesAccepted => s.strategy.AwaitingAccept? && s.accepted >= s.strategy.ticket
       case RetrieverSteps(b) => R.Internal(b) && R.Enabled(c, s.r, b)
       case GivesUp => !s.strategy.Ready?
       case CatchupDeposits(data) => R.Enabled(c, s.r, DepositOf(data))
  }

  ghost function Apply(c: R.Codec, at: Naming, s: State, a: Action): State
    requires Enabled(c, at, s, a)
  {
    match a
    case EnterRound(m, proposal) =>
      s.(now := Some(m), r := if proposal.Some? then R.Apply(c, s.r, DepositOf(proposal.value)) else s.r)
    case Consider(req) => if req.id in s.r.cache then s else s.(strategy := Requesting(req))
    case Ask(req) =>
      s.(r := R.Apply(c, s.r, R.Receive(req)), received := s.received + 1,
         strategy := AwaitingAccept(s.received + 1))
    case SeesAccepted => s.(strategy := Ready)
    case RetrieverSteps(b) => s.(r := R.Apply(c, s.r, b), accepted := s.accepted + if b.HandOut? then 1 else 0)
    case GivesUp => s.(strategy := Ready)
    case CatchupDeposits(data) => s.(r := R.Apply(c, s.r, DepositOf(data)))
  }

  /** No context is cancelled, rounds are entered in order, and nobody else fills the cache. */
  predicate Orderly(s: State, a: Action) {
    && !a.GivesUp? && !a.CatchupDeposits?
    && (a.EnterRound? ==> s.now.None? || Before(s.now.value, a.m))
  }

  ghost predicate Run(c: R.Codec, at: Naming, s: State, actions: seq<Action>, orderly: bool, t: State)
    decreases |actions|
  {
    if actions == [] then s == t
    else
      && Enabled(c, at, s, actions[0]) && (orderly ==> Orderly(s, actions[0]))
      && Run(c, at, Apply(c, at, s, actions[0]), actions[1..], orderly, t)
  }

  /** IDs that can be parsed are those that the decoder accepts, and data decodes under no others. */
  ghost predicate Named(c: R.Codec, at: Naming) {
    && (forall id :: c.valid(id) <==> at(id).Some?)
    && (forall id, raw, txs :: c.decodes(id, raw, txs) ==> c.valid(id))
  }

  // ----- the retriever's share of a run

  function ShareOf(a: Action): seq<R.Action> {
    match a
    case EnterRound(_, Some(proposal)) => [DepositOf(proposal)]
    case Ask(req) => [R.Receive(req)]
    case RetrieverSteps(b) => [b]
    case CatchupDeposits(data) => [DepositOf(data)]
    case _ => []
  }

  function Share(actions: seq<Action>): seq<R.Action> {
    if actions == [] then [] else ShareOf(actions[0]) + Share(actions[1..])
  }

  /** The IDs proposed, asked for and caught up on, in order. */
  function Ids(actions: seq<Action>): seq<R.Id> {
    R.NewIds(Share(actions))
  }

  lemma ShareStep(actions: seq<Action>)
    requires actions != []
    ensures ShareOf(actions[0]) == [] ==> Share(actions) == Share(actions[1..])
    ensures ShareOf(actions[0]) != [] ==>
              Share(actions) != [] && Share(actions)[0] == ShareOf(actions[0])[0] &&
              Share(actions)[1..] == Share(actions[1..])
  {
  }

  lemma {:induction false} ShareRuns(c: R.Codec, at: Naming, s: State, actions: seq<Action>, orderly: bool, t: State)
    requires Run(c, at, s, actions, orderly, t)
    ensures R.Run(c, s.r, Share(actions), t.r)
    decreases |actions|
  {
    if actions != [] {
      ShareStep(actions);
      ShareRuns(c, at, Apply(c, at, s, actions[0]), actions[1..], orderly, t);
    }
  }

  /** All of these IDs can be parsed. */
  lemma {:induction false} IdsAreValid(c: R.Codec, at: Naming, s: State, actions: seq<Action>, orderly: bool, t: State)
    requires Named(c, at) && Run(c, at, s, actions, orderly, t)
    requires s.strategy.Requesting? ==> c.valid(s.strategy.req.id)
    ensures forall id :: id in Ids(actions) ==> c.valid(id)
    decreases |actions|
  {
    if actions != [] {
      ShareStep(actions);
      IdsAreValid(c, at, Apply(c, at, s, actions[0]), actions[1..], orderly, t);
    }
  }

  /**
   Whatever the interleaving: once no received request waits for its insertion, some insertion has hit an entry
   if and only if an ID was proposed, asked for or caught up on twice.
   */
  lemma PanicsIffRepeated(c: R.Codec, at: Naming, n: nat, actions: seq<Action>, s: State)
    requires Named(c, at) && Run(c, at, Initial(n), actions, false, s)
    requires s.r.coordinator.Received? ==> s.r.fault != R.NoFault
    ensures s.r.fault == R.NoFault <==> R.Distinct(Ids(actions))
    ensures s.r.fault == R.NoFault || s.r.fault == R.AlreadyInFlight
  {
    ShareRuns(c, at, Initial(n), actions, false, s);
    IdsAreValid(c, at, Initial(n), actions, false, s);
    R.PanicsIffRepeated(c, n, Share(actions), s.r);
  }

  // ----- orderly runs

  /** Nothing in the cache is from a moment to come. */
  ghost predicate NotAhead(at: Naming, s: State) {
    forall id :: id in s.r.cache ==> s.now.Some? && at(id).Some? && !Before(s.now.value, at(id).value)
  }

  /** The coordinator is taking in a request exactly while the last one received is not accepted. */
  predicate TakingIn(s: State) {
    s.r.coordinator.Received? || s.r.coordinator.HandingOut?
  }

  ghost predicate InStep(at: Naming, s: State) {
    && s.received == s.accepted + (if TakingIn(s) then 1 else 0)
    && (TakingIn(s) ==> s.strategy.AwaitingAccept?)
    && (s.strategy.AwaitingAccept? ==> s.strategy.ticket == s.received)
    && (s.strategy.Requesting? ==> s.strategy.req.id !in s.r.cache && at(s.strategy.req.id) == s.now)
    && (s.r.coordinator.Received? ==> s.r.coordinator.req.id !in s.r.cache && at(s.r.coordinator.req.id) == s.now)
    && (s.now.None? ==> s.strategy.Ready?)
  }

  /** A retriever's step brings in at most the ID it has received. */
  lemma CacheAfter(c: R.Codec, r: R.State, b: R.Action)
    requires R.Enabled(c, r, b) && R.Internal(b)
    ensures R.Apply(c, r, b).cache.Keys ==
            r.cache.Keys + if b.Insert? then {r.coordinator.req.id} else {}
    ensures var k, k' := r.coordinator, R.Apply(c, r, b).coordinator;
            && (k'.Received? ==> k == k')
            && (b.Insert? && R.Apply(c, r, b).fault == R.NoFault ==> k.Received? && k'.HandingOut?)
            && (b.HandOut? ==> k.HandingOut? && k'.Selecting?)
            && (!b.Insert? && !b.HandOut? ==> (k.Received? <==> k'.Received?) && (k.HandingOut? <==> k'.HandingOut?))
  {
  }

  /** Every orderly step keeps strategy, coordinator and cache in step, and inserts only what is not there. */
  lemma StepKeepsInStep(c: R.Codec, at: Naming, s: State, a: Action)
    requires Named(c, at) && NotAhead(at, s) && InStep(at, s) && Enabled(c, at, s, a) && Orderly(s, a)
    ensures NotAhead(at, Apply(c, at, s, a)) && InStep(at, Apply(c, at, s, a))
    ensures a.EnterRound? && a.proposal.Some? ==>
              a.proposal.value.id !in s.r.cache && !s.r.coordinator.Received?
    ensures a.Ask? ==> a.req.id !in s.r.cache && !s.r.coordinator.Received?
  {
    if a.RetrieverSteps? {
      CacheAfter(c, s.r, a.a);
    }
  }

  /** So an orderly run brings in each ID once. */
  lemma {:induction false} OrderlyIdsAreNew(c: R.Codec, at: Naming, s: State, actions: seq<Action>, t: State)
    requires Named(c, at) && NotAhead(at, s) && InStep(at, s) && Run(c, at, s, actions, true, t)
    ensures R.Distinct(Ids(actions))
    ensures forall id :: id in Ids(actions) ==>
              id !in s.r.cache && (s.r.coordinator.Received? ==> id != s.r.coordinator.req.id)
    decreases |actions|
  {
    if actions != [] {
      var a := actions[0];
      var s' := Apply(c, at, s, a);
      StepKeepsInStep(c, at, s, a);
      OrderlyIdsAreNew(c, at, s', actions[1..], t);
      ShareStep(actions);
      if ShareOf(a) != [] {
        R.NewIdsPrepend(Share(actions));
      }
      if a.RetrieverSteps? {
        CacheAfter(c, s.r, a.a);
      }
    }
  }

  /** In every orderly interleaving neither the strategy nor the coordinator ever inserts an ID that is there. */
  lemma NeverInFlightTwice(c: R.Codec, at: Naming, n: nat, actions: seq<Action>, s: State)
    requires Named(c, at) && Run(c, at, Initial(n), actions, true, s)
    ensures s.r.fault == R.NoFault
  {
    OrderlyIdsAreNew(c, at, Initial(n), actions, s);
    ForgetOrder(c, at, Initial(n), actions, s);
    if s.r.fault != R.NoFault {
      PanicsIffRepeated(c, at, n, actions, s);
    }
  }

  lemma {:induction false} ForgetOrder(c: R.Codec, at: Naming, s: State, actions: seq<Action>, t: State)
    requires Run(c, at, s, actions, true, t)
    ensures Run(c, at, s, actions, false, t)
    decreases |actions|
  {
    if actions != [] {
      ForgetOrder(c, at, Apply(c, at, s, actions[0]), actions[1..], t);
    }
  }

  // ----- each condition is needed

  ghost predicate Reachable(c: R.Codec, at: Naming, n: nat, s: State) {
    exists actions :: Run(c, at, Initial(n), actions, false, s)
  }

  lemma {:induction false} RunAppend(c: R.Codec, at: Naming, s: State, actions: seq<Action>, t: State, a: Action)
    requires Run(c, at, s, actions, false, t) && Enabled(c, at, t, a)
    ensures Run(c, at, s, actions + [a], false, Apply(c, at, t, a))
    decreases |actions|
  {
    if actions == [] {
      assert [] + [a] == [a] && [a][1..] == [];
    } else {
      RunAppend(c, at, Apply(c, at, s, actions[0]), actions[1..], t, a);
      assert (actions + [a])[1..] == actions[1..] + [a];
    }
  }

  lemma Extend(c: R.Codec, at: Naming, n: nat, s: State, a: Action) returns (t: State)
    requires Reachable(c, at, n, s) && Enabled(c, at, s, a)
    ensures t == Apply(c, at, s, a) && Reachable(c, at, n, t)
  {
    var actions :| Run(c, at, Initial(n), actions, false, s);
    RunAppend(c, at, Initial(n), actions, s, a);
    t := Apply(c, at, s, a);
  }

  lemma Start(c: R.Codec, at: Naming, n: nat) returns (s: State)
    ensures s == Initial(n) && Reachable(c, at, n, s)
  {
    s := Initial(n);
    assert Run(c, at, s, [], false, s);
  }

  /** Giving up between the request and its insertion, and asking again, ends in the cache's panic. */
  lemma CancellationBreaksIt(c: R.Codec, at: Naming, n: nat, req: R.Request) returns (s: State)
    requires n > 0 && at(req.id).Some?
    ensures Reachable(c, at, n, s) && s.r.fault == R.AlreadyInFlight
  {
    s := Start(c, at, n);
    s := Extend(c, at, n, s, EnterRound(at(req.id).value, None));
    s := Extend(c, at, n, s, Consider(req));
    s := Extend(c, at, n, s, Ask(req));
    s := Extend(c, at, n, s, GivesUp);
    s := Extend(c, at, n, s, Consider(req));
    s := Extend(c, at, n, s, RetrieverSteps(R.Insert));
    s := Extend(c, at, n, s, RetrieverSteps(R.HandOut));
    s := Extend(c, at, n, s, Ask(req));
    s := Extend(c, at, n, s, RetrieverSteps(R.Insert));
  }

  /** So does catching up on the data while the strategy is about to ask for it. */
  lemma CatchupBreaksIt(c: R.Codec, at: Naming, n: nat, addrs: seq<R.Addr>, data: R.Fetched) returns (s: State)
    requires at(data.id).Some? && R.Good(c, data)
    ensures Reachable(c, at, n, s) && s.r.fault == R.AlreadyInFlight
  {
    s := Start(c, at, n);
    s := Extend(c, at, n, s, EnterRound(at(data.id).value, None));
    s := Extend(c, at, n, s, Consider(R.Request(data.id, addrs)));
    s := Extend(c, at, n, s, CatchupDeposits(data));
    s := Extend(c, at, n, s, Ask(R.Request(data.id, addrs)));
    s := Extend(c, at, n, s, RetrieverSteps(R.Insert));
  }

  /** And so does entering a round twice with the same transactions to propose. */
  lemma ReentryBreaksIt(c: R.Codec, at: Naming, n: nat, data: R.Fetched) returns (s: State)
    requires at(data.id).Some? && R.Good(c, data)
    ensures Reachable(c, at, n, s) && s.r.fault == R.AlreadyInFlight
  {
    s := Start(c, at, n);
    s := Extend(c, at, n, s, EnterRound(at(data.id).value, Some(data)));
    s := Extend(c, at, n, s, EnterRound(at(data.id).value, Some(data)));
  }
}
