/**
 The retriever of proposed block data as a protocol (gserver/internal/gsi/pbdretriever.go): one
 coordinator and n workers around two queues of capacity n, and the request cache they publish through.

 An action is one step of one goroutine. A blocked send or receive is an action that is not enabled, and a
 select is a choice among enabled actions. Other goroutines may deposit ready data in the cache as well.
 */
module Retriever {
  import opened Basics

  type Id = string
  type Addr = string

  /** Which IDs name decodable data at all, and which data decodes under an ID to which transactions. */
  datatype Codec = Codec(valid: Id -> bool, decodes: (Id, bytes, seq<Tx>) -> bool)

  datatype Request = Request(id: Id, addrs: seq<Addr>)
  datatype Fetched = Fetched(id: Id, txs: seq<Tx>, raw: bytes)

  datatype Coordinator =
    | Selecting
    | Received(req: Request) // The cache entry is still to be made.
    | HandingOut(req: Request) // Sending to the workers.
    | Publishing(res: Fetched, stage: nat) // About to write both fields (0, 1), close Ready (2), forget the entry (3).

  datatype Worker =
    | Idle
    | Fetching(req: Request) // With the addresses not yet tried.
    | Sending(res: Fetched)

  /** A request's shared entry; it is ready once its channel has been closed. */
  datatype Entry = Entry(txs: Option<seq<Tx>>, raw: Option<bytes>, closes: nat)

  /** How the process can die: a panic of the cache, of a lookup, of a second close, or of the decoder's constructor. */
  datatype Fault = NoFault | AlreadyInFlight | NoEntry | ClosedTwice | InvalidID

  datatype State = State(
    n: nat,
    coordinator: Coordinator,
    workers: seq<Worker>,
    requests: seq<Request>,
    results: seq<Fetched>,
    ifrs: set<Id>,
    cache: map<Id, Entry>,
    inserted: set<Id>, // Every ID ever accepted.
    published: set<Id>,
    lost: set<Id>, // Fetched from no address.
    fault: Fault)

  datatype Action =
    | Receive(req: Request)
    | Insert
    | HandOut
    | TakeResult
    | Publish
    | WorkerTake(w: nat, order: seq<Addr>) // The addresses as shuffled.
    | WorkerTryFails(w: nat)
    | WorkerFetches(w: nat, txs: seq<Tx>, raw: bytes)
    | WorkerGivesUp(w: nat)
    | WorkerSends(w: nat)
    | Deposit(id: Id, txs: seq<Tx>, raw: bytes) // By another goroutine.

  function Initial(n: nat): State {
    State(n, Selecting, seq(n, _ => Idle), [], [], {}, map[], {}, {}, {}, NoFault)
  }

  ghost predicate Enabled(c: Codec, s: State, a: Action) {
    && s.fault == NoFault
    && match a
       case Receive(_) => s.coordinator.Selecting?
       case Insert => s.coordinator.Received?
       case HandOut => s.coordinator.HandingOut? && |s.requests| < s.n
       case TakeResult => s.coordinator.Selecting? && s.results != []
       case Publish => s.coordinator.Publishing?
       case WorkerTake(w, order) =>
         w < |s.workers| && s.workers[w].Idle? && s.requests != [] && multiset(order) == multiset(s.requests[0].addrs)
       case WorkerTryFails(w) => w < |s.workers| && s.workers[w].Fetching? && s.workers[w].req.addrs != []
       case WorkerFetches(w, txs, raw) =>
         && w < |s.workers| && s.workers[w].Fetching? && s.workers[w].req.addrs != []
         && c.decodes(s.workers[w].req.id, raw, txs)
       case WorkerGivesUp(w) => w < |s.workers| && s.workers[w].Fetching? && s.workers[w].req.addrs == []
       case WorkerSends(w) => w < |s.workers| && s.workers[w].Sending? && |s.results| < s.n
       case Deposit(id, txs, raw) => c.decodes(id, raw, txs)
  }

  ghost function Apply(c: Codec, s: State, a: Action): State
    requires Enabled(c, s, a)
  {
    match a
    case Receive(req) => s.(coordinator := Received(req))
    case Insert => ApplyInsert(s)
    case HandOut => s.(coordinator := Selecting, requests := s.requests + [s.coordinator.req])
    case TakeResult => s.(coordinator := Publishing(s.results[0], 0), results := s.results[1..])
    case Publish => ApplyPublish(s)
    case WorkerTake(w, order) =>
      var req := s.requests[0];
      if !c.valid(req.id) then s.(fault := InvalidID)
      else s.(requests := s.requests[1..], workers := s.workers[w := Fetching(req.(addrs := order))])
    case WorkerTryFails(w) =>
      var req := s.workers[w].req;
      s.(workers := s.workers[w := Fetching(req.(addrs := req.addrs[1..]))])
    case WorkerFetches(w, txs, raw) =>
      s.(workers := s.workers[w := Sending(Fetched(s.workers[w].req.id, txs, raw))])
    case WorkerGivesUp(w) =>
      s.(workers := s.workers[w := Idle], lost := s.lost + {s.workers[w].req.id})
    case WorkerSends(w) => s.(workers := s.workers[w := Idle], results := s.results + [s.workers[w].res])
    case Deposit(id, txs, raw) =>
      if id in s.cache then s.(fault := AlreadyInFlight)
      else s.(cache := s.cache[id := Entry(Some(txs), Some(raw), 1)])
  }

  function ApplyInsert(s: State): State
    requires s.coordinator.Received?
  {
    var id := s.coordinator.req.id;
    if id in s.cache then s.(fault := AlreadyInFlight)
    else
      s.(coordinator := HandingOut(s.coordinator.req), ifrs := s.ifrs + {id},
         cache := s.cache[id := Entry(None, None, 0)], inserted := s.inserted + {id})
  }

  function ApplyPublish(s: State): State
    requires s.coordinator.Publishing?
  {
    var res, stage := s.coordinator.res, s.coordinator.stage;
    var next := s.(coordinator := Publishing(res, stage + 1));
    if res.id !in s.ifrs || res.id !in s.cache then s.(fault := NoEntry)
    else
      var entry := s.cache[res.id];
      if stage == 0 then next.(cache := s.cache[res.id := entry.(txs := Some(res.txs))])
      else if stage == 1 then next.(cache := s.cache[res.id := entry.(raw := Some(res.raw))])
      else if stage == 2 then
        if entry.closes > 0 then s.(fault := ClosedTwice)
        else next.(cache := s.cache[res.id := entry.(closes := 1)])
      else
        s.(coordinator := Selecting, ifrs := s.ifrs - {res.id}, published := s.published + {res.id})
  }

  /** The steps of the coordinator and the workers by themselves. */
  predicate Internal(a: Action) {
    !a.Receive? && !a.Deposit?
  }

  /** A run of the given actions. */
  ghost predicate Run(c: Codec, s: State, actions: seq<Action>, t: State)
    decreases |actions|
  {
    if actions == [] then s == t
    else Enabled(c, s, actions[0]) && Run(c, Apply(c, s, actions[0]), actions[1..], t)
  }

  ghost predicate Reachable(c: Codec, n: nat, s: State) {
    exists actions :: Run(c, Initial(n), actions, s)
  }

  // ----- where every request is

  function AtCoordinator(k: Coordinator, id: Id): nat {
    match k
    case HandingOut(req) => if req.id == id then 1 else 0
    case Publishing(res, _) => if res.id == id then 1 else 0
    case _ => 0 // A request merely received is not accepted yet.
  }

  function AtWorker(w: Worker, id: Id): nat {
    match w
    case Idle => 0
    case Fetching(req) => if req.id == id then 1 else 0
    case Sending(res) => if res.id == id then 1 else 0
  }

  function AtWorkers(ws: seq<Worker>, id: Id): nat {
    if ws == [] then 0 else AtWorker(ws[0], id) + AtWorkers(ws[1..], id)
  }

  function InRequests(rs: seq<Request>, id: Id): nat {
    if rs == [] then 0 else (if rs[0].id == id then 1 else 0) + InRequests(rs[1..], id)
  }

  function InResults(rs: seq<Fetched>, id: Id): nat {
    if rs == [] then 0 else (if rs[0].id == id then 1 else 0) + InResults(rs[1..], id)
  }

  function In(ids: set<Id>, id: Id): nat {
    if id in ids then 1 else 0
  }

  /**
   In how many places an ID is: handed out or being published, queued, with a worker, queued back, published,
   lost.
   */
  function Places(s: State, id: Id): nat {
    AtCoordinator(s.coordinator, id) + InRequests(s.requests, id) + AtWorkers(s.workers, id) +
    InResults(s.results, id) + In(s.published, id) + In(s.lost, id)
  }

  lemma {:induction false} AtWorkersUpdate(ws: seq<Worker>, i: nat, w: Worker, id: Id)
    requires i < |ws|
    ensures AtWorkers(ws[i := w], id) + AtWorker(ws[i], id) == AtWorkers(ws, id) + AtWorker(w, id)
    ensures AtWorker(ws[i], id) <= AtWorkers(ws, id)
  {
    if i == 0 {
      assert ws[0 := w][1..] == ws[1..];
    } else {
      AtWorkersUpdate(ws[1..], i - 1, w, id);
      assert ws[i := w][1..] == ws[1..][i - 1 := w];
    }
  }

  lemma {:induction false} InRequestsAppend(rs: seq<Request>, r: Request, id: Id)
    ensures InRequests(rs + [r], id) == InRequests(rs, id) + if r.id == id then 1 else 0
  {
    if rs == [] {
      assert ([r] + [])[1..] == [];
      assert rs + [r] == [r];
    } else {
      InRequestsAppend(rs[1..], r, id);
      assert (rs + [r])[1..] == rs[1..] + [r];
    }
  }

  lemma {:induction false} InResultsAppend(rs: seq<Fetched>, r: Fetched, id: Id)
    ensures InResults(rs + [r], id) == InResults(rs, id) + if r.id == id then 1 else 0
  {
    if rs == [] {
      assert rs + [r] == [r];
    } else {
      InResultsAppend(rs[1..], r, id);
      assert (rs + [r])[1..] == rs[1..] + [r];
    }
  }

  lemma {:induction false} AllIdle(n: nat, id: Id)
    ensures AtWorkers(seq(n, _ => Idle), id) == 0
  {
    if n > 0 {
      AllIdle(n - 1, id);
      assert seq(n, _ => Idle)[1..] == seq(n - 1, _ => Idle);
    }
  }

  // ----- what every step keeps

  /** Queues within their capacity. */
  predicate Bounded(s: State) {
    && |s.workers| == s.n && |s.requests| <= s.n && |s.results| <= s.n
    && (s.coordinator.Publishing? ==> s.coordinator.stage <= 3)
  }

  /** Every accepted ID is in exactly one place, and no other is anywhere. */
  ghost predicate Conserved(s: State) {
    forall id :: Places(s, id) == In(s.inserted, id)
  }

  /** The coordinator remembers exactly the accepted IDs it has not published. */
  ghost predicate Remembered(s: State) {
    && (forall id :: id in s.ifrs <==> id in s.inserted && id !in s.published)
    && (forall id :: id in s.inserted ==> id in s.cache)
  }

  ghost predicate Good(c: Codec, res: Fetched) {
    c.decodes(res.id, res.raw, res.txs)
  }

  /** Whatever is on its way to being published decodes under its ID. */
  ghost predicate Carried(c: Codec, s: State) {
    && (s.coordinator.Publishing? ==> Good(c, s.coordinator.res))
    && (forall w :: 0 <= w < |s.workers| && s.workers[w].Sending? ==> Good(c, s.workers[w].res))
    && (forall i :: 0 <= i < |s.results| ==> Good(c, s.results[i]))
  }

  /** The coordinator has closed this request's channel. */
  predicate Closed(s: State, id: Id) {
    id in s.published || (s.coordinator.Publishing? && s.coordinator.stage == 3 && s.coordinator.res.id == id)
  }

  /** How far the entry being published has been written. */
  predicate Written(s: State) {
    s.coordinator.Publishing? && s.coordinator.res.id in s.cache ==>
      var res, entry := s.coordinator.res, s.cache[s.coordinator.res.id];
      && (s.coordinator.stage >= 1 ==> entry.txs == Some(res.txs))
      && (s.coordinator.stage >= 2 ==> entry.raw == Some(res.raw))
  }

  ghost predicate GoodEntry(c: Codec, id: Id, entry: Entry) {
    && entry.closes <= 1
    && (entry.closes == 1 ==>
          entry.txs.Some? && entry.raw.Some? && c.decodes(id, entry.raw.value, entry.txs.value))
  }

  /** Ready closes at most once, after both fields are written with data that decodes under the ID. */
  ghost predicate PublishedOnce(c: Codec, s: State) {
    && Written(s)
    && (forall id :: id in s.cache ==> GoodEntry(c, id, s.cache[id]))
    && (forall id :: id in s.cache && id in s.inserted ==> (s.cache[id].closes == 1 <==> Closed(s, id)))
  }

  ghost predicate Inv(c: Codec, s: State) {
    && Bounded(s) && Conserved(s) && Remembered(s) && Carried(c, s) && PublishedOnce(c, s)
    && s.fault != NoEntry && s.fault != ClosedTwice
  }

  lemma InitialInv(c: Codec, n: nat)
    ensures Inv(c, Initial(n))
  {
    forall id ensures Places(Initial(n), id) == 0 {
      AllIdle(n, id);
    }
  }

  lemma StepKeepsBounded(c: Codec, s: State, a: Action)
    requires Bounded(s) && Enabled(c, s, a)
    ensures Bounded(Apply(c, s, a)) && Apply(c, s, a).n == s.n
  {
  }

  lemma StepKeepsCarried(c: Codec, s: State, a: Action)
    requires Carried(c, s) && Enabled(c, s, a)
    ensures Carried(c, Apply(c, s, a))
  {
  }

  /** The steps of the workers. */
  predicate IsWorkers(a: Action) {
    a.WorkerTake? || a.WorkerTryFails? || a.WorkerFetches? || a.WorkerGivesUp? || a.WorkerSends?
  }

  lemma CoordinatorMovesOne(c: Codec, s: State, a: Action, id: Id)
    requires Bounded(s) && Conserved(s) && Remembered(s) && Enabled(c, s, a)
    requires !IsWorkers(a)
    ensures var t := Apply(c, s, a);
            Places(t, id) == In(t.inserted, id)
  {
    assert Places(s, id) == In(s.inserted, id);
    if a.HandOut? {
      InRequestsAppend(s.requests, s.coordinator.req, id);
    }
  }

  lemma WorkerMovesOne(c: Codec, s: State, a: Action, id: Id)
    requires Bounded(s) && Conserved(s) && Enabled(c, s, a)
    requires IsWorkers(a)
    ensures var t := Apply(c, s, a);
            t.inserted == s.inserted && Places(t, id) == Places(s, id)
  {
    var t := Apply(c, s, a);
    if t.fault == NoFault {
      AtWorkersUpdate(s.workers, a.w, t.workers[a.w], id);
      assert t.workers == s.workers[a.w := t.workers[a.w]];
    }
    if a.WorkerSends? {
      InResultsAppend(s.results, s.workers[a.w].res, id);
    }
    if a.WorkerGivesUp? {
      GivenUpIsNotLost(s, a.w);
    }
  }

  lemma GivenUpIsNotLost(s: State, w: nat)
    requires Conserved(s) && w < |s.workers| && s.workers[w].Fetching?
    ensures s.workers[w].req.id !in s.lost
  {
    var id := s.workers[w].req.id;
    assert Places(s, id) == In(s.inserted, id);
    AtWorkersUpdate(s.workers, w, Idle, id);
  }

  lemma StepMovesOne(c: Codec, s: State, a: Action, id: Id)
    requires Bounded(s) && Conserved(s) && Remembered(s) && Enabled(c, s, a)
    ensures var t := Apply(c, s, a);
            Places(t, id) == In(t.inserted, id)
  {
    assert Places(s, id) == In(s.inserted, id);
    if IsWorkers(a) {
      WorkerMovesOne(c, s, a, id);
    } else {
      CoordinatorMovesOne(c, s, a, id);
    }
  }

  lemma StepKeepsConserved(c: Codec, s: State, a: Action)
    requires Bounded(s) && Conserved(s) && Remembered(s) && Enabled(c, s, a)
    ensures Conserved(Apply(c, s, a))
  {
    forall id ensures Places(Apply(c, s, a), id) == In(Apply(c, s, a).inserted, id) {
      StepMovesOne(c, s, a, id);
    }
  }

  /** While a result is being published its ID is nowhere else, so it is remembered and its channel is open. */
  lemma PublishingIsRemembered(s: State)
    requires Conserved(s) && Remembered(s) && s.coordinator.Publishing?
    ensures var id := s.coordinator.res.id;
            id in s.inserted && id !in s.published && id in s.ifrs && id in s.cache
  {
    assert Places(s, s.coordinator.res.id) == In(s.inserted, s.coordinator.res.id);
  }

  lemma StepKeepsRemembered(c: Codec, s: State, a: Action)
    requires Bounded(s) && Conserved(s) && Remembered(s) && Enabled(c, s, a)
    ensures Remembered(Apply(c, s, a))
  {
    if a.Insert? {
      var id := s.coordinator.req.id;
      assert Places(s, id) == In(s.inserted, id);
    }
    if a.Publish? {
      PublishingIsRemembered(s);
    }
  }

  lemma StepKeepsPublishedOnce(c: Codec, s: State, a: Action)
    requires Inv(c, s) && Enabled(c, s, a)
    ensures PublishedOnce(c, Apply(c, s, a))
  {
    if s.coordinator.Publishing? {
      PublishingIsRemembered(s);
    }
    if a.TakeResult? {
      var id := s.results[0].id;
      assert Places(s, id) == In(s.inserted, id);
    }
    if a.Insert? {
      var id := s.coordinator.req.id;
      assert Places(s, id) == In(s.inserted, id);
    }
  }

  lemma StepKeepsInv(c: Codec, s: State, a: Action)
    requires Inv(c, s) && Enabled(c, s, a)
    ensures Inv(c, Apply(c, s, a))
  {
    StepKeepsBounded(c, s, a);
    StepKeepsCarried(c, s, a);
    StepKeepsConserved(c, s, a);
    StepKeepsRemembered(c, s, a);
    StepKeepsPublishedOnce(c, s, a);
    if a.Publish? {
      PublishingIsRemembered(s);
    }
  }

  lemma {:induction false} RunKeepsInv(c: Codec, s: State, actions: seq<Action>, t: State)
    requires Inv(c, s) && Run(c, s, actions, t)
    ensures Inv(c, t) && t.n == s.n
    decreases |actions|
  {
    if actions != [] {
      StepKeepsInv(c, s, actions[0]);
      StepKeepsBounded(c, s, actions[0]);
      RunKeepsInv(c, Apply(c, s, actions[0]), actions[1..], t);
    }
  }

  // ----- conservation and publishing, over every run

  /**
   In every reachable state each accepted ID is in exactly one place, each result being published finds its
   entry, and a ready entry was closed once and carries transactions and raw data that decode to them.
   */
  lemma ConservationAndPublishing(c: Codec, n: nat, s: State)
    requires Reachable(c, n, s)
    ensures forall id :: id in s.inserted ==> Places(s, id) == 1
    ensures forall id :: id !in s.inserted ==> Places(s, id) == 0
    ensures s.coordinator.Publishing? ==> s.coordinator.res.id in s.ifrs && s.coordinator.res.id in s.cache
    ensures forall id :: id in s.cache ==> GoodEntry(c, id, s.cache[id])
    ensures forall id :: id in s.published ==> id in s.cache && s.cache[id].closes == 1
    ensures s.fault != NoEntry && s.fault != ClosedTwice
  {
    var actions :| Run(c, Initial(n), actions, s);
    InitialInv(c, n);
    RunKeepsInv(c, Initial(n), actions, s);
    forall id ensures Places(s, id) == In(s.inserted, id) {
    }
    if s.coordinator.Publishing? {
      PublishingIsRemembered(s);
    }
  }

  /** The IDs that requests and deposits bring in, in order. */
  function NewIds(actions: seq<Action>): seq<Id> {
    if actions == [] then []
    else
      (match actions[0] case Receive(req) => [req.id] case Deposit(id, _, _) => [id] case _ => []) +
      NewIds(actions[1..])
  }

  ghost predicate Distinct(ids: seq<Id>) {
    forall i, j :: 0 <= i < j < |ids| ==> ids[i] != ids[j]
  }

  /** The queued requests can be decoded, and a received one is new. */
  ghost predicate Welcome(c: Codec, s: State) {
    && (forall i :: 0 <= i < |s.requests| ==> c.valid(s.requests[i].id))
    && (s.coordinator.HandingOut? ==> c.valid(s.coordinator.req.id))
    && (s.coordinator.Received? ==> c.valid(s.coordinator.req.id) && s.coordinator.req.id !in s.cache)
  }

  ghost predicate AllNew(c: Codec, s: State, ids: seq<Id>) {
    && Distinct(ids)
    && forall id :: id in ids ==>
         c.valid(id) && id !in s.cache && (s.coordinator.Received? ==> id != s.coordinator.req.id)
  }

  lemma {:induction false} RunWithoutFault(c: Codec, s: State, actions: seq<Action>, t: State)
    requires Inv(c, s) && Welcome(c, s) && s.fault == NoFault
    requires AllNew(c, s, NewIds(actions)) && Run(c, s, actions, t)
    ensures t.fault == NoFault
    decreases |actions|
  {
    if actions != [] {
      StepKeepsInv(c, s, actions[0]);
      FirstIsNew(c, s, actions);
      StepStaysWelcome(c, s, actions[0]);
      RestStaysNew(c, s, actions);
      RunWithoutFault(c, Apply(c, s, actions[0]), actions[1..], t);
    }
  }

  lemma FirstIsNew(c: Codec, s: State, actions: seq<Action>)
    requires actions != [] && AllNew(c, s, NewIds(actions))
    ensures var a := actions[0];
            && (a.Receive? ==> c.valid(a.req.id) && a.req.id !in s.cache)
            && (a.Deposit? ==> a.id !in s.cache && (s.coordinator.Received? ==> a.id != s.coordinator.req.id))
  {
    assert actions[0].Receive? || actions[0].Deposit? ==> NewIds(actions)[0] in NewIds(actions);
  }

  /** A step brings in only the ID it deposits or has received. */
  lemma StepBringsIn(c: Codec, s: State, a: Action, id: Id)
    requires Inv(c, s) && Enabled(c, s, a) && id !in s.cache && (a.Deposit? ==> id != a.id)
    requires s.coordinator.Received? ==> id != s.coordinator.req.id
    ensures id !in Apply(c, s, a).cache
    ensures Apply(c, s, a).coordinator.Received? && !a.Receive? ==> id != Apply(c, s, a).coordinator.req.id
  {
    if s.coordinator.Publishing? {
      PublishingIsRemembered(s);
    }
  }

  lemma RestStaysNew(c: Codec, s: State, actions: seq<Action>)
    requires Inv(c, s) && actions != [] && AllNew(c, s, NewIds(actions)) && Enabled(c, s, actions[0])
    ensures AllNew(c, Apply(c, s, actions[0]), NewIds(actions[1..]))
  {
    DistinctRest(actions);
    var a, rest := actions[0], NewIds(actions[1..]);
    var t := Apply(c, s, a);
    forall id | id in rest
      ensures c.valid(id) && id !in t.cache && (t.coordinator.Received? ==> id != t.coordinator.req.id)
    {
      assert id in NewIds(actions);
      StepBringsIn(c, s, a, id);
    }
  }

  lemma DistinctRest(actions: seq<Action>)
    requires actions != [] && Distinct(NewIds(actions))
    ensures Distinct(NewIds(actions[1..]))
    ensures actions[0].Receive? ==> actions[0].req.id !in NewIds(actions[1..])
    ensures actions[0].Deposit? ==> actions[0].id !in NewIds(actions[1..])
  {
    var all, rest := NewIds(actions), NewIds(actions[1..]);
    var k := |all| - |rest|;
    assert forall i :: 0 <= i < |rest| ==> rest[i] == all[i + k];
    if actions[0].Receive? || actions[0].Deposit? {
      assert k == 1;
      forall id | id in rest ensures id != all[0] {
        var i :| 0 <= i < |rest| && rest[i] == id;
        assert all[0] != all[i + 1];
      }
    }
  }

  lemma StepStaysWelcome(c: Codec, s: State, a: Action)
    requires Inv(c, s) && Welcome(c, s) && Enabled(c, s, a)
    requires a.Receive? ==> c.valid(a.req.id) && a.req.id !in s.cache
    requires a.Deposit? ==> a.id !in s.cache && (s.coordinator.Received? ==> a.id != s.coordinator.req.id)
    ensures Welcome(c, Apply(c, s, a)) && Apply(c, s, a).fault == NoFault
  {
    if s.coordinator.Publishing? {
      PublishingIsRemembered(s);
    }
    if a.Publish? && s.coordinator.stage == 2 {
      assert s.cache[s.coordinator.res.id].closes == 0;
    }
  }

  /** In a run whose requests and deposits bring in distinct decodable IDs nothing panics. */
  lemma DistinctIDsNeverPanic(c: Codec, n: nat, actions: seq<Action>, s: State)
    requires Run(c, Initial(n), actions, s)
    requires Distinct(NewIds(actions)) && forall id :: id in NewIds(actions) ==> c.valid(id)
    ensures s.fault == NoFault
  {
    InitialInv(c, n);
    RunWithoutFault(c, Initial(n), actions, s);
  }

  /** In a run without a panic that leaves no request half taken in, what was brought in was new each time. */
  lemma {:induction false} NoFaultMeansNew(c: Codec, s: State, actions: seq<Action>, t: State)
    requires Inv(c, s) && Run(c, s, actions, t) && t.fault == NoFault && !t.coordinator.Received?
    ensures Distinct(NewIds(actions))
    ensures forall id :: id in NewIds(actions) ==> id !in s.cache
    ensures s.coordinator.Received? ==> s.coordinator.req.id !in NewIds(actions) && s.coordinator.req.id !in s.cache
    decreases |actions|
  {
    if actions != [] {
      var a, rest := actions[0], NewIds(actions[1..]);
      var s' := Apply(c, s, a);
      StepKeepsInv(c, s, a);
      NoFaultMeansNew(c, s', actions[1..], t);
      assert s'.fault == NoFault;
      CacheGrows(c, s, a);
      NewIdsPrepend(actions);
    }
  }

  lemma NewIdsPrepend(actions: seq<Action>)
    requires actions != [] && Distinct(NewIds(actions[1..]))
    ensures forall id :: id in NewIds(actions) ==>
              id in NewIds(actions[1..]) || (actions[0].Receive? && id == actions[0].req.id)
              || (actions[0].Deposit? && id == actions[0].id)
    ensures !actions[0].Receive? && !actions[0].Deposit? ==> Distinct(NewIds(actions))
    ensures actions[0].Receive? && actions[0].req.id !in NewIds(actions[1..]) ==> Distinct(NewIds(actions))
    ensures actions[0].Deposit? && actions[0].id !in NewIds(actions[1..]) ==> Distinct(NewIds(actions))
  {
    var all, rest := NewIds(actions), NewIds(actions[1..]);
    var k := |all| - |rest|;
    assert forall i :: 0 <= i < |rest| ==> all[i + k] == rest[i];
  }

  /** What a step without a panic adds to the cache was not there. */
  lemma CacheGrows(c: Codec, s: State, a: Action)
    requires Inv(c, s) && Enabled(c, s, a) && Apply(c, s, a).fault == NoFault
    ensures var brought := if a.Insert? then {s.coordinator.req.id} else if a.Deposit? then {a.id} else {};
            brought !! s.cache.Keys && Apply(c, s, a).cache.Keys == s.cache.Keys + brought
    ensures s.coordinator.Received? && !a.Insert? ==> Apply(c, s, a).coordinator == s.coordinator
  {
    if s.coordinator.Publishing? {
      PublishingIsRemembered(s);
    }
  }

  /** The requests on their way to a worker can be decoded. */
  ghost predicate AllValid(c: Codec, s: State) {
    && (forall i :: 0 <= i < |s.requests| ==> c.valid(s.requests[i].id))
    && (s.coordinator.HandingOut? || s.coordinator.Received? ==> c.valid(s.coordinator.req.id))
    && s.fault != InvalidID
  }

  lemma StepKeepsAllValid(c: Codec, s: State, a: Action)
    requires AllValid(c, s) && Enabled(c, s, a) && (a.Receive? ==> c.valid(a.req.id))
    ensures AllValid(c, Apply(c, s, a))
  {
  }

  lemma {:induction false} RunKeepsAllValid(c: Codec, s: State, actions: seq<Action>, t: State)
    requires AllValid(c, s) && Run(c, s, actions, t) && forall id :: id in NewIds(actions) ==> c.valid(id)
    ensures AllValid(c, t)
    decreases |actions|
  {
    if actions != [] {
      assert actions[0].Receive? ==> NewIds(actions)[0] in NewIds(actions);
      assert forall id :: id in NewIds(actions[1..]) ==> id in NewIds(actions);
      StepKeepsAllValid(c, s, actions[0]);
      RunKeepsAllValid(c, Apply(c, s, actions[0]), actions[1..], t);
    }
  }

  /**
   A run that brings in decodable IDs and leaves no received request waiting for its insertion panics if and
   only if some ID is brought in twice, and then over the entry that is there already.
   */
  lemma PanicsIffRepeated(c: Codec, n: nat, actions: seq<Action>, s: State)
    requires Run(c, Initial(n), actions, s) && forall id :: id in NewIds(actions) ==> c.valid(id)
    requires s.coordinator.Received? ==> s.fault != NoFault
    ensures s.fault == NoFault <==> Distinct(NewIds(actions))
    ensures s.fault == NoFault || s.fault == AlreadyInFlight
  {
    InitialInv(c, n);
    RunKeepsInv(c, Initial(n), actions, s);
    RunKeepsAllValid(c, Initial(n), actions, s);
    assert s.fault.NoFault? || s.fault.AlreadyInFlight? || s.fault.NoEntry? || s.fault.ClosedTwice? ||
           s.fault.InvalidID?;
    if s.fault == NoFault {
      NoFaultMeansNew(c, Initial(n), actions, s);
    }
    if Distinct(NewIds(actions)) {
      DistinctIDsNeverPanic(c, n, actions, s);
    }
  }

  // ----- ready entries stay

  lemma StepKeepsReady(c: Codec, s: State, a: Action, id: Id)
    requires Inv(c, s) && Enabled(c, s, a) && id in s.cache && s.cache[id].closes == 1
    ensures id in Apply(c, s, a).cache && Apply(c, s, a).cache[id] == s.cache[id]
  {
    if s.coordinator.Publishing? {
      PublishingIsRemembered(s);
    }
  }

  /** Nothing is ever removed from the cache. */
  lemma {:induction false} EntriesStay(c: Codec, s: State, actions: seq<Action>, t: State, id: Id)
    requires Inv(c, s) && Run(c, s, actions, t) && id in s.cache
    ensures id in t.cache
    decreases |actions|
  {
    if actions != [] {
      StepKeepsInv(c, s, actions[0]);
      if Apply(c, s, actions[0]).fault == NoFault {
        CacheGrows(c, s, actions[0]);
      }
      EntriesStay(c, Apply(c, s, actions[0]), actions[1..], t, id);
    }
  }

  /** What a step inserts or deposits is in the cache for good. */
  lemma BroughtStays(c: Codec, n: nat, s: State, a: Action, actions: seq<Action>, t: State, id: Id)
    requires Reachable(c, n, s) && Enabled(c, s, a) && Run(c, Apply(c, s, a), actions, t)
    requires (a.Insert? && s.coordinator.req.id == id) || (a.Deposit? && a.id == id)
    ensures id in t.cache
  {
    var before :| Run(c, Initial(n), before, s);
    InitialInv(c, n);
    RunKeepsInv(c, Initial(n), before, s);
    StepKeepsInv(c, s, a);
    EntriesStay(c, Apply(c, s, a), actions, t, id);
  }

  /** Nothing is removed, and what is ready is never written again. */
  lemma {:induction false} ReadyStays(c: Codec, s: State, actions: seq<Action>, t: State, id: Id)
    requires Inv(c, s) && Run(c, s, actions, t) && id in s.cache && s.cache[id].closes == 1
    ensures id in t.cache && t.cache[id] == s.cache[id]
    decreases |actions|
  {
    if actions != [] {
      StepKeepsReady(c, s, actions[0], id);
      StepKeepsInv(c, s, actions[0]);
      ReadyStays(c, Apply(c, s, actions[0]), actions[1..], t, id);
    }
  }

  // ----- the queues are in order, and every address gets its chance

  ghost function HandedOut(c: Codec, s: State, actions: seq<Action>): seq<Id>
    decreases |actions|
  {
    if actions == [] || !Enabled(c, s, actions[0]) then []
    else
      (if actions[0].HandOut? then [s.coordinator.req.id] else []) +
      HandedOut(c, Apply(c, s, actions[0]), actions[1..])
  }

  ghost function TakenUp(c: Codec, s: State, actions: seq<Action>): seq<Id>
    decreases |actions|
  {
    if actions == [] || !Enabled(c, s, actions[0]) then []
    else
      var t := Apply(c, s, actions[0]);
      (if actions[0].WorkerTake? && t.fault == NoFault then [t.workers[actions[0].w].req.id] else []) +
      TakenUp(c, t, actions[1..])
  }

  function RequestIds(rs: seq<Request>): seq<Id> {
    seq(|rs|, i requires 0 <= i < |rs| => rs[i].id)
  }

  lemma StepKeepsOrder(c: Codec, s: State, a: Action)
    requires Enabled(c, s, a)
    ensures var t := Apply(c, s, a);
            RequestIds(s.requests) + (if a.HandOut? then [s.coordinator.req.id] else []) ==
            (if a.WorkerTake? && t.fault == NoFault then [t.workers[a.w].req.id] else []) + RequestIds(t.requests)
  {
  }

  /** Workers take requests up in the order in which they were handed out. */
  lemma {:induction false} RequestsInOrder(c: Codec, s: State, actions: seq<Action>, t: State)
    requires Run(c, s, actions, t)
    ensures RequestIds(s.requests) + HandedOut(c, s, actions) == TakenUp(c, s, actions) + RequestIds(t.requests)
    decreases |actions|
  {
    if actions != [] {
      var a, s' := actions[0], Apply(c, s, actions[0]);
      StepKeepsOrder(c, s, a);
      RequestsInOrder(c, s', actions[1..], t);
      Chained(RequestIds(s.requests), if a.HandOut? then [s.coordinator.req.id] else [],
              if a.WorkerTake? && s'.fault == NoFault then [s'.workers[a.w].req.id] else [], RequestIds(s'.requests),
              HandedOut(c, s', actions[1..]), TakenUp(c, s', actions[1..]), RequestIds(t.requests));
    }
  }

  lemma Chained<T>(a: seq<T>, b: seq<T>, x: seq<T>, y: seq<T>, c: seq<T>, z: seq<T>, w: seq<T>)
    requires a + b == x + y && y + c == z + w
    ensures a + (b + c) == (x + z) + w
  {
    assert a + (b + c) == (a + b) + c == (x + y) + c == x + (y + c) == x + (z + w);
  }

  ghost function SentBackBy(c: Codec, s: State, actions: seq<Action>): seq<Fetched>
    decreases |actions|
  {
    if actions == [] || !Enabled(c, s, actions[0]) then []
    else
      (if actions[0].WorkerSends? then [s.workers[actions[0].w].res] else []) +
      SentBackBy(c, Apply(c, s, actions[0]), actions[1..])
  }

  ghost function PublishingOf(c: Codec, s: State, actions: seq<Action>): seq<Fetched>
    decreases |actions|
  {
    if actions == [] || !Enabled(c, s, actions[0]) then []
    else
      var t := Apply(c, s, actions[0]);
      (if actions[0].TakeResult? then [t.coordinator.res] else []) + PublishingOf(c, t, actions[1..])
  }

  lemma StepKeepsResultOrder(c: Codec, s: State, a: Action)
    requires Enabled(c, s, a)
    ensures var t := Apply(c, s, a);
            s.results + (if a.WorkerSends? then [s.workers[a.w].res] else []) ==
            (if a.TakeResult? then [t.coordinator.res] else []) + t.results
  {
  }

  /** The coordinator publishes results, as they are, in the order in which they were sent back. */
  lemma {:induction false} ResultsInOrder(c: Codec, s: State, actions: seq<Action>, t: State)
    requires Run(c, s, actions, t)
    ensures s.results + SentBackBy(c, s, actions) == PublishingOf(c, s, actions) + t.results
    decreases |actions|
  {
    if actions != [] {
      var a, s' := actions[0], Apply(c, s, actions[0]);
      StepKeepsResultOrder(c, s, a);
      ResultsInOrder(c, s', actions[1..], t);
      Chained(s.results, if a.WorkerSends? then [s.workers[a.w].res] else [],
              if a.TakeResult? then [s'.coordinator.res] else [], s'.results,
              SentBackBy(c, s', actions[1..]), PublishingOf(c, s', actions[1..]), t.results);
    }
  }

  function Tries(actions: seq<Action>, w: nat): nat {
    if actions == [] then 0 else (if actions[0] == WorkerTryFails(w) then 1 else 0) + Tries(actions[1..], w)
  }

  /** All that the worker itself does is fail. */
  predicate OnlyFails(actions: seq<Action>, w: nat) {
    forall a :: a in actions && IsWorkers(a) && a.w == w ==> a.WorkerTryFails?
  }

  lemma {:induction false} AddressesLeft(c: Codec, s: State, actions: seq<Action>, t: State, w: nat)
    requires Run(c, s, actions, t) && w < |s.workers| && s.workers[w].Fetching? && OnlyFails(actions, w)
    ensures |t.workers| == |s.workers| && t.workers[w].Fetching?
    ensures var k := Tries(actions, w);
            k <= |s.workers[w].req.addrs| && t.workers[w].req == s.workers[w].req.(addrs := s.workers[w].req.addrs[k..])
    decreases |actions|
  {
    if actions != [] {
      assert actions[0] in actions;
      assert forall a :: a in actions[1..] ==> a in actions;
      AddressesLeft(c, Apply(c, s, actions[0]), actions[1..], t, w);
    }
  }

  /** Taking up a request panics if and only if its ID cannot be decoded under. */
  lemma UndecodableRequestPanics(c: Codec, s: State, w: nat, order: seq<Addr>)
    requires Enabled(c, s, WorkerTake(w, order))
    ensures Apply(c, s, WorkerTake(w, order)).fault == if c.valid(s.requests[0].id) then NoFault else InvalidID
  {
  }

  /** A request is given up only after as many addresses have failed as it came with, in some order. */
  lemma GivenUpAfterAllFailed(c: Codec, s: State, w: nat, order: seq<Addr>, actions: seq<Action>, t: State)
    requires Enabled(c, s, WorkerTake(w, order)) && c.valid(s.requests[0].id)
    requires Run(c, Apply(c, s, WorkerTake(w, order)), actions, t) && OnlyFails(actions, w)
    ensures multiset(order) == multiset(s.requests[0].addrs)
    ensures Enabled(c, t, WorkerGivesUp(w)) ==>
              Tries(actions, w) == |s.requests[0].addrs| && t.workers[w].req.id == s.requests[0].id
  {
    AddressesLeft(c, Apply(c, s, WorkerTake(w, order)), actions, t, w);
    assert |multiset(order)| == |order| && |multiset(s.requests[0].addrs)| == |s.requests[0].addrs|;
  }

  // ----- progress

  function Busy(ws: seq<Worker>): nat {
    if ws == [] then 0 else (if ws[0].Idle? then 0 else 1) + Busy(ws[1..])
  }

  /** The accepted requests neither published nor lost. */
  function Outstanding(s: State): nat {
    (if s.coordinator.HandingOut? || s.coordinator.Publishing? then 1 else 0) +
    |s.requests| + Busy(s.workers) + |s.results|
  }

  lemma {:induction false} AllBusy(ws: seq<Worker>)
    ensures Busy(ws) <= |ws|
    ensures Busy(ws) == |ws| <==> forall w :: 0 <= w < |ws| ==> !ws[w].Idle?
    ensures Busy(ws) == 0 <==> forall w :: 0 <= w < |ws| ==> ws[w].Idle?
  {
    if ws != [] {
      AllBusy(ws[1..]);
      assert forall w :: 0 < w < |ws| ==> ws[w] == ws[1..][w - 1];
      assert forall w :: 0 <= w < |ws| - 1 ==> ws[1..][w] == ws[w + 1];
    }
  }

  ghost predicate CoordinatorCanStep(c: Codec, s: State) {
    Enabled(c, s, Insert) || Enabled(c, s, HandOut) || Enabled(c, s, TakeResult) || Enabled(c, s, Publish)
  }

  ghost predicate WorkerCanStep(c: Codec, s: State, w: nat) {
    || (s.requests != [] && Enabled(c, s, WorkerTake(w, s.requests[0].addrs)))
    || Enabled(c, s, WorkerTryFails(w)) || Enabled(c, s, WorkerGivesUp(w)) || Enabled(c, s, WorkerSends(w))
  }

  /** Nobody can move: the coordinator waits for the workers and every worker for the coordinator. */
  ghost predicate Deadlocked(c: Codec, s: State) {
    && s.coordinator.HandingOut?
    && !CoordinatorCanStep(c, s)
    && forall w: nat :: !WorkerCanStep(c, s, w)
  }

  /** Deadlocked means that both queues are full and every worker holds a result. */
  lemma DeadlockedShape(c: Codec, s: State)
    requires Inv(c, s) && s.n > 0 && s.fault == NoFault
    ensures Deadlocked(c, s) <==>
            && s.coordinator.HandingOut? && |s.requests| == s.n && |s.results| == s.n
            && forall w :: 0 <= w < |s.workers| ==> s.workers[w].Sending?
  {
    if Deadlocked(c, s) {
      assert !Enabled(c, s, HandOut);
      forall w | 0 <= w < |s.workers| ensures s.workers[w].Sending? && |s.results| == s.n {
        assert !WorkerCanStep(c, s, w);
        assert multiset(s.requests[0].addrs) == multiset(s.requests[0].addrs);
        assert !Enabled(c, s, WorkerTake(w, s.requests[0].addrs));
        assert !Enabled(c, s, WorkerTryFails(w)) && !Enabled(c, s, WorkerGivesUp(w)) && !Enabled(c, s, WorkerSends(w));
      }
      assert s.workers[0].Sending?;
    }
  }

  /** A deadlock holds exactly 3n+1 outstanding requests. */
  lemma DeadlockBound(c: Codec, s: State)
    requires Inv(c, s) && s.n > 0 && s.fault == NoFault
    ensures Deadlocked(c, s) ==> Outstanding(s) == 3 * s.n + 1
    ensures Outstanding(s) <= 3 * s.n + 1
  {
    DeadlockedShape(c, s);
    AllBusy(s.workers);
  }

  /** With at most 3n outstanding requests, but some, the coordinator or some worker can step. */
  lemma Progress(c: Codec, s: State)
    requires Inv(c, s) && s.n > 0 && s.fault == NoFault
    requires 0 < Outstanding(s) <= 3 * s.n
    ensures CoordinatorCanStep(c, s) || exists w: nat :: WorkerCanStep(c, s, w)
  {
    DeadlockBound(c, s);
    if s.coordinator.HandingOut? {
      assert !Deadlocked(c, s);
    } else if s.coordinator.Publishing? {
      assert Enabled(c, s, Publish);
    } else if s.coordinator.Received? {
      assert Enabled(c, s, Insert);
    } else if s.results != [] {
      assert Enabled(c, s, TakeResult);
    } else {
      SomeWorkerSteps(c, s);
    }
  }

  lemma SomeWorkerSteps(c: Codec, s: State)
    requires Bounded(s) && s.n > 0 && s.fault == NoFault && s.results == []
    requires s.requests != [] || Busy(s.workers) > 0
    ensures exists w: nat :: WorkerCanStep(c, s, w)
  {
    AllBusy(s.workers);
    var w: nat :| w < |s.workers| && (s.requests != [] || !s.workers[w].Idle?);
    match s.workers[w] {
      case Idle => assert Enabled(c, s, WorkerTake(w, s.requests[0].addrs));
      case Fetching(req) => assert Enabled(c, s, if req.addrs == [] then WorkerGivesUp(w) else WorkerTryFails(w));
      case Sending(_) => assert Enabled(c, s, WorkerSends(w));
    }
    assert WorkerCanStep(c, s, w);
  }

  /** The steps still to be taken for what is outstanding, at most. */
  function Work(s: State): nat {
    CoordinatorWork(s.coordinator) + RequestsWork(s.requests) + WorkersWork(s.workers) + 5 * |s.results|
  }

  function CoordinatorWork(k: Coordinator): nat {
    match k
    case Selecting => 0
    case Received(req) => 10 + |req.addrs|
    case HandingOut(req) => 9 + |req.addrs|
    case Publishing(_, stage) => if stage <= 3 then 4 - stage else 0
  }

  function RequestsWork(rs: seq<Request>): nat {
    if rs == [] then 0 else 8 + |rs[0].addrs| + RequestsWork(rs[1..])
  }

  function WorkerWork(w: Worker): nat {
    match w case Idle => 0 case Fetching(req) => 7 + |req.addrs| case Sending(_) => 6
  }

  function WorkersWork(ws: seq<Worker>): nat {
    if ws == [] then 0 else WorkerWork(ws[0]) + WorkersWork(ws[1..])
  }

  lemma {:induction false} WorkersWorkUpdate(ws: seq<Worker>, i: nat, w: Worker)
    requires i < |ws|
    ensures WorkersWork(ws[i := w]) + WorkerWork(ws[i]) == WorkersWork(ws) + WorkerWork(w)
  {
    if i == 0 {
      assert ws[0 := w][1..] == ws[1..];
    } else {
      WorkersWorkUpdate(ws[1..], i - 1, w);
      assert ws[i := w][1..] == ws[1..][i - 1 := w];
    }
  }

  lemma {:induction false} RequestsWorkAppend(rs: seq<Request>, r: Request)
    ensures RequestsWork(rs + [r]) == RequestsWork(rs) + 8 + |r.addrs|
  {
    if rs == [] {
      assert rs + [r] == [r];
    } else {
      RequestsWorkAppend(rs[1..], r);
      assert (rs + [r])[1..] == rs[1..] + [r];
    }
  }

  /** Left to themselves the goroutines come to rest: every internal step leaves less to do. */
  lemma InternalStepsEnd(c: Codec, s: State, a: Action)
    requires Inv(c, s) && Enabled(c, s, a) && Internal(a)
    ensures Apply(c, s, a).fault == NoFault ==> Work(Apply(c, s, a)) < Work(s)
  {
    var t := Apply(c, s, a);
    if a.HandOut? {
      RequestsWorkAppend(s.requests, s.coordinator.req);
    }
    if IsWorkers(a) && t.fault == NoFault {
      WorkersWorkUpdate(s.workers, a.w, t.workers[a.w]);
      assert t.workers == s.workers[a.w := t.workers[a.w]];
      if a.WorkerTake? {
        assert |multiset(a.order)| == |a.order| && |multiset(s.requests[0].addrs)| == |s.requests[0].addrs|;
      }
    }
  }

  lemma {:induction false} BusyUpdate(ws: seq<Worker>, i: nat, w: Worker)
    requires i < |ws|
    ensures Busy(ws[i := w]) + Busy([ws[i]]) == Busy(ws) + Busy([w])
  {
    if i == 0 {
      assert ws[0 := w][1..] == ws[1..];
    } else {
      BusyUpdate(ws[1..], i - 1, w);
      assert ws[i := w][1..] == ws[1..][i - 1 := w];
    }
  }

  lemma InternalKeepsOutstanding(c: Codec, s: State, a: Action)
    requires Inv(c, s) && Enabled(c, s, a) && Internal(a) && !s.coordinator.Received?
    ensures Outstanding(Apply(c, s, a)) <= Outstanding(s) && !Apply(c, s, a).coordinator.Received?
  {
    var t := Apply(c, s, a);
    if IsWorkers(a) && t.fault == NoFault {
      BusyUpdate(s.workers, a.w, t.workers[a.w]);
      assert t.workers == s.workers[a.w := t.workers[a.w]];
    }
  }

  /**
   With at most 3n requests outstanding and no new ones, every run is bounded, never panics, and cannot stop
   before everything has been published or lost.
   */
  lemma {:induction false} Drains(c: Codec, s: State, actions: seq<Action>, t: State)
    requires Inv(c, s) && Welcome(c, s) && s.n > 0 && s.fault == NoFault && !s.coordinator.Received?
    requires Outstanding(s) <= 3 * s.n
    requires Run(c, s, actions, t) && forall a :: a in actions ==> Internal(a)
    ensures |actions| <= Work(s) && t.fault == NoFault
    ensures Outstanding(t) > 0 ==> CoordinatorCanStep(c, t) || exists w: nat :: WorkerCanStep(c, t, w)
    decreases |actions|
  {
    if actions == [] {
      if Outstanding(t) > 0 {
        Progress(c, t);
      }
    } else {
      var a := actions[0];
      assert Internal(a);
      StepKeepsInv(c, s, a);
      StepKeepsBounded(c, s, a);
      StepStaysWelcome(c, s, a);
      InternalStepsEnd(c, s, a);
      InternalKeepsOutstanding(c, s, a);
      assert forall b :: b in actions[1..] ==> b in actions;
      Drains(c, Apply(c, s, a), actions[1..], t);
    }
  }

  // ----- the bound is exact

  lemma {:induction false} RunAppend(c: Codec, s: State, actions: seq<Action>, t: State, a: Action)
    requires Run(c, s, actions, t) && Enabled(c, t, a)
    ensures Run(c, s, actions + [a], Apply(c, t, a))
    decreases |actions|
  {
    if actions == [] {
      assert [] + [a] == [a] && [a][1..] == [];
    } else {
      RunAppend(c, Apply(c, s, actions[0]), actions[1..], t, a);
      assert (actions + [a])[1..] == actions[1..] + [a];
    }
  }

  lemma Extend(c: Codec, n: nat, s: State, a: Action)
    requires Reachable(c, n, s) && Enabled(c, s, a)
    ensures Reachable(c, n, Apply(c, s, a))
  {
    var actions :| Run(c, Initial(n), actions, s);
    RunAppend(c, Initial(n), actions, s, a);
  }

  /** With one address each. */
  function RequestFor(job: Fetched): Request {
    Request(job.id, [[]])
  }

  function IdsOf(jobs: seq<Fetched>): set<Id> {
    set i | 0 <= i < |jobs| :: jobs[i].id
  }

  function QueuedRequests(n: nat, m: nat): nat {
    if m <= 2 * n then 0 else if m <= 3 * n then m - 2 * n else n
  }

  /** n results queued back, n with the workers, n queued, and one being handed out: as far as m jobs go. */
  function Filled(n: nat, jobs: seq<Fetched>, m: nat): State
    requires m <= |jobs| == 3 * n + 1
  {
    State(
      n,
      if m <= 3 * n then Selecting else HandingOut(RequestFor(jobs[3 * n])),
      seq(n, i requires 0 <= i < n => if n + i < m then Sending(jobs[n + i]) else Idle),
      seq(QueuedRequests(n, m), i requires 0 <= i < n => RequestFor(jobs[2 * n + i])),
      jobs[..if m <= n then m else n],
      IdsOf(jobs[..m]),
      map id | id in IdsOf(jobs[..m]) :: Entry(None, None, 0),
      IdsOf(jobs[..m]), {}, {}, NoFault)
  }

  ghost predicate Jobs(c: Codec, n: nat, jobs: seq<Fetched>) {
    && |jobs| == 3 * n + 1
    && (forall i, j :: 0 <= i < j < |jobs| ==> jobs[i].id != jobs[j].id)
    && forall i :: 0 <= i < |jobs| ==> c.valid(jobs[i].id) && Good(c, jobs[i])
  }

  ghost function Accepted(s: State, id: Id): State {
    s.(ifrs := s.ifrs + {id}, cache := s.cache[id := Entry(None, None, 0)], inserted := s.inserted + {id})
  }

  lemma ReceiveAndInsert(c: Codec, n: nat, s: State, req: Request)
    requires Reachable(c, n, s) && s.coordinator.Selecting? && s.fault == NoFault && req.id !in s.cache
    ensures Reachable(c, n, Accepted(s, req.id).(coordinator := HandingOut(req)))
  {
    Extend(c, n, s, Receive(req));
    Extend(c, n, s.(coordinator := Received(req)), Insert);
  }

  lemma HandOutTo(c: Codec, n: nat, s: State, req: Request)
    requires Reachable(c, n, s.(coordinator := HandingOut(req))) && s.coordinator.Selecting? && s.fault == NoFault
    requires |s.requests| < s.n
    ensures Reachable(c, n, s.(requests := s.requests + [req]))
  {
    Extend(c, n, s.(coordinator := HandingOut(req)), HandOut);
    assert s.(requests := s.requests + [req]) ==
           s.(coordinator := HandingOut(req)).(coordinator := Selecting, requests := s.requests + [req]);
  }

  lemma FetchedBy(c: Codec, n: nat, s: State, w: nat, job: Fetched)
    requires Reachable(c, n, s) && s.fault == NoFault && s.requests == [RequestFor(job)]
    requires w < |s.workers| && s.workers[w].Idle? && c.valid(job.id) && Good(c, job)
    ensures Reachable(c, n, s.(requests := [], workers := s.workers[w := Sending(job)]))
  {
    Extend(c, n, s, WorkerTake(w, [[]]));
    var taken := s.(requests := [], workers := s.workers[w := Fetching(RequestFor(job))]);
    assert Apply(c, s, WorkerTake(w, [[]])) == taken;
    Extend(c, n, taken, WorkerFetches(w, job.txs, job.raw));
    assert taken.workers[w := Sending(job)] == s.workers[w := Sending(job)];
  }

  lemma SentBack(c: Codec, n: nat, s: State, w: nat, job: Fetched)
    requires w < |s.workers| && s.workers[w].Idle? && |s.results| < s.n
    requires Reachable(c, n, s.(workers := s.workers[w := Sending(job)])) && s.fault == NoFault
    ensures Reachable(c, n, s.(results := s.results + [job]))
  {
    var sending := s.(workers := s.workers[w := Sending(job)]);
    Extend(c, n, sending, WorkerSends(w));
    assert sending.workers[w := Idle] == s.workers;
  }

  /** Accepting one more job brings in its ID and nothing else. */
  lemma FilledIds(n: nat, jobs: seq<Fetched>, m: nat)
    requires m < |jobs| == 3 * n + 1
    requires forall i, j :: 0 <= i < j < |jobs| ==> jobs[i].id != jobs[j].id
    ensures jobs[m].id !in Filled(n, jobs, m).cache
    ensures var s, t := Accepted(Filled(n, jobs, m), jobs[m].id), Filled(n, jobs, m + 1);
            s.ifrs == t.ifrs && s.cache == t.cache && s.inserted == t.inserted
  {
    var before, after := jobs[..m], jobs[..m + 1];
    assert forall i :: 0 <= i < m ==> before[i] == jobs[i] == after[i];
    assert after[m] == jobs[m];
    assert IdsOf(after) == IdsOf(before) + {jobs[m].id} by {
      forall id | id in IdsOf(after) ensures id in IdsOf(before) + {jobs[m].id} {
        var i :| 0 <= i < |after| && after[i].id == id;
        assert i < m ==> before[i].id == id;
      }
      forall id | id in IdsOf(before) ensures id in IdsOf(after) {
        var i :| 0 <= i < |before| && before[i].id == id;
        assert after[i].id == id;
      }
    }
  }

  lemma {:induction false} FilledReachable(c: Codec, n: nat, jobs: seq<Fetched>, m: nat)
    requires Jobs(c, n, jobs) && n > 0 && m <= |jobs|
    ensures Reachable(c, n, Filled(n, jobs, m))
    decreases m
  {
    if m == 0 {
      assert Filled(n, jobs, 0) == Initial(n);
      assert Run(c, Initial(n), [], Initial(n));
    } else {
      FilledReachable(c, n, jobs, m - 1);
      FillOne(c, n, jobs, m - 1);
    }
  }

  lemma FillOne(c: Codec, n: nat, jobs: seq<Fetched>, m: nat)
    requires Jobs(c, n, jobs) && n > 0 && m < |jobs|
    requires Reachable(c, n, Filled(n, jobs, m))
    ensures Reachable(c, n, Filled(n, jobs, m + 1))
  {
    var s, t, req := Filled(n, jobs, m), Filled(n, jobs, m + 1), RequestFor(jobs[m]);
    FilledIds(n, jobs, m);
    ReceiveAndInsert(c, n, s, req);
    var s1 := Accepted(s, req.id);
    if m == 3 * n {
      FilledLast(n, jobs);
    } else {
      HandOutTo(c, n, s1, req);
      if m >= 2 * n {
        FilledThird(n, jobs, m);
      } else {
        var w := if m < n then 0 else m - n;
        var s2 := s1.(requests := s1.requests + [req]);
        assert s2.requests == [req];
        FetchedBy(c, n, s2, w, jobs[m]);
        if m < n {
          assert s2.(requests := []) == s1;
          SentBack(c, n, s1, w, jobs[m]);
          FilledFirst(n, jobs, m);
        } else {
          FilledSecond(n, jobs, m);
        }
      }
    }
  }

  lemma FilledFirst(n: nat, jobs: seq<Fetched>, m: nat)
    requires |jobs| == 3 * n + 1 && m < n
    ensures var s, t := Filled(n, jobs, m), Filled(n, jobs, m + 1);
            && t.workers == s.workers && t.requests == s.requests && t.coordinator == s.coordinator
            && t.results == s.results + [jobs[m]]
  {
  }

  lemma FilledSecond(n: nat, jobs: seq<Fetched>, m: nat)
    requires |jobs| == 3 * n + 1 && n <= m < 2 * n
    ensures var s, t := Filled(n, jobs, m), Filled(n, jobs, m + 1);
            && t.workers == s.workers[m - n := Sending(jobs[m])] && t.requests == s.requests == []
            && t.coordinator == s.coordinator && t.results == s.results
  {
  }

  lemma FilledThird(n: nat, jobs: seq<Fetched>, m: nat)
    requires |jobs| == 3 * n + 1 && 2 * n <= m < 3 * n
    ensures var s, t := Filled(n, jobs, m), Filled(n, jobs, m + 1);
            && t.workers == s.workers && t.requests == s.requests + [RequestFor(jobs[m])]
            && t.coordinator == s.coordinator && t.results == s.results
  {
  }

  lemma FilledLast(n: nat, jobs: seq<Fetched>)
    requires |jobs| == 3 * n + 1
    ensures var s, t := Filled(n, jobs, 3 * n), Filled(n, jobs, 3 * n + 1);
            && t.workers == s.workers && t.requests == s.requests
            && t.coordinator == HandingOut(RequestFor(jobs[3 * n])) && t.results == s.results
  {
  }

  /** Whatever the number of workers, 3n+1 requests for available data can deadlock them. */
  lemma DeadlockReachable(c: Codec, n: nat, jobs: seq<Fetched>) returns (s: State)
    requires Jobs(c, n, jobs) && n > 0
    ensures Reachable(c, n, s) && Deadlocked(c, s) && Outstanding(s) == 3 * n + 1
  {
    s := Filled(n, jobs, 3 * n + 1);
    FilledReachable(c, n, jobs, 3 * n + 1);
    var actions :| Run(c, Initial(n), actions, s);
    InitialInv(c, n);
    RunKeepsInv(c, Initial(n), actions, s);
    DeadlockedShape(c, s);
    DeadlockBound(c, s);
  }
}
