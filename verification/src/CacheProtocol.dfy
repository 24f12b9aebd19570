/** Requests, recomputations and sweeps around the generation-versioned cache, interleaved step by step. A
    Valkey operation is one atomic step, and so is a database transaction; any cache call may fail. */
module CacheProtocol {
  import opened CacheKeys

  /** `answer(v, key)`: the response computed from the database as of commit number v. */
  datatype Service = Service(prefix: string, answer: (nat, string) -> string)

  /** A response and, for bookkeeping, the commit it was computed from. */
  datatype Response = Response(value: string, version: nat)

  /** A request between its awaits. */
  datatype Request =
    | Begun(key: string)
    | Asked(key: string, generation: nat)
    | Missed(key: string, generation: nat)
    | Loaded(key: string, generation: nat, response: Response)
    | Finished

  datatype Served = Served(id: nat, key: string, generation: nat, response: Response)

  /** `bumps[g]` is the commit number when generation g was created; `sweeps` maps a running sweep to the
      generation it created. */
  datatype State = State(
    store: map<string, Response>, version: nat, bumps: seq<nat>,
    requests: map<nat, Request>, sweeps: map<nat, nat>, served: seq<Served>)

  datatype Action =
    | Begin(id: nat, key: string)
    | ReadGeneration(id: nat)
    | FailGeneration(id: nat)
    | Hit(id: nat)
    | Miss(id: nat)
    | ReadDatabase(id: nat)
    | Store(id: nat)
    | FailStore(id: nat)
    | Commit
    | Bump(sweep: nat)
    | Delete(sweep: nat, key: string)
    | Expire(key: string)
    | Foreign(key: string, response: Response)

  function Initial(): State {
    State(map[], 0, [0], map[], map[], [])
  }

  function Current(st: State): nat
    requires st.bumps != []
  {
    |st.bumps| - 1
  }

  /** The commit number at the newest bump. */
  function Newest(st: State): nat
    requires st.bumps != []
  {
    st.bumps[Current(st)]
  }

  /** The response is sent: from the cache, or freshly loaded. */
  function Finish(st: State, id: nat, r: Served): State {
    st.(requests := st.requests[id := Finished], served := st.served + [r])
  }

  predicate Enabled(sv: Service, st: State, a: Action)
    requires st.bumps != []
  {
    match a
    case Begin(id, _) => id !in st.requests
    case ReadGeneration(id) => id in st.requests && st.requests[id].Begun?
    case FailGeneration(id) => id in st.requests && st.requests[id].Begun?
    case Hit(id) =>
      id in st.requests && st.requests[id].Asked?
      && VersionedKey(sv.prefix, st.requests[id].key, st.requests[id].generation) in st.store
    case Miss(id) => id in st.requests && st.requests[id].Asked?
    case ReadDatabase(id) => id in st.requests && st.requests[id].Missed?
    case Store(id) => id in st.requests && st.requests[id].Loaded?
    case FailStore(id) => id in st.requests && st.requests[id].Loaded?
    case Commit => true
    case Bump(sweep) => sweep !in st.sweeps
    case Delete(sweep, key) => sweep in st.sweeps && key in st.store && Swept(sv.prefix, st.sweeps[sweep], key)
    case Expire(key) => key in st.store
    case Foreign(key, _) => !IsVersioned(sv.prefix, key)
  }

  function Ask(st: State, id: nat, generation: nat): State
    requires id in st.requests && st.requests[id].Begun?
  {
    st.(requests := st.requests[id := Asked(st.requests[id].key, generation)])
  }

  function ServeHit(sv: Service, st: State, id: nat): State
    requires id in st.requests && st.requests[id].Asked?
    requires VersionedKey(sv.prefix, st.requests[id].key, st.requests[id].generation) in st.store
  {
    var r := st.requests[id];
    Finish(st, id, Served(id, r.key, r.generation, st.store[VersionedKey(sv.prefix, r.key, r.generation)]))
  }

  function Load(sv: Service, st: State, id: nat): State
    requires id in st.requests && st.requests[id].Missed?
  {
    var r := st.requests[id];
    var response := Response(sv.answer(st.version, RemovePrefix(r.key, CACHE)), st.version);
    st.(requests := st.requests[id := Loaded(r.key, r.generation, response)])
  }

  function ServeLoaded(sv: Service, st: State, id: nat, stored: bool): State
    requires id in st.requests && st.requests[id].Loaded?
  {
    var r := st.requests[id];
    var st' := if stored then st.(store := st.store[VersionedKey(sv.prefix, r.key, r.generation) := r.response]) else st;
    Finish(st', id, Served(id, r.key, r.generation, r.response))
  }

  function Step(sv: Service, st: State, a: Action): State
    requires st.bumps != [] && Enabled(sv, st, a)
  {
    match a
    case Begin(id, key) => st.(requests := st.requests[id := Begun(key)])
    case ReadGeneration(id) => Ask(st, id, Current(st))
    case FailGeneration(id) => Ask(st, id, 0)
    case Hit(id) => ServeHit(sv, st, id)
    case Miss(id) => st.(requests := st.requests[id := Missed(st.requests[id].key, st.requests[id].generation)])
    case ReadDatabase(id) => Load(sv, st, id)
    case Store(id) => ServeLoaded(sv, st, id, true)
    case FailStore(id) => ServeLoaded(sv, st, id, false)
    case Commit => st.(version := st.version + 1)
    case Bump(sweep) => st.(bumps := st.bumps + [st.version], sweeps := st.sweeps[sweep := |st.bumps|])
    case Delete(_, key) => st.(store := st.store - {key})
    case Expire(key) => st.(store := st.store - {key})
    case Foreign(key, response) => st.(store := st.store[key := response])
  }

  /** The actions, each enabled when it is taken, lead from `st` to `end`. */
  ghost predicate Leads(sv: Service, st: State, run: seq<Action>, end: State)
    decreases |run|
  {
    if run == [] then end == st
    else st.bumps != [] && Enabled(sv, st, run[0]) && Leads(sv, Step(sv, st, run[0]), run[1..], end)
  }

  /** A run: the actions taken from the start. */
  ghost predicate Run(sv: Service, run: seq<Action>, st: State) {
    Leads(sv, Initial(), run, st)
  }

  lemma {:induction false} LeadsOn(sv: Service, st: State, run: seq<Action>, mid: State, more: seq<Action>, end: State)
    requires Leads(sv, st, run, mid) && Leads(sv, mid, more, end)
    ensures Leads(sv, st, run + more, end)
    decreases |run|
  {
    if run == [] {
      assert run + more == more;
    } else {
      LeadsOn(sv, Step(sv, st, run[0]), run[1..], mid, more, end);
      assert (run + more)[1..] == run[1..] + more;
    }
  }

  /** One action more. */
  lemma Extended(sv: Service, st: State, run: seq<Action>, before: State, a: Action) returns (more: seq<Action>, end: State)
    requires Leads(sv, st, run, before) && before.bumps != [] && Enabled(sv, before, a)
    ensures more == run + [a] && end == Step(sv, before, a) && Leads(sv, st, more, end)
  {
    more, end := run + [a], Step(sv, before, a);
    assert Leads(sv, end, [a][1..], end);
    LeadsOn(sv, st, run, before, [a], end);
  }

  // ---- The invariant ----

  /** The response answers `key` from a commit no older than the bump that created the generation. */
  predicate Fresh(sv: Service, st: State, key: string, generation: nat, r: Response) {
    && generation < |st.bumps| && st.bumps[generation] <= r.version <= st.version
    && r.value == sv.answer(r.version, RemovePrefix(key, CACHE))
  }

  ghost predicate StoreFresh(sv: Service, st: State) {
    forall key, generation: nat {:trigger VersionedKey(sv.prefix, key, generation)} ::
      VersionedKey(sv.prefix, key, generation) in st.store ==>
        Fresh(sv, st, key, generation, st.store[VersionedKey(sv.prefix, key, generation)])
  }

  predicate BumpsRise(bumps: seq<nat>) {
    bumps != [] && bumps[0] == 0 && forall i, j :: 0 <= i <= j < |bumps| ==> bumps[i] <= bumps[j]
  }

  predicate RequestSound(sv: Service, st: State, r: Request) {
    && (r.Asked? || r.Missed? ==> r.generation < |st.bumps|)
    && (r.Loaded? ==> Fresh(sv, st, r.key, r.generation, r.response))
  }

  predicate RequestsSound(sv: Service, st: State) {
    forall id :: id in st.requests ==> RequestSound(sv, st, st.requests[id])
  }

  predicate ServedFresh(sv: Service, st: State, r: Served) {
    Fresh(sv, st, r.key, r.generation, r.response) && r.id in st.requests && st.requests[r.id].Finished?
  }

  /** A served response was fresh, and its request is over. */
  predicate ServedSound(sv: Service, st: State) {
    forall i :: 0 <= i < |st.served| ==> ServedFresh(sv, st, st.served[i])
  }

  ghost predicate Inv(sv: Service, st: State) {
    && BumpsRise(st.bumps) && Newest(st) <= st.version
    && StoreFresh(sv, st) && RequestsSound(sv, st) && ServedSound(sv, st)
  }

  /** Commits and bumps only add, and a request that is over stays over. */
  predicate Grows(st: State, st': State) {
    && st.bumps <= st'.bumps && st.version <= st'.version
    && forall id :: id in st.requests && st.requests[id].Finished? ==> id in st'.requests && st'.requests[id].Finished?
  }

  lemma FreshLasts(sv: Service, st: State, st': State, key: string, generation: nat, r: Response)
    requires Grows(st, st') && Fresh(sv, st, key, generation, r)
    ensures Fresh(sv, st', key, generation, r)
  {
    assert st'.bumps[generation] == st.bumps[generation];
  }

  lemma StoreFreshLasts(sv: Service, st: State, st': State)
    requires Grows(st, st') && StoreFresh(sv, st)
    requires forall k :: k in st'.store && IsVersioned(sv.prefix, k) ==> k in st.store && st'.store[k] == st.store[k]
    ensures StoreFresh(sv, st')
  {
    forall key, generation: nat {:trigger VersionedKey(sv.prefix, key, generation)} | VersionedKey(sv.prefix, key, generation) in st'.store
      ensures Fresh(sv, st', key, generation, st'.store[VersionedKey(sv.prefix, key, generation)]) {
      VersionedLooksVersioned(sv.prefix, key, generation);
      FreshLasts(sv, st, st', key, generation, st.store[VersionedKey(sv.prefix, key, generation)]);
    }
  }

  lemma RequestsLast(sv: Service, st: State, st': State, id: nat)
    requires Grows(st, st') && RequestsSound(sv, st) && st'.requests.Keys == st.requests.Keys + {id}
    requires forall other :: other in st.requests && other != id ==> st'.requests[other] == st.requests[other]
    requires RequestSound(sv, st', st'.requests[id])
    ensures RequestsSound(sv, st')
  {
    forall other | other in st'.requests ensures RequestSound(sv, st', st'.requests[other]) {
      if other != id {
        assert RequestSound(sv, st, st.requests[other]);
      }
    }
  }

  lemma ServedLasts(sv: Service, st: State, st': State)
    requires Grows(st, st') && ServedSound(sv, st) && st.served <= st'.served
    requires forall i :: |st.served| <= i < |st'.served| ==> ServedFresh(sv, st', st'.served[i])
    ensures ServedSound(sv, st')
  {
    forall i | 0 <= i < |st'.served| ensures ServedFresh(sv, st', st'.served[i]) {
      if i < |st.served| {
        assert ServedFresh(sv, st, st.served[i]);
        FreshLasts(sv, st, st', st.served[i].key, st.served[i].generation, st.served[i].response);
      }
    }
  }

  lemma StoredFresh(sv: Service, st: State, r: Request, store: map<string, Response>)
    requires r.Loaded? && StoreFresh(sv, st) && RequestSound(sv, st, r)
    requires store == st.store[VersionedKey(sv.prefix, r.key, r.generation) := r.response]
    ensures StoreFresh(sv, st.(store := store))
  {
    var st', mine := st.(store := store), VersionedKey(sv.prefix, r.key, r.generation);
    forall key, generation: nat {:trigger VersionedKey(sv.prefix, key, generation)} | VersionedKey(sv.prefix, key, generation) in store
      ensures Fresh(sv, st', key, generation, store[VersionedKey(sv.prefix, key, generation)]) {
      if VersionedKey(sv.prefix, key, generation) == mine {
        VersionedKeyInjective(sv.prefix, key, generation, r.key, r.generation);
      } else {
        FreshLasts(sv, st, st', key, generation, st.store[VersionedKey(sv.prefix, key, generation)]);
      }
    }
  }

  lemma ServeKeeps(sv: Service, st: State, a: Action)
    requires Inv(sv, st) && Enabled(sv, st, a) && (a.Hit? || a.Store? || a.FailStore?)
    ensures Inv(sv, Step(sv, st, a))
  {
    var st', r := Step(sv, st, a), st.requests[a.id];
    assert RequestSound(sv, st, r);
    if a.Store? {
      var store := st.store[VersionedKey(sv.prefix, r.key, r.generation) := r.response];
      StoredFresh(sv, st, r, store);
      StoreFreshLasts(sv, st.(store := store), st');
    } else {
      StoreFreshLasts(sv, st, st');
    }
    RequestsLast(sv, st, st', a.id);
    ServedLasts(sv, st, st');
  }

  lemma RequestKeeps(sv: Service, st: State, a: Action)
    requires Inv(sv, st) && Enabled(sv, st, a)
    requires a.Begin? || a.ReadGeneration? || a.FailGeneration? || a.Miss? || a.ReadDatabase?
    ensures Inv(sv, Step(sv, st, a))
  {
    var st' := Step(sv, st, a);
    if !a.Begin? {
      assert RequestSound(sv, st, st.requests[a.id]);
    }
    StoreFreshLasts(sv, st, st');
    RequestsLast(sv, st, st', a.id);
    ServedLasts(sv, st, st');
  }

  lemma EnvironmentKeeps(sv: Service, st: State, a: Action)
    requires Inv(sv, st) && Enabled(sv, st, a)
    requires a.Commit? || a.Bump? || a.Delete? || a.Expire? || a.Foreign?
    ensures Inv(sv, Step(sv, st, a))
  {
    var st' := Step(sv, st, a);
    StoreFreshLasts(sv, st, st');
    forall id | id in st'.requests ensures RequestSound(sv, st', st'.requests[id]) {
      assert RequestSound(sv, st, st.requests[id]);
    }
    ServedLasts(sv, st, st');
  }

  lemma StepKeeps(sv: Service, st: State, a: Action)
    requires Inv(sv, st) && Enabled(sv, st, a)
    ensures Inv(sv, Step(sv, st, a))
  {
    if a.Hit? || a.Store? || a.FailStore? {
      ServeKeeps(sv, st, a);
    } else if a.Commit? || a.Bump? || a.Delete? || a.Expire? || a.Foreign? {
      EnvironmentKeeps(sv, st, a);
    } else {
      RequestKeeps(sv, st, a);
    }
  }

  lemma {:induction false} LeadsKeeps(sv: Service, st: State, run: seq<Action>, end: State)
    requires Inv(sv, st) && Leads(sv, st, run, end)
    ensures Inv(sv, end)
    decreases |run|
  {
    if run != [] {
      StepKeeps(sv, st, run[0]);
      LeadsKeeps(sv, Step(sv, st, run[0]), run[1..], end);
    }
  }

  /** Every reachable state satisfies the invariant. */
  lemma RunKeeps(sv: Service, run: seq<Action>, st: State)
    requires Run(sv, run, st)
    ensures Inv(sv, st)
  {
    LeadsKeeps(sv, Initial(), run, st);
  }

  // ---- What it gives ----

  /** In any interleaving, a served response was computed from a commit no older than the bump that created the
      generation its request used. */
  lemma ServedReflectsBump(sv: Service, run: seq<Action>, st: State, i: nat)
    requires Run(sv, run, st) && i < |st.served|
    ensures var s := st.served[i];
      && s.generation < |st.bumps| && st.bumps[s.generation] <= s.response.version <= st.version
      && s.response.value == sv.answer(s.response.version, RemovePrefix(s.key, CACHE))
  {
    RunKeeps(sv, run, st);
    assert ServedFresh(sv, st, st.served[i]);
  }

  /** Request `id` asks for `key` in `generation`, and whatever it was served, it was served that. */
  predicate Tracks(st: State, id: nat, key: string, generation: nat) {
    && id in st.requests
    && (var r := st.requests[id]; r.Finished? || (!r.Begun? && r.key == key && r.generation == generation))
    && forall i :: 0 <= i < |st.served| && st.served[i].id == id ==> st.served[i].key == key && st.served[i].generation == generation
  }

  lemma StepTracks(sv: Service, st: State, a: Action, id: nat, key: string, generation: nat)
    requires st.bumps != [] && Enabled(sv, st, a) && Tracks(st, id, key, generation)
    ensures Tracks(Step(sv, st, a), id, key, generation)
  {
  }

  lemma {:induction false} TracksOn(sv: Service, st: State, run: seq<Action>, end: State, id: nat, key: string, generation: nat)
    requires Tracks(st, id, key, generation) && Leads(sv, st, run, end)
    ensures Tracks(end, id, key, generation)
    decreases |run|
  {
    if run != [] {
      StepTracks(sv, st, run[0], id, key, generation);
      TracksOn(sv, Step(sv, st, run[0]), run[1..], end, id, key, generation);
    }
  }

  lemma {:induction false} BumpsLast(sv: Service, st: State, run: seq<Action>, end: State)
    requires Leads(sv, st, run, end)
    ensures st.bumps <= end.bumps
    decreases |run|
  {
    if run != [] {
      BumpsLast(sv, Step(sv, st, run[0]), run[1..], end);
    }
  }

  lemma AskedTracks(sv: Service, st: State, id: nat, generation: nat)
    requires Inv(sv, st) && id in st.requests && st.requests[id].Begun?
    ensures Tracks(Ask(st, id, generation), id, st.requests[id].key, generation)
  {
    forall i | 0 <= i < |st.served| ensures st.served[i].id != id {
      assert ServedFresh(sv, st, st.served[i]);
    }
  }

  /** A request that reads the generation now is answered, in every continuation, from a commit no older than the
      newest bump there is now. */
  lemma AnsweredSinceNewest(sv: Service, run: seq<Action>, st: State, id: nat, more: seq<Action>, end: State, i: nat)
    requires Run(sv, run, st) && st.bumps != [] && Enabled(sv, st, ReadGeneration(id))
    requires Leads(sv, Step(sv, st, ReadGeneration(id)), more, end) && i < |end.served| && end.served[i].id == id
    ensures var s := end.served[i];
      && s.key == st.requests[id].key && s.response.value == sv.answer(s.response.version, RemovePrefix(s.key, CACHE))
      && forall g :: 0 <= g < |st.bumps| ==> st.bumps[g] <= s.response.version
  {
    RunKeeps(sv, run, st);
    AskedTracks(sv, st, id, Current(st));
    TracksOn(sv, Step(sv, st, ReadGeneration(id)), more, end, id, st.requests[id].key, Current(st));
    var whole, asked := Extended(sv, Initial(), run, st, ReadGeneration(id));
    LeadsOn(sv, Initial(), whole, asked, more, end);
    ServedReflectsBump(sv, whole + more, end, i);
    BumpsLast(sv, asked, more, end);
    assert end.bumps[Current(st)] == Newest(st);
  }

  /** A sweep's deletions leave every entry of the generation it created, and every key of another shape. */
  lemma SweepLeaves(sv: Service, st: State, sweep: nat, key: string, kept: string)
    requires st.bumps != [] && Enabled(sv, st, Delete(sweep, key)) && kept in st.store
    requires !IsVersioned(sv.prefix, kept) || exists k :: kept == VersionedKey(sv.prefix, k, st.sweeps[sweep])
    ensures kept in Step(sv, st, Delete(sweep, key)).store
  {
    if exists k :: kept == VersionedKey(sv.prefix, k, st.sweeps[sweep]) {
      var k :| kept == VersionedKey(sv.prefix, k, st.sweeps[sweep]);
      SweepSparesOwn(sv.prefix, k, st.sweeps[sweep], st.sweeps[sweep]);
    }
  }

  // ---- When the generation cannot be read ----

  predicate SameEntry(key: string, other: string) {
    RemovePrefix(key, CACHE) == RemovePrefix(other, CACHE)
  }

  predicate LoadedStale(r: Request, key: string, newest: nat) {
    r.Loaded? && r.generation == 0 && SameEntry(r.key, key) && r.response.version < newest
  }

  /** A response of generation 0 for `key` from a commit before number `newest` is in the cache, or still to be
      stored by a request that fell back to generation 0 or read it. */
  predicate HoldsStale(sv: Service, st: State, key: string, newest: nat) {
    || (VersionedKey(sv.prefix, key, 0) in st.store && st.store[VersionedKey(sv.prefix, key, 0)].version < newest)
    || exists other :: other in st.requests && LoadedStale(st.requests[other], key, newest)
  }

  predicate ServedStale(st: State, id: nat, newest: nat) {
    exists i :: 0 <= i < |st.served| && st.served[i].id == id && st.served[i].response.version < newest
  }

  /** In some continuation request `id` is served a response from a commit before number `newest`. */
  ghost predicate CanBeServedStale(sv: Service, st: State, id: nat, newest: nat) {
    exists more, end :: Leads(sv, st, more, end) && ServedStale(end, id, newest)
  }

  predicate NoneServedStale(st: State, id: nat, newest: nat) {
    forall i :: 0 <= i < |st.served| && st.served[i].id == id ==> st.served[i].response.version >= newest
  }

  lemma StoredNotStale(sv: Service, st: State, id: nat, key: string, newest: nat)
    requires id in st.requests && st.requests[id].Loaded? && !HoldsStale(sv, st, key, newest)
    ensures var store := ServeLoaded(sv, st, id, true).store;
      VersionedKey(sv.prefix, key, 0) in store ==> store[VersionedKey(sv.prefix, key, 0)].version >= newest
  {
    var r := st.requests[id];
    assert !LoadedStale(r, key, newest);
    if VersionedKey(sv.prefix, r.key, r.generation) == VersionedKey(sv.prefix, key, 0) {
      VersionedKeyInjective(sv.prefix, r.key, r.generation, key, 0);
    }
  }

  /** Nothing stale is held, and nothing stale can come to be held. */
  lemma StaleNeverComes(sv: Service, st: State, a: Action, id: nat, key: string, newest: nat)
    requires st.bumps != [] && Enabled(sv, st, a) && newest <= st.version && Tracks(st, id, key, 0)
    requires !HoldsStale(sv, st, key, newest) && NoneServedStale(st, id, newest)
    ensures !HoldsStale(sv, Step(sv, st, a), key, newest) && NoneServedStale(Step(sv, st, a), id, newest)
  {
    var st' := Step(sv, st, a);
    VersionedLooksVersioned(sv.prefix, key, 0);
    if a.Store? {
      StoredNotStale(sv, st, a.id, key, newest);
    }
    forall other | other in st'.requests ensures !LoadedStale(st'.requests[other], key, newest) {
      assert other in st.requests ==> !LoadedStale(st.requests[other], key, newest);
    }
    if (a.Hit? || a.Store? || a.FailStore?) && a.id == id {
      assert !LoadedStale(st.requests[id], key, newest);
    }
  }

  lemma {:induction false} StaysFresh(sv: Service, st: State, run: seq<Action>, end: State, id: nat, key: string, newest: nat)
    requires newest <= st.version && Tracks(st, id, key, 0) && Leads(sv, st, run, end)
    requires !HoldsStale(sv, st, key, newest) && NoneServedStale(st, id, newest)
    ensures NoneServedStale(end, id, newest)
    decreases |run|
  {
    if run != [] {
      var next := Step(sv, st, run[0]);
      StaleNeverComes(sv, st, run[0], id, key, newest);
      StepTracks(sv, st, run[0], id, key, 0);
      StaysFresh(sv, next, run[1..], end, id, key, newest);
    }
  }

  /** What is held stale can be served: straight from the cache, or once the other request has stored it. */
  lemma StaleIsServed(sv: Service, st: State, id: nat, newest: nat)
    requires st.bumps != [] && id in st.requests && st.requests[id].Asked? && st.requests[id].generation == 0
    requires HoldsStale(sv, st, st.requests[id].key, newest)
    ensures CanBeServedStale(sv, st, id, newest)
  {
    var key := st.requests[id].key;
    var run, mid := [], st;
    if !(VersionedKey(sv.prefix, key, 0) in st.store && st.store[VersionedKey(sv.prefix, key, 0)].version < newest) {
      var other :| other in st.requests && LoadedStale(st.requests[other], key, newest);
      run, mid := Extended(sv, st, [], st, Store(other));
    }
    var more, end := Extended(sv, st, run, mid, Hit(id));
    assert end.served[|mid.served|].id == id;
    assert ServedStale(end, id, newest);
  }

  lemma AskingHoldsSame(sv: Service, st: State, id: nat, key: string, newest: nat)
    requires id in st.requests && st.requests[id].Begun?
    ensures HoldsStale(sv, Ask(st, id, 0), key, newest) <==> HoldsStale(sv, st, key, newest)
  {
    var asked := Ask(st, id, 0);
    forall other ensures other in asked.requests && LoadedStale(asked.requests[other], key, newest)
                    <==> other in st.requests && LoadedStale(st.requests[other], key, newest) {
      assert other != id && other in st.requests ==> asked.requests[other] == st.requests[other];
    }
  }

  lemma AskedServedNothing(sv: Service, st: State, id: nat, newest: nat)
    requires Inv(sv, st) && id in st.requests && st.requests[id].Begun?
    ensures NoneServedStale(Ask(st, id, 0), id, newest)
  {
    forall i | 0 <= i < |st.served| ensures st.served[i].id != id {
      assert ServedFresh(sv, st, st.served[i]);
    }
  }

  /** Exactly when a request that cannot read the generation now can be served something older than the newest
      bump: when such a response of generation 0 is in the cache, or loaded and about to be stored there. */
  lemma FallbackStaleExactly(sv: Service, run: seq<Action>, st: State, id: nat)
    requires Run(sv, run, st) && st.bumps != [] && Enabled(sv, st, FailGeneration(id))
    ensures CanBeServedStale(sv, Step(sv, st, FailGeneration(id)), id, Newest(st)) <==> HoldsStale(sv, st, st.requests[id].key, Newest(st))
  {
    RunKeeps(sv, run, st);
    var key, newest, asked := st.requests[id].key, Newest(st), Step(sv, st, FailGeneration(id));
    AskedTracks(sv, st, id, 0);
    AskingHoldsSame(sv, st, id, key, newest);
    if HoldsStale(sv, st, key, newest) {
      StaleIsServed(sv, asked, id, newest);
    } else {
      AskedServedNothing(sv, st, id, newest);
      forall more, end | Leads(sv, asked, more, end) ensures !ServedStale(end, id, newest) {
        StaysFresh(sv, asked, more, end, id, key, newest);
      }
    }
  }

  // ---- Which histories of bumps allow it ----

  /** A state with the given bumps in which a request for `key` that fails to read the generation can be served
      something older than the newest bump. */
  ghost predicate StaleAmong(sv: Service, run: seq<Action>, st: State, id: nat, key: string, bumps: seq<nat>) {
    && Run(sv, run, st) && st.bumps == bumps != [] && Enabled(sv, st, FailGeneration(id)) && st.requests[id].key == key
    && CanBeServedStale(sv, Step(sv, st, FailGeneration(id)), id, Newest(st))
  }

  /** A response for `key` stored in generation 0 before the first commit. */
  lemma StoredEarly(sv: Service, key: string) returns (run: seq<Action>, st: State)
    ensures Run(sv, run, st) && st.version == 0 && st.bumps == [0] && st.sweeps == map[] && 1 !in st.requests
    ensures VersionedKey(sv.prefix, key, 0) in st.store && st.store[VersionedKey(sv.prefix, key, 0)].version == 0
  {
    var run0, st0 := Extended(sv, Initial(), [], Initial(), Begin(0, key));
    var run1, st1 := Extended(sv, Initial(), run0, st0, ReadGeneration(0));
    var run2, st2 := Extended(sv, Initial(), run1, st1, Miss(0));
    var run3, st3 := Extended(sv, Initial(), run2, st2, ReadDatabase(0));
    run, st := Extended(sv, Initial(), run3, st3, Store(0));
  }

  lemma {:induction false} Committed(sv: Service, run: seq<Action>, st: State, version: nat) returns (run': seq<Action>, st': State)
    requires Run(sv, run, st) && st.bumps != [] && st.version <= version
    ensures Run(sv, run', st') && st' == st.(version := version)
    decreases version
  {
    if st.version == version {
      run', st' := run, st;
    } else {
      var run1, st1 := Committed(sv, run, st, version - 1);
      run', st' := Extended(sv, Initial(), run1, st1, Commit);
    }
  }

  /** Any rising history of bumps can be played out by commits and bumps alone. */
  lemma {:induction false} Replayed(sv: Service, run: seq<Action>, st: State, bumps: seq<nat>, n: nat) returns (run': seq<Action>, st': State)
    requires Run(sv, run, st) && st.version == 0 && st.bumps == [0] && st.sweeps == map[]
    requires BumpsRise(bumps) && 1 <= n <= |bumps|
    ensures Run(sv, run', st') && st'.bumps == bumps[..n] && st'.version == bumps[n - 1]
    ensures st'.store == st.store && st'.requests == st.requests && forall k :: k in st'.sweeps ==> k < n
    decreases n
  {
    if n == 1 {
      run', st' := run, st;
    } else {
      var run1, st1 := Replayed(sv, run, st, bumps, n - 1);
      var run2, st2 := Committed(sv, run1, st1, bumps[n - 1]);
      run', st' := Extended(sv, Initial(), run2, st2, Bump(n - 1));
      assert bumps[..n] == bumps[..n - 1] + [bumps[n - 1]];
    }
  }

  /** For every history of bumps that can occur, and every key: a request that falls back can be served something
      older than the newest bump exactly when that bump followed a commit. */
  lemma FallbackHistories(sv: Service, key: string, run: seq<Action>, st: State)
    requires Run(sv, run, st) && st.bumps != []
    ensures (exists run', st', id :: StaleAmong(sv, run', st', id, key, st.bumps)) <==> Newest(st) > 0
  {
    RunKeeps(sv, run, st);
    if Newest(st) > 0 {
      var run1, st1 := StoredEarly(sv, key);
      var run2, st2 := Replayed(sv, run1, st1, st.bumps, |st.bumps|);
      var run3, st3 := Extended(sv, Initial(), run2, st2, Begin(1, key));
      FallbackStaleExactly(sv, run3, st3, 1);
      assert StaleAmong(sv, run3, st3, 1, key, st.bumps);
    }
    forall run', st', id | StaleAmong(sv, run', st', id, key, st.bumps) ensures Newest(st) > 0 {
      var more, end :| Leads(sv, Step(sv, st', FailGeneration(id)), more, end) && ServedStale(end, id, Newest(st'));
    }
  }

  // ---- One invalidation ----

  /** `invalidate_all`: bump, then scan page by page and delete what is stale. `bumped` says whether the INCR
      succeeds; `pages` is what the scan returns before it ends or fails, possibly a key more than once. */
  method InvalidateAll(prefix: string, store: map<string, string>, counter: nat, bumped: bool, pages: seq<seq<string>>)
    returns (store': map<string, string>, counter': nat)
    ensures !bumped ==> store' == store && counter' == counter
    ensures bumped ==> counter' == counter + 1
    ensures store'.Keys <= store.Keys && forall k :: k in store' ==> store'[k] == store[k]
    ensures bumped ==> forall k :: k in store ==>
      (k !in store' <==> Swept(prefix, counter', k) && exists p :: 0 <= p < |pages| && k in pages[p])
  {
    store', counter' := store, counter;
    if !bumped {
      return;
    }
    counter' := counter + 1;
    for p := 0 to |pages|
      invariant store'.Keys <= store.Keys && forall k :: k in store' ==> store'[k] == store[k]
      invariant forall k :: k in store ==> (k !in store' <==> Swept(prefix, counter', k) && exists q :: 0 <= q < p && k in pages[q])
    {
      var stale := set k | k in pages[p] && Swept(prefix, counter', k);
      store' := store' - stale;
    }
  }
}
