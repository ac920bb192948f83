/**
 The version-keyed route table of `ClusterRequestFailoverMiddleware` against concurrent changes of one
 `ConfigurationService`: readers look at the version without the lock and at the parts of the
 configuration under it, and a whole-configuration replacement bumps the version only later.
 */
module RouteTableCache {
  import opened Wrappers

  /** A server entry, and the domain names of that server. */
  type Server(==)
  type Domains(==)

  datatype Config = Config(server: Server, domains: Domains)

  /** A route table is determined by its version and the two parts it was built from. */
  datatype Table = Table(version: int, server: Server, domains: Domains)

  datatype Reader =
    | Idle
    | HasTable(cached: Option<Table>)
    | HasVersion(version: int)
    | HasServer(version: int, server: Server)
    | Built(table: Table)
    | Returned(table: Table)

  datatype State = State(
    config: Config,
    version: int,
    cache: Option<Table>,
    readers: map<int, Reader>,
    replacing: set<int>)          // `ReplaceConfig` calls between their two locks

  datatype Action =
    | Change(config: Config)      // add, update or delete: the change and the version in one lock
    | Replace(w: int, config: Config)
    | Bump(w: int)
    | Enter(r: int)
    | Advance(r: int)

  predicate Enabled(s: State, a: Action) {
    match a
    case Change(_) => true
    case Replace(w, _) => w !in s.replacing
    case Bump(w) => w in s.replacing
    case Enter(r) => r !in s.readers || s.readers[r].Idle? || s.readers[r].Returned?
    case Advance(r) => r in s.readers && !s.readers[r].Idle? && !s.readers[r].Returned?
  }

  /** One read or write of `GetRouteTable`. */
  function ReaderStep(s: State, p: Reader): (Reader, Option<Table>)
    requires !p.Idle? && !p.Returned?
  {
    match p
    case HasTable(cached) =>
      if cached.Some? && cached.value.version == s.version then (Returned(cached.value), s.cache)
      else (HasVersion(s.version), s.cache)
    case HasVersion(version) => (HasServer(version, s.config.server), s.cache)
    case HasServer(version, server) => (Built(Table(version, server, s.config.domains)), s.cache)
    case Built(table) => (Returned(table), Some(table))
  }

  function Apply(s: State, a: Action): State
    requires Enabled(s, a)
  {
    match a
    case Change(config) => s.(config := config, version := s.version + 1)
    case Replace(w, config) => s.(config := config, replacing := s.replacing + {w})
    case Bump(w) => s.(version := s.version + 1, replacing := s.replacing - {w})
    case Enter(r) => s.(readers := s.readers[r := HasTable(s.cache)])
    case Advance(r) =>
      var (p, cache) := ReaderStep(s, s.readers[r]);
      s.(readers := s.readers[r := p], cache := cache)
  }

  // ---------------------------------------------------------------- invariant

  /** A label is never ahead; one that is current belongs to current content unless a replacement is under way. */
  ghost predicate PartsOk(s: State, version: int, server: Option<Server>, domains: Option<Domains>) {
    && version <= s.version
    && (version == s.version && s.replacing == {} ==>
          (server.Some? ==> server.value == s.config.server) && (domains.Some? ==> domains.value == s.config.domains))
  }

  ghost predicate TableOk(s: State, t: Table) { PartsOk(s, t.version, Some(t.server), Some(t.domains)) }

  ghost predicate ReaderOk(s: State, p: Reader) {
    match p
    case Idle => true
    case HasTable(cached) => cached.Some? ==> TableOk(s, cached.value)
    case HasVersion(version) => PartsOk(s, version, None, None)
    case HasServer(version, server) => PartsOk(s, version, Some(server), None)
    case Built(table) => TableOk(s, table)
    case Returned(table) => TableOk(s, table)
  }

  ghost predicate Inv(s: State) {
    && (s.cache.Some? ==> TableOk(s, s.cache.value))
    && forall r {:trigger s.readers[r]} :: r in s.readers ==> ReaderOk(s, s.readers[r])
  }

  lemma ReaderKeeps(s: State, a: Action, p: Reader)
    requires Enabled(s, a) && ReaderOk(s, p)
    ensures ReaderOk(Apply(s, a), p)
  {
  }

  lemma StepKeeps(s: State, a: Action)
    requires Inv(s) && Enabled(s, a)
    ensures Inv(Apply(s, a))
  {
    var t := Apply(s, a);
    if s.cache.Some? { ReaderKeeps(s, a, Built(s.cache.value)); }
    forall r | r in t.readers ensures ReaderOk(t, t.readers[r]) {
      if r in s.readers { ReaderKeeps(s, a, s.readers[r]); }
      if a.Enter? && s.cache.Some? { ReaderKeeps(s, a, HasTable(s.cache)); }
    }
  }

  ghost predicate Run(states: seq<State>, actions: seq<Action>) {
    && |states| == |actions| + 1
    && states[0].cache == None && states[0].readers == map[] && states[0].replacing == {}
    && forall i {:trigger StepAt(states, actions, i)} :: 0 <= i < |actions| ==> StepAt(states, actions, i)
  }

  ghost predicate StepAt(states: seq<State>, actions: seq<Action>, i: nat)
    requires |states| == |actions| + 1
  {
    i < |actions| && Enabled(states[i], actions[i]) && states[i + 1] == Apply(states[i], actions[i])
  }

  lemma {:induction false} RunKeepsInv(states: seq<State>, actions: seq<Action>, i: nat)
    requires Run(states, actions) && i < |states|
    ensures Inv(states[i])
  {
    if i > 0 {
      RunKeepsInv(states, actions, i - 1);
      assert StepAt(states, actions, i - 1);
      StepKeeps(states[i - 1], actions[i - 1]);
    }
  }

  /** Whenever no replacement is under way, a cached table with the current version is the current table. */
  lemma CurrentVersionIsCurrentTable(states: seq<State>, actions: seq<Action>, i: nat)
    requires Run(states, actions) && i < |states| && states[i].replacing == {} && states[i].cache.Some?
    requires states[i].cache.value.version == states[i].version
    ensures states[i].cache == Some(Table(states[i].version, states[i].config.server, states[i].config.domains))
  {
    RunKeepsInv(states, actions, i);
  }

  /** The reads of one call from step `i` on; nobody else moves. */
  ghost predicate Alone(states: seq<State>, actions: seq<Action>, i: nat, j: nat, r: int) {
    i <= j < |states| && forall k :: i <= k < j && k < |actions| ==> actions[k] == Enter(r) || actions[k] == Advance(r)
  }

  /** At rest a single call returns the table of the present configuration, whatever was cached. */
  lemma CallAtRest(states: seq<State>, actions: seq<Action>, i: nat, j: nat, r: int)
    requires Run(states, actions) && Alone(states, actions, i, j, r) && i < j
    requires states[i].replacing == {} && actions[i] == Enter(r)
    requires r in states[j].readers && states[j].readers[r].Returned?
    requires forall k :: i < k < j ==> actions[k] == Advance(r)
    ensures states[j].readers[r].table ==
            Table(states[i].version, states[i].config.server, states[i].config.domains)
  {
    RunKeepsInv(states, actions, j);
    CallKeepsConfig(states, actions, i, j, r);
    CallUsesVersion(states, actions, i, j, r);
  }

  lemma {:induction false} CallKeepsConfig(states: seq<State>, actions: seq<Action>, i: nat, j: nat, r: int)
    requires Run(states, actions) && Alone(states, actions, i, j, r)
    ensures states[j].config == states[i].config && states[j].version == states[i].version
    ensures states[j].replacing == states[i].replacing
    decreases j
  {
    if i < j {
      CallKeepsConfig(states, actions, i, j - 1, r);
      assert StepAt(states, actions, j - 1);
    }
  }

  /** The version a reader works with. */
  ghost predicate WorksWith(p: Reader, version: int) {
    match p
    case Idle => true
    case HasTable(_) => true
    case HasVersion(v) => v == version
    case HasServer(v, _) => v == version
    case Built(t) => t.version == version
    case Returned(t) => t.version == version
  }

  lemma {:induction false} CallUsesVersion(states: seq<State>, actions: seq<Action>, i: nat, j: nat, r: int)
    requires Run(states, actions) && Alone(states, actions, i, j, r) && i < j && actions[i] == Enter(r)
    requires forall k :: i < k < j ==> actions[k] == Advance(r)
    ensures r in states[j].readers && WorksWith(states[j].readers[r], states[i].version)
    decreases j
  {
    assert StepAt(states, actions, j - 1);
    if i < j - 1 {
      CallUsesVersion(states, actions, i, j - 1, r);
      CallKeepsConfig(states, actions, i, j - 1, r);
    }
  }
}
