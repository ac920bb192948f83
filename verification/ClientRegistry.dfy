/**
 Registration of control connections: `AgentClientManager` (who is reachable under a name) and
 `TunnelClientProxy` (what the node registry shows), driven by the step order of
 `AgentManagerMiddleware.InvokeAsync`, over every interleaving of connections.
 */
module ClientRegistry {
  import opened Wrappers

  // ---------------------------------------------------------------- the manager and its lock bodies

  datatype ManagerState<K, C> = ManagerState(dictionary: map<K, C>, disposed: bool)

  predicate IsCurrent<K(==), C(==)>(m: ManagerState<K, C>, key: K, client: C) {
    key in m.dictionary && m.dictionary[key] == client
  }

  /** First lock body of `AddAsync`: returns the replaced client, or None of None when refused. */
  function Enter<K(==), C>(m: ManagerState<K, C>, key: K, client: C): (ManagerState<K, C>, Option<Option<C>>) {
    if m.disposed then (m, None)
    else
      (m.(dictionary := m.dictionary[key := client]),
       Some(if key in m.dictionary then Some(m.dictionary[key]) else None))
  }

  /** Lock body shared by the failure path of `AddAsync` and by `RemoveAsync`. */
  function Withdraw<K(==), C(==)>(m: ManagerState<K, C>, key: K, client: C): ManagerState<K, C> {
    if IsCurrent(m, key, client) then m.(dictionary := m.dictionary - {key}) else m
  }

  function DisposeManager<K, C>(m: ManagerState<K, C>): ManagerState<K, C> {
    if m.disposed then m else ManagerState(map[], true)
  }

  class AgentClient {
    const id: string
    constructor (id: string)
      ensures this.id == id
    {
      this.id := id;
    }
  }

  class AgentClientManager {
    var dictionary: map<string, AgentClient>
    var disposed: bool

    function View(): ManagerState<string, AgentClient>
      reads this
    {
      ManagerState(dictionary, disposed)
    }

    method EnterLocked(key: string, client: AgentClient) returns (added: bool, existing: AgentClient?)
      modifies this
      ensures View() == Enter(old(View()), key, client).0
      ensures match Enter(old(View()), key, client).1
        case None => !added && existing == null
        case Some(None) => added && existing == null
        case Some(Some(e)) => added && existing == e
      ensures (added <==> !old(disposed)) && disposed == old(disposed)
      ensures dictionary == if added then old(dictionary)[key := client] else old(dictionary)
      ensures existing == if added && key in old(dictionary) then old(dictionary)[key] else null
    {
      added, existing := false, null;
      if disposed { return; }
      if key in dictionary {
        existing := dictionary[key];
        dictionary := dictionary - {key};
      }
      dictionary := dictionary[key := client];
      assert dictionary == old(dictionary)[key := client];
      added := true;
    }

    method WithdrawLocked(key: string, client: AgentClient) returns (removed: bool)
      modifies this
      ensures View() == Withdraw(old(View()), key, client)
      ensures removed == old(IsCurrent(View(), key, client))
      ensures removed <==> key in old(dictionary) && old(dictionary)[key] == client
      ensures dictionary == (if removed then old(dictionary) - {key} else old(dictionary)) && disposed == old(disposed)
    {
      if key !in dictionary || dictionary[key] != client { return false; }
      dictionary := dictionary - {key};
      return true;
    }

    method DisposeLocked() returns (clients: set<AgentClient>)
      modifies this
      ensures View() == DisposeManager(old(View()))
      ensures clients == if old(disposed) then {} else old(dictionary.Values)
      ensures disposed && dictionary == if old(disposed) then old(dictionary) else map[]
    {
      if disposed { return {}; }
      disposed := true;
      clients := dictionary.Values;
      dictionary := map[];
    }
  }

  // ---------------------------------------------------------------- transition system

  type Client = nat
  type Key = nat
  type Node = nat   // identity of a TunnelRuntimeState object

  /** Where a connection stands in the middleware. */
  datatype Phase =
    | Fresh
    | Entered                   // in the dictionary; disposing the replaced client, writing to the channel
    | Withdrawing               // AddAsync failed after entering
    | Added                     // AddAsync returned true
    | Updating(node: Node)      // OnConnected found an entry to update
    | Written(node: Node)       // ... and stored itself in it
    | Online                    // OnConnected returned
    | Leaving                   // finally block of an added client
    | Left                      // manager entry gone, OnDisconnected not started
    | Checking(node: Node)      // OnDisconnected found an entry
    | Clearing(node: Node)      // ... and found itself in it
    | Finished

  /** The manager key and the registry key of a client: both come from its node name. */
  datatype ClientRecord = ClientRecord(managerKey: Key, nodeKey: Key, phase: Phase)

  datatype State = State(
    manager: ManagerState<Key, Client>,
    clients: map<Client, ClientRecord>,
    registry: map<Key, Node>,
    shown: map<Node, Option<Client>>,   // field Client of every runtime state object ever created
    home: map<Node, Key>)               // history: the key under which an object was created

  datatype Action =
    | Open(c: Client, managerKey: Key, nodeKey: Key)
    | EnterManager(c: Client)
    | Confirm(c: Client)
    | FailAdd(c: Client)
    | WithdrawAdd(c: Client)
    | FindNode(c: Client, newNode: Node)
    | WriteNode(c: Client)
    | CommitNode(c: Client)
    | CloseConnection(c: Client)
    | RemoveClient(c: Client)
    | LookupNode(c: Client)
    | CheckNode(c: Client)
    | ClearNode(c: Client)
    | RegisterNode(key: Key, newNode: Node)
    | RemoveNode(key: Key)
    | ShutDown

  const Init := State(ManagerState(map[], false), map[], map[], map[], map[])

  function PhaseOf(s: State, c: Client): Option<Phase> {
    if c in s.clients then Some(s.clients[c].phase) else None
  }

  predicate Enabled(s: State, a: Action) {
    match a
    case Open(c, _, _) => c !in s.clients
    case EnterManager(c) => PhaseOf(s, c) == Some(Fresh)
    case Confirm(c) => PhaseOf(s, c) == Some(Entered)
    case FailAdd(c) => PhaseOf(s, c) == Some(Entered)
    case WithdrawAdd(c) => PhaseOf(s, c) == Some(Withdrawing)
    case FindNode(c, newNode) => PhaseOf(s, c) == Some(Added) && newNode !in s.shown
    case WriteNode(c) => c in s.clients && s.clients[c].phase.Updating?
    case CommitNode(c) => c in s.clients && s.clients[c].phase.Written?
    case CloseConnection(c) => PhaseOf(s, c) == Some(Added) || PhaseOf(s, c) == Some(Online)
    case RemoveClient(c) => PhaseOf(s, c) == Some(Leaving)
    case LookupNode(c) => PhaseOf(s, c) == Some(Left)
    case CheckNode(c) => c in s.clients && s.clients[c].phase.Checking?
    case ClearNode(c) => c in s.clients && s.clients[c].phase.Clearing?
    case RegisterNode(_, newNode) => newNode !in s.shown
    case RemoveNode(_) => true
    case ShutDown => true
  }

  function Move(s: State, c: Client, phase: Phase): State
    requires c in s.clients
  {
    s.(clients := s.clients[c := s.clients[c].(phase := phase)])
  }

  function AddNode(s: State, key: Key, node: Node, client: Option<Client>): State {
    s.(registry := s.registry[key := node], shown := s.shown[node := client], home := s.home[node := key])
  }

  function Apply(s: State, a: Action): State
    requires Enabled(s, a)
  {
    match a
    case Open(c, mk, nk) => s.(clients := s.clients[c := ClientRecord(mk, nk, Fresh)])
    case EnterManager(c) =>
      var (m, entered) := Enter(s.manager, s.clients[c].managerKey, c);
      Move(s.(manager := m), c, if entered.Some? then Entered else Left)
    case Confirm(c) =>
      Move(s, c, if !s.manager.disposed && IsCurrent(s.manager, s.clients[c].managerKey, c) then Added else Withdrawing)
    case FailAdd(c) => Move(s, c, Withdrawing)
    case WithdrawAdd(c) => Move(s.(manager := Withdraw(s.manager, s.clients[c].managerKey, c)), c, Left)
    case FindNode(c, newNode) =>
      var key := s.clients[c].nodeKey;
      if key in s.registry then Move(s, c, Updating(s.registry[key]))
      else Move(AddNode(s, key, newNode, Some(c)), c, Online)
    case WriteNode(c) =>
      var node := s.clients[c].phase.node;
      Move(s.(shown := s.shown[node := Some(c)]), c, Written(node))
    case CommitNode(c) =>
      // the update is retried when the entry was removed meanwhile
      var key := s.clients[c].nodeKey;
      Move(s, c, if key in s.registry && s.registry[key] == s.clients[c].phase.node then Online else Added)
    case CloseConnection(c) => Move(s, c, Leaving)
    case RemoveClient(c) => Move(s.(manager := Withdraw(s.manager, s.clients[c].managerKey, c)), c, Left)
    case LookupNode(c) =>
      var key := s.clients[c].nodeKey;
      Move(s, c, if key in s.registry then Checking(s.registry[key]) else Finished)
    case CheckNode(c) =>
      var node := s.clients[c].phase.node;
      Move(s, c, if node in s.shown && s.shown[node] == Some(c) then Clearing(node) else Finished)
    case ClearNode(c) =>
      var node := s.clients[c].phase.node;
      Move(s.(shown := s.shown[node := None]), c, Finished)
    case RegisterNode(key, newNode) => if key in s.registry then s else AddNode(s, key, newNode, None)
    case RemoveNode(key) => s.(registry := s.registry - {key})
    case ShutDown => s.(manager := DisposeManager(s.manager))
  }

  // ---------------------------------------------------------------- invariant

  /** A client in this phase may still be found in the dictionary. */
  predicate MayBeListed(p: Phase) {
    !p.Fresh? && !p.Left? && !p.Checking? && !p.Clearing? && !p.Finished?
  }

  ghost predicate ListedOk(s: State, key: Key)
    requires key in s.manager.dictionary
  {
    var c := s.manager.dictionary[key];
    c in s.clients && s.clients[c].managerKey == key && MayBeListed(s.clients[c].phase)
  }

  /** An entry of the registry shows nobody, or a client that has not passed the check of that entry yet. */
  ghost predicate ShownOk(s: State, key: Key)
    requires key in s.registry
  {
    var node := s.registry[key];
    && node in s.shown && node in s.home && s.home[node] == key
    && (s.shown[node].Some? ==>
          var c := s.shown[node].value;
          && c in s.clients && s.clients[c].nodeKey == key
          && !s.clients[c].phase.Fresh? && !s.clients[c].phase.Finished?
          && (s.clients[c].phase.Checking? || s.clients[c].phase.Clearing? ==> s.clients[c].phase.node == node))
  }

  /** The object a client is working on was created under its own key. */
  ghost predicate ClientOk(s: State, c: Client)
    requires c in s.clients
  {
    var p := s.clients[c].phase;
    p.Updating? || p.Written? || p.Checking? || p.Clearing? ==>
      p.node in s.shown && p.node in s.home && s.home[p.node] == s.clients[c].nodeKey
  }

  ghost predicate Inv(s: State) {
    && s.home.Keys == s.shown.Keys
    && (s.manager.disposed ==> s.manager.dictionary == map[])
    && (forall k {:trigger ListedOk(s, k)} :: k in s.manager.dictionary ==> ListedOk(s, k))
    && (forall k {:trigger ShownOk(s, k)} :: k in s.registry ==> ShownOk(s, k))
    && (forall c {:trigger ClientOk(s, c)} :: c in s.clients ==> ClientOk(s, c))
  }

  /** The steps that touch the dictionary of the manager. */
  predicate OfManager(a: Action) { a.EnterManager? || a.WithdrawAdd? || a.RemoveClient? || a.ShutDown? }

  /** The steps that touch the registry of nodes. */
  predicate OfRegistry(a: Action) {
    a.FindNode? || a.WriteNode? || a.ClearNode? || a.RegisterNode? || a.RemoveNode?
  }

  lemma ListedStepInManager(s: State, a: Action, k: Key)
    requires OfManager(a)
    requires Enabled(s, a) && k in Apply(s, a).manager.dictionary
    requires k in s.manager.dictionary ==> ListedOk(s, k)
    ensures ListedOk(Apply(s, a), k)
  {
  }

  lemma ListedStepInRegistry(s: State, a: Action, k: Key)
    requires OfRegistry(a)
    requires Enabled(s, a) && k in Apply(s, a).manager.dictionary
    requires k in s.manager.dictionary ==> ListedOk(s, k)
    ensures ListedOk(Apply(s, a), k)
  {
  }

  lemma ListedStepInMiddleware(s: State, a: Action, k: Key)
    requires !OfManager(a) && !OfRegistry(a)
    requires Enabled(s, a) && k in Apply(s, a).manager.dictionary
    requires k in s.manager.dictionary ==> ListedOk(s, k)
    ensures ListedOk(Apply(s, a), k)
  {
  }

  lemma ListedStep(s: State, a: Action, k: Key)
    requires Enabled(s, a) && k in Apply(s, a).manager.dictionary
    requires k in s.manager.dictionary ==> ListedOk(s, k)
    ensures ListedOk(Apply(s, a), k)
  {
    if OfManager(a) {
      ListedStepInManager(s, a, k);
    } else if OfRegistry(a) {
      ListedStepInRegistry(s, a, k);
    } else {
      ListedStepInMiddleware(s, a, k);
    }
  }

  /** The client a step is about. */
  predicate About(a: Action, c: Client) {
    !a.RegisterNode? && !a.RemoveNode? && !a.ShutDown? && a.c == c
  }

  lemma ShownStepInManager(s: State, a: Action, k: Key)
    requires OfManager(a)
    requires Enabled(s, a) && k in Apply(s, a).registry
    requires s.home.Keys == s.shown.Keys && (k in s.registry ==> ShownOk(s, k))
    requires forall c <- s.clients :: About(a, c) ==> ClientOk(s, c)
    ensures ShownOk(Apply(s, a), k)
  {
  }

  lemma ShownStepInRegistry(s: State, a: Action, k: Key)
    requires OfRegistry(a)
    requires Enabled(s, a) && k in Apply(s, a).registry
    requires s.home.Keys == s.shown.Keys && (k in s.registry ==> ShownOk(s, k))
    requires forall c <- s.clients :: About(a, c) ==> ClientOk(s, c)
    ensures ShownOk(Apply(s, a), k)
  {
  }

  lemma ShownStepInMiddleware(s: State, a: Action, k: Key)
    requires !OfManager(a) && !OfRegistry(a)
    requires Enabled(s, a) && k in Apply(s, a).registry
    requires s.home.Keys == s.shown.Keys && (k in s.registry ==> ShownOk(s, k))
    requires forall c <- s.clients :: About(a, c) ==> ClientOk(s, c)
    ensures ShownOk(Apply(s, a), k)
  {
  }

  lemma ShownStep(s: State, a: Action, k: Key)
    requires Enabled(s, a) && k in Apply(s, a).registry
    requires s.home.Keys == s.shown.Keys && (k in s.registry ==> ShownOk(s, k))
    requires forall c <- s.clients :: About(a, c) ==> ClientOk(s, c)
    ensures ShownOk(Apply(s, a), k)
  {
    if OfManager(a) {
      ShownStepInManager(s, a, k);
    } else if OfRegistry(a) {
      ShownStepInRegistry(s, a, k);
    } else {
      ShownStepInMiddleware(s, a, k);
    }
  }

  lemma ClientStepInManager(s: State, a: Action, c: Client)
    requires OfManager(a)
    requires Enabled(s, a) && c in Apply(s, a).clients && s.home.Keys == s.shown.Keys
    requires c in s.clients ==> ClientOk(s, c)
    requires c in s.clients && s.clients[c].nodeKey in s.registry ==> ShownOk(s, s.clients[c].nodeKey)
    ensures ClientOk(Apply(s, a), c)
  {
  }

  lemma ClientStepInRegistry(s: State, a: Action, c: Client)
    requires OfRegistry(a)
    requires Enabled(s, a) && c in Apply(s, a).clients && s.home.Keys == s.shown.Keys
    requires c in s.clients ==> ClientOk(s, c)
    requires c in s.clients && s.clients[c].nodeKey in s.registry ==> ShownOk(s, s.clients[c].nodeKey)
    ensures ClientOk(Apply(s, a), c)
  {
  }

  lemma ClientStepInMiddleware(s: State, a: Action, c: Client)
    requires !OfManager(a) && !OfRegistry(a)
    requires Enabled(s, a) && c in Apply(s, a).clients && s.home.Keys == s.shown.Keys
    requires c in s.clients ==> ClientOk(s, c)
    requires c in s.clients && s.clients[c].nodeKey in s.registry ==> ShownOk(s, s.clients[c].nodeKey)
    ensures ClientOk(Apply(s, a), c)
  {
  }

  lemma ClientStep(s: State, a: Action, c: Client)
    requires Enabled(s, a) && c in Apply(s, a).clients && s.home.Keys == s.shown.Keys
    requires c in s.clients ==> ClientOk(s, c)
    requires c in s.clients && s.clients[c].nodeKey in s.registry ==> ShownOk(s, s.clients[c].nodeKey)
    ensures ClientOk(Apply(s, a), c)
  {
    if OfManager(a) {
      ClientStepInManager(s, a, c);
    } else if OfRegistry(a) {
      ClientStepInRegistry(s, a, c);
    } else {
      ClientStepInMiddleware(s, a, c);
    }
  }

  lemma HistoryStep(s: State, a: Action)
    requires Enabled(s, a) && s.home.Keys == s.shown.Keys && (s.manager.disposed ==> s.manager.dictionary == map[])
    requires forall c <- s.clients :: About(a, c) ==> ClientOk(s, c)
    ensures Apply(s, a).home.Keys == Apply(s, a).shown.Keys
    ensures Apply(s, a).manager.disposed ==> Apply(s, a).manager.dictionary == map[]
  {
  }

  // ---------------------------------------------------------------- over whole runs

  ghost predicate Run(states: seq<State>, actions: seq<Action>) {
    && |states| == |actions| + 1
    && states[0] == Init
    && forall i {:trigger StepAt(states, actions, i)} :: 0 <= i < |actions| ==> StepAt(states, actions, i)
  }

  ghost predicate StepAt(states: seq<State>, actions: seq<Action>, i: nat)
    requires |states| == |actions| + 1
  {
    i < |actions| && Enabled(states[i], actions[i]) && states[i + 1] == Apply(states[i], actions[i])
  }

  /** Every step keeps the invariant, so it holds in every state of every run. */
  lemma {:induction false} RunKeepsInv(states: seq<State>, actions: seq<Action>, i: nat)
    requires Run(states, actions) && i < |states|
    ensures Inv(states[i])
  {
    if i > 0 {
      RunKeepsInv(states, actions, i - 1);
      assert StepAt(states, actions, i - 1);
      var s, a, t := states[i - 1], actions[i - 1], states[i];
      forall c | c in s.clients ensures ClientOk(s, c) {}
      HistoryStep(s, a);
      forall k | k in t.manager.dictionary ensures ListedOk(t, k) {
        assert k in s.manager.dictionary ==> ListedOk(s, k);
        ListedStep(s, a, k);
      }
      forall k | k in t.registry ensures ShownOk(t, k) {
        assert k in s.registry ==> ShownOk(s, k);
        ShownStep(s, a, k);
      }
      forall c | c in t.clients ensures ClientOk(t, c) {
        assert c in s.clients && s.clients[c].nodeKey in s.registry ==> ShownOk(s, s.clients[c].nodeKey);
        ClientStep(s, a, c);
      }
    }
  }

  /** A client whose middleware has finished is neither reachable through the manager nor shown by the registry. */
  lemma FinishedClientIsGone(states: seq<State>, actions: seq<Action>, i: nat, c: Client)
    requires Run(states, actions) && i < |states| && PhaseOf(states[i], c) == Some(Finished)
    ensures c !in states[i].manager.dictionary.Values
    ensures forall key <- states[i].registry ::
      states[i].registry[key] in states[i].shown && states[i].shown[states[i].registry[key]] != Some(c)
  {
    var s := states[i];
    RunKeepsInv(states, actions, i);
    forall key | key in s.manager.dictionary ensures s.manager.dictionary[key] != c { assert ListedOk(s, key); }
    forall key | key in s.registry ensures s.registry[key] in s.shown && s.shown[s.registry[key]] != Some(c) {
      assert ShownOk(s, key);
    }
  }

  /** The only steps that take a client out of the dictionary: its own, a new connection of that name, shutdown. */
  ghost predicate MayEvict(s: State, a: Action, key: Key, c: Client)
    requires Enabled(s, a)
  {
    || a == WithdrawAdd(c) || a == RemoveClient(c) || a == ShutDown
    || (a.EnterManager? && a.c != c && s.clients[a.c].managerKey == key && !s.manager.disposed)
  }

  lemma EvictingStep(s: State, a: Action, key: Key, c: Client)
    requires Inv(s) && Enabled(s, a) && IsCurrent(s.manager, key, c) && !IsCurrent(Apply(s, a).manager, key, c)
    ensures MayEvict(s, a, key, c)
  {
    assert ListedOk(s, key);
    if !OfManager(a) { ManagerStays(s, a); }
  }

  lemma ManagerStays(s: State, a: Action)
    requires Enabled(s, a) && !OfManager(a)
    ensures Apply(s, a).manager == s.manager
  {
  }

  lemma DisposedStays(s: State, a: Action)
    requires Enabled(s, a) && s.manager == ManagerState(map[], true)
    ensures Apply(s, a).manager == ManagerState(map[], true)
  {
    if !OfManager(a) { ManagerStays(s, a); }
  }

  /** The removal of a replaced client never evicts its successor, wherever in a run it happens. */
  lemma OnlyOwnOrNewerStepsEvict(states: seq<State>, actions: seq<Action>, i: nat, j: nat, key: Key, c: Client)
    requires Run(states, actions) && i <= j < |states|
    requires IsCurrent(states[i].manager, key, c) && !IsCurrent(states[j].manager, key, c)
    ensures exists n :: i <= n < j && Enabled(states[n], actions[n]) && MayEvict(states[n], actions[n], key, c)
    decreases j
  {
    if IsCurrent(states[j - 1].manager, key, c) {
      assert StepAt(states, actions, j - 1);
      RunKeepsInv(states, actions, j - 1);
      EvictingStep(states[j - 1], actions[j - 1], key, c);
    } else {
      OnlyOwnOrNewerStepsEvict(states, actions, i, j - 1, key, c);
    }
  }

  /** Once the manager is disposed its dictionary stays empty. */
  lemma {:induction false} DisposedManagerStaysEmpty(states: seq<State>, actions: seq<Action>, i: nat, j: nat)
    requires Run(states, actions) && i <= j < |states| && states[i].manager.disposed
    ensures states[j].manager == ManagerState(map[], true)
    decreases j
  {
    if i == j {
      RunKeepsInv(states, actions, i);
    } else {
      DisposedManagerStaysEmpty(states, actions, i, j - 1);
      assert StepAt(states, actions, j - 1);
      DisposedStays(states[j - 1], actions[j - 1]);
    }
  }
}
