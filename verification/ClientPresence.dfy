/**
 What registration is for: a client that alone has its name comes online, and from then on it is reachable
 through the manager and shown by the registry until it closes its connection.
 */
module ClientPresence {
  import opened Wrappers
  import opened ClientRegistry

  /** Where such a client can stand before it closes its connection. */
  predicate OnCourse(p: Phase) {
    p.Fresh? || p.Entered? || p.Added? || p.Updating? || p.Written? || p.Online?
  }

  /** The registry shows the client under this key. */
  predicate Shows(s: State, key: Key, c: Client) {
    key in s.registry && s.registry[key] in s.shown && s.shown[s.registry[key]] == Some(c)
  }

  /** Nobody else uses the names of client `c`. */
  ghost predicate Alone(s: State, c: Client, managerKey: Key, nodeKey: Key) {
    forall d {:trigger s.clients[d]} :: d in s.clients && d != c ==>
      s.clients[d].managerKey != managerKey && s.clients[d].nodeKey != nodeKey
  }

  /** The step ends nothing: no failure or close of this client, no shutdown, its entry is not removed, nobody takes its names. */
  predicate Spares(a: Action, c: Client, managerKey: Key, nodeKey: Key) {
    && a != FailAdd(c) && a != CloseConnection(c) && a != ShutDown && a != RemoveNode(nodeKey)
    && (a.Open? && a.c != c ==> a.managerKey != managerKey && a.nodeKey != nodeKey)
    && (a.Open? && a.c == c ==> a.managerKey == managerKey && a.nodeKey == nodeKey)
  }

  /** How far the client has come, and what holds of it there. */
  ghost predicate Present(s: State, c: Client, managerKey: Key, nodeKey: Key) {
    && !s.manager.disposed && Alone(s, c, managerKey, nodeKey)
    && (c in s.clients ==>
          var p := s.clients[c].phase;
          && s.clients[c].managerKey == managerKey && s.clients[c].nodeKey == nodeKey && OnCourse(p)
          && (!p.Fresh? ==> IsCurrent(s.manager, managerKey, c))
          && (p.Updating? || p.Written? ==> nodeKey in s.registry && s.registry[nodeKey] == p.node)
          && (p.Written? || p.Online? ==> Shows(s, nodeKey, c)))
  }

  lemma AloneStays(s: State, a: Action, c: Client, managerKey: Key, nodeKey: Key)
    requires Enabled(s, a) && Spares(a, c, managerKey, nodeKey) && Alone(s, c, managerKey, nodeKey)
    ensures Alone(Apply(s, a), c, managerKey, nodeKey)
  {
  }

  lemma OwnStepInManager(s: State, a: Action, c: Client, managerKey: Key, nodeKey: Key)
    requires Enabled(s, a) && Spares(a, c, managerKey, nodeKey) && Present(s, c, managerKey, nodeKey)
    requires About(a, c) && OfManager(a)
    ensures Present(Apply(s, a), c, managerKey, nodeKey)
  {
    AloneStays(s, a, c, managerKey, nodeKey);
  }

  lemma OwnStepInRegistry(s: State, a: Action, c: Client, managerKey: Key, nodeKey: Key)
    requires Enabled(s, a) && Spares(a, c, managerKey, nodeKey) && Present(s, c, managerKey, nodeKey)
    requires About(a, c) && OfRegistry(a)
    requires nodeKey in s.registry ==> ShownOk(s, nodeKey)
    ensures Present(Apply(s, a), c, managerKey, nodeKey)
  {
    AloneStays(s, a, c, managerKey, nodeKey);
  }

  lemma OwnStepInMiddleware(s: State, a: Action, c: Client, managerKey: Key, nodeKey: Key)
    requires Enabled(s, a) && Spares(a, c, managerKey, nodeKey) && Present(s, c, managerKey, nodeKey)
    requires About(a, c) && !OfManager(a) && !OfRegistry(a)
    ensures Present(Apply(s, a), c, managerKey, nodeKey)
  {
    AloneStays(s, a, c, managerKey, nodeKey);
  }

  /** A step of somebody else leaves the record, the place in the dictionary and the entry of the client alone. */
  lemma OthersInManager(s: State, a: Action, c: Client, managerKey: Key, nodeKey: Key)
    requires Enabled(s, a) && Spares(a, c, managerKey, nodeKey) && Present(s, c, managerKey, nodeKey)
    requires !About(a, c) && OfManager(a)
    ensures Present(Apply(s, a), c, managerKey, nodeKey)
  {
    AloneStays(s, a, c, managerKey, nodeKey);
  }

  lemma OthersInRegistry(s: State, a: Action, c: Client, managerKey: Key, nodeKey: Key)
    requires Enabled(s, a) && Spares(a, c, managerKey, nodeKey) && Present(s, c, managerKey, nodeKey)
    requires !About(a, c) && OfRegistry(a)
    requires nodeKey in s.registry ==> ShownOk(s, nodeKey)
    requires forall d <- s.clients :: About(a, d) ==> ClientOk(s, d)
    ensures Present(Apply(s, a), c, managerKey, nodeKey)
  {
    AloneStays(s, a, c, managerKey, nodeKey);
  }

  lemma OthersInMiddleware(s: State, a: Action, c: Client, managerKey: Key, nodeKey: Key)
    requires Enabled(s, a) && Spares(a, c, managerKey, nodeKey) && Present(s, c, managerKey, nodeKey)
    requires !About(a, c) && !OfManager(a) && !OfRegistry(a)
    ensures Present(Apply(s, a), c, managerKey, nodeKey)
  {
    AloneStays(s, a, c, managerKey, nodeKey);
  }

  lemma PresentStep(s: State, a: Action, c: Client, managerKey: Key, nodeKey: Key)
    requires Inv(s) && Enabled(s, a) && Spares(a, c, managerKey, nodeKey) && Present(s, c, managerKey, nodeKey)
    ensures Present(Apply(s, a), c, managerKey, nodeKey)
  {
    assert nodeKey in s.registry ==> ShownOk(s, nodeKey);
    forall d | d in s.clients ensures ClientOk(s, d) {}
    if About(a, c) {
      if OfManager(a) {
        OwnStepInManager(s, a, c, managerKey, nodeKey);
      } else if OfRegistry(a) {
        OwnStepInRegistry(s, a, c, managerKey, nodeKey);
      } else {
        OwnStepInMiddleware(s, a, c, managerKey, nodeKey);
      }
    } else if OfManager(a) {
      OthersInManager(s, a, c, managerKey, nodeKey);
    } else if OfRegistry(a) {
      OthersInRegistry(s, a, c, managerKey, nodeKey);
    } else {
      OthersInMiddleware(s, a, c, managerKey, nodeKey);
    }
  }

  ghost predicate SparedRun(states: seq<State>, actions: seq<Action>, c: Client, managerKey: Key, nodeKey: Key) {
    Run(states, actions) && forall i {:trigger StepAt(states, actions, i)} ::
      0 <= i < |actions| ==> Spares(actions[i], c, managerKey, nodeKey)
  }

  lemma {:induction false} StaysPresent(states: seq<State>, actions: seq<Action>, i: nat, c: Client, managerKey: Key, nodeKey: Key)
    requires SparedRun(states, actions, c, managerKey, nodeKey) && i < |states|
    ensures Present(states[i], c, managerKey, nodeKey)
  {
    if i > 0 {
      StaysPresent(states, actions, i - 1, c, managerKey, nodeKey);
      RunKeepsInv(states, actions, i - 1);
      assert StepAt(states, actions, i - 1);
      PresentStep(states[i - 1], actions[i - 1], c, managerKey, nodeKey);
    }
  }

  /**
   In every interleaving a client that alone has its names and is not cut off is reachable from the moment it
   has entered, and shown by the registry once it is online.
   */
  lemma LoneClientIsServed(states: seq<State>, actions: seq<Action>, i: nat, c: Client, managerKey: Key, nodeKey: Key)
    requires SparedRun(states, actions, c, managerKey, nodeKey) && i < |states| && c in states[i].clients
    ensures var s := states[i]; var p := s.clients[c].phase;
      && OnCourse(p)
      && (!p.Fresh? ==> managerKey in s.manager.dictionary && s.manager.dictionary[managerKey] == c)
      && (p.Online? ==> nodeKey in s.registry && s.registry[nodeKey] in s.shown && s.shown[s.registry[nodeKey]] == Some(c))
  {
    StaysPresent(states, actions, i, c, managerKey, nodeKey);
  }

  /** The steps that are left until the client is online. */
  function StepsLeft(p: Phase): nat {
    match p
    case Fresh => 5
    case Entered => 4
    case Added => 3
    case Updating(_) => 2
    case Written(_) => 1
    case _ => 0
  }

  /** The next step of the client; `newNode` names an object that does not exist yet. */
  function NextOf(c: Client, p: Phase, newNode: Node): Action {
    match p
    case Fresh => EnterManager(c)
    case Entered => Confirm(c)
    case Added => FindNode(c, newNode)
    case Updating(_) => WriteNode(c)
    case _ => CommitNode(c)
  }

  /** Until it is online it always has a step of its own that brings it nearer, and nobody else sets it back. */
  lemma LoneClientComesOnline(states: seq<State>, actions: seq<Action>, i: nat, c: Client, managerKey: Key, nodeKey: Key, newNode: Node)
    requires SparedRun(states, actions, c, managerKey, nodeKey) && i < |states| && c in states[i].clients
    requires newNode !in states[i].shown
    ensures var s := states[i]; var p := s.clients[c].phase; var a := NextOf(c, p, newNode);
      p.Online? || (Enabled(s, a) && c in Apply(s, a).clients && StepsLeft(Apply(s, a).clients[c].phase) < StepsLeft(p))
    ensures i < |actions| && !About(actions[i], c) ==>
      c in states[i + 1].clients && states[i + 1].clients[c].phase == states[i].clients[c].phase
  {
    StaysPresent(states, actions, i, c, managerKey, nodeKey);
    if i < |actions| && !About(actions[i], c) {
      assert StepAt(states, actions, i);
      OthersLeaveRecord(states[i], actions[i], c);
    }
  }

  lemma OthersLeaveRecord(s: State, a: Action, c: Client)
    requires Enabled(s, a) && c in s.clients && !About(a, c)
    ensures c in Apply(s, a).clients && Apply(s, a).clients[c] == s.clients[c]
  {
  }
}
