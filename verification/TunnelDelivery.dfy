/**
 What the hand-off is for: a call that nobody interrupts, and whose remote end answers, returns the
 tunnel that arrived for it, open and registered with its connection.
 */
module TunnelDelivery {
  import opened Wrappers
  import opened TunnelLifecycle
  import opened TunnelProtocol
  import opened TunnelInvariant
  import opened TunnelSafety

  // ---------------------------------------------------------------- who may hold what

  /** The creator has not tried to bind yet, and still may. */
  predicate Early(p: CreatorPhase) {
    p.Waiting? || p.Received? || p.Owned?
  }

  /** Only a tunnel that was accepted is ever bound, and its creator is past the bind. */
  ghost predicate BoundLate(s: State, t: Tunnel)
    requires t in s.tunnels
  {
    var r := s.tunnels[t];
    r.state.connection.Some? ==>
      r.acceptor.Accepted? && r.acceptor.creator in s.creators && !Early(s.creators[r.acceptor.creator].phase)
  }

  /** A dictionary entry leads to a creator of that identifier whose slot nothing has reached yet. */
  ghost predicate EntryOpen(s: State, g: Guid)
    requires g in s.entries
  {
    var c := s.entries[g];
    && c in s.creators && s.creators[c].guid == g && !s.creators[c].pending.completed
    && forall t :: t in s.tunnels ==> s.tunnels[t].acceptor != Taken(c)
  }

  /** Who took an entry is the only one, and on the way to an empty slot of its own identifier. */
  ghost predicate TakenOnce(s: State, t: Tunnel)
    requires t in s.tunnels
  {
    var r := s.tunnels[t];
    && (r.acceptor.Taken? ==>
          var c := r.acceptor.creator;
          && c in s.creators && s.creators[c].guid == r.guid && !s.creators[c].pending.completed
          && forall u :: u in s.tunnels && u != t ==> s.tunnels[u].acceptor != Taken(c))
    && (r.acceptor.Accepted? ==> r.acceptor.creator in s.creators && s.creators[r.acceptor.creator].guid == r.guid)
  }

  /** What the disposal of a connection still has to close was bound to it. */
  ghost predicate TodoBound(s: State, k: Connection)
    requires k in s.connections
  {
    s.connections[k].phase.Closing? ==>
      forall t <- s.connections[k].phase.todo :: t in s.tunnels && s.tunnels[t].state.connection == Some(k)
  }

  ghost predicate HandOff(s: State) {
    && (forall t {:trigger BoundLate(s, t)} :: t in s.tunnels ==> BoundLate(s, t))
    && (forall t {:trigger TakenOnce(s, t)} :: t in s.tunnels ==> TakenOnce(s, t))
    && (forall g {:trigger EntryOpen(s, g)} :: g in s.entries ==> EntryOpen(s, g))
    && (forall k {:trigger TodoBound(s, k)} :: k in s.connections ==> TodoBound(s, k))
  }

  // ---------------------------------------------------------------- what a step does to one record

  /** Tunnel `t` keeps its identifier; only its acceptor moves it on, and only a bind gives it a connection. */
  ghost predicate TunnelGoesOn(s: State, a: Action, s': State, t: Tunnel)
    requires t in s.tunnels
  {
    && t in s'.tunnels && s'.tunnels[t].guid == s.tunnels[t].guid
    && (s'.tunnels[t].acceptor == s.tunnels[t].acceptor || a == Take(t) || a == OfferTunnel(t) || a == Reject(t))
    && (s'.tunnels[t].state.connection == s.tunnels[t].state.connection ||
          (a.BindTunnel? && a.c in s.creators && s.creators[a.c].phase == Owned(t)))
    && (s'.tunnels[t].state.closed ==> s.tunnels[t].state.closed || (Enabled(s, a) && Disposes(s, a) == Some(t)))
  }

  /** Creator `c` keeps identifier and connection, its slot is filled only by an offer, and it never goes back to early. */
  ghost predicate CreatorGoesOn(s: State, a: Action, s': State, c: Creator)
    requires c in s.creators
  {
    && c in s'.creators && s'.creators[c].guid == s.creators[c].guid && s'.creators[c].connection == s.creators[c].connection
    && (s'.creators[c].pending.completed == s.creators[c].pending.completed ||
          (a.OfferTunnel? && a.t in s.tunnels && s.tunnels[a.t].acceptor == Taken(c)))
    && (Early(s'.creators[c].phase) ==> Early(s.creators[c].phase))
  }

  lemma ClosingOne(s: State, u: Tunnel, t: Tunnel)
    requires t in s.tunnels
    ensures var s' := Close(s, u);
      && t in s'.tunnels && s'.tunnels[t].guid == s.tunnels[t].guid && s'.tunnels[t].acceptor == s.tunnels[t].acceptor
      && s'.tunnels[t].state.connection == s.tunnels[t].state.connection
      && (s'.tunnels[t].state.closed ==> s.tunnels[t].state.closed || u == t)
  {
  }

  lemma DisposingTunnels(s: State, a: Action, t: Tunnel)
    requires Inv(s) && Enabled(s, a) && Disposes(s, a).Some? && t in s.tunnels
    ensures TunnelGoesOn(s, a, Apply(s, a), t)
  {
    var u := Disposes(s, a).value;
    ClosingOne(s, u, t);
    CloseEffect(s, u);
    if a.Reject? { ClosingKeepsKeys(s, u); } else { AfterClosing(s, a); }
  }

  lemma ClosingKeepsKeys(s: State, u: Tunnel)
    requires u in s.tunnels
    ensures u in Close(s, u).tunnels
  {
  }

  lemma AfterClosing(s: State, a: Action)
    requires Enabled(s, a) && Disposes(s, a).Some? && !a.Reject?
    ensures Apply(s, a).tunnels == Close(s, Disposes(s, a).value).tunnels
  {
  }

  lemma CreatorsAndTunnels(s: State, a: Action, t: Tunnel)
    requires Enabled(s, a) && Disposes(s, a).None? && ByCreator(a) && t in s.tunnels
    ensures TunnelGoesOn(s, a, Apply(s, a), t)
  {
  }

  lemma OthersAndTunnels(s: State, a: Action, t: Tunnel)
    requires Enabled(s, a) && Disposes(s, a).None? && !ByCreator(a) && t in s.tunnels
    ensures TunnelGoesOn(s, a, Apply(s, a), t)
  {
  }

  lemma TunnelStep(s: State, a: Action, t: Tunnel)
    requires Inv(s) && Enabled(s, a) && t in s.tunnels
    ensures TunnelGoesOn(s, a, Apply(s, a), t)
  {
    if Disposes(s, a).Some? {
      DisposingTunnels(s, a, t);
    } else if ByCreator(a) {
      CreatorsAndTunnels(s, a, t);
    } else {
      OthersAndTunnels(s, a, t);
    }
  }

  lemma DisposingCreators(s: State, a: Action, c: Creator)
    requires Inv(s) && Enabled(s, a) && Disposes(s, a).Some? && c in s.creators
    ensures CreatorGoesOn(s, a, Apply(s, a), c)
  {
    CloseEffect(s, Disposes(s, a).value);
  }

  lemma CreatorsAndCreators(s: State, a: Action, c: Creator)
    requires Enabled(s, a) && Disposes(s, a).None? && ByCreator(a) && c in s.creators
    ensures CreatorGoesOn(s, a, Apply(s, a), c)
  {
    if a.c != c && !a.BindTunnel? { OtherCreatorsGoOn(s, a, c); }
  }

  lemma OthersAndCreators(s: State, a: Action, c: Creator)
    requires Enabled(s, a) && Disposes(s, a).None? && !ByCreator(a) && c in s.creators
    ensures CreatorGoesOn(s, a, Apply(s, a), c)
  {
  }

  lemma CreatorMoveOn(s: State, a: Action, c: Creator)
    requires Inv(s) && Enabled(s, a) && c in s.creators
    ensures CreatorGoesOn(s, a, Apply(s, a), c)
  {
    if Disposes(s, a).Some? {
      DisposingCreators(s, a, c);
    } else if ByCreator(a) {
      CreatorsAndCreators(s, a, c);
    } else {
      OthersAndCreators(s, a, c);
    }
  }

  // ---------------------------------------------------------------- every step keeps the hand-off in order

  /** A tunnel to be bound has no connection yet. */
  lemma OwnedIsUnbound(s: State, c: Creator, t: Tunnel)
    requires Inv(s) && HandOff(s) && c in s.creators && s.creators[c].pending.source == Result(t)
    requires Early(s.creators[c].phase)
    ensures t in s.tunnels && s.tunnels[t].acceptor == Accepted(c)
    ensures s.tunnels[t].state.connection.None? && !s.tunnels[t].state.counted
  {
    assert CreatorOk(s, c);
    assert BoundLate(s, t);
    assert TunnelOk(s, t);
  }

  lemma NewTunnel(s: State, a: Action, t: Tunnel)
    requires Inv(s) && Enabled(s, a) && t in Apply(s, a).tunnels && t !in s.tunnels
    ensures a.Arrive? && a.t == t && Apply(s, a).tunnels[t].state.connection.None? && Apply(s, a).tunnels[t].acceptor.Arrived?
    ensures !Apply(s, a).tunnels[t].state.closed
  {
    if Disposes(s, a).Some? {
      DisposingAndEntries(s, a);
    } else if ByCreator(a) {
      CreatorsBringNoTunnels(s, a);
    } else {
      OthersBring(s, a, t);
    }
  }

  lemma OthersBring(s: State, a: Action, t: Tunnel)
    requires Enabled(s, a) && Disposes(s, a).None? && !ByCreator(a) && t in Apply(s, a).tunnels && t !in s.tunnels
    ensures a.Arrive? && a.t == t && Apply(s, a).tunnels[t].state.connection.None? && Apply(s, a).tunnels[t].acceptor.Arrived?
    ensures !Apply(s, a).tunnels[t].state.closed
  {
  }

  lemma CreatorsBringNoTunnels(s: State, a: Action)
    requires Enabled(s, a) && Disposes(s, a).None? && ByCreator(a)
    ensures Apply(s, a).tunnels.Keys == s.tunnels.Keys
  {
  }

  lemma BoundNow(s: State, c: Creator, t: Tunnel)
    requires Inv(s) && HandOff(s) && Enabled(s, BindTunnel(c)) && s.creators[c].phase == Owned(t)
    ensures BoundLate(BindStep(s, c), t)
  {
    assert CreatorOk(s, c);
    OwnedIsUnbound(s, c, t);
  }

  lemma BoundLateStep(s: State, a: Action, t: Tunnel)
    requires Inv(s) && HandOff(s) && Enabled(s, a) && t in Apply(s, a).tunnels
    ensures BoundLate(Apply(s, a), t)
  {
    if t !in s.tunnels {
      NewTunnel(s, a, t);
    } else if a.BindTunnel? && s.creators[a.c].phase == Owned(t) {
      BoundNow(s, a.c, t);
    } else {
      TunnelStep(s, a, t);
      assert BoundLate(s, t);
      if s.tunnels[t].state.connection.Some? {
        CreatorMoveOn(s, a, s.tunnels[t].acceptor.creator);
      }
    }
  }

  /** A new taker took an entry that is gone now. */
  lemma NewTaker(s: State, a: Action, u: Tunnel, c: Creator)
    requires Inv(s) && HandOff(s) && Enabled(s, a) && u in Apply(s, a).tunnels && Apply(s, a).tunnels[u].acceptor == Taken(c)
    requires !(u in s.tunnels && s.tunnels[u].acceptor == Taken(c))
    ensures a == Take(u) && u in s.tunnels
    ensures var g := s.tunnels[u].guid;
      g in s.entries && s.entries[g] == c && Apply(s, a).entries == s.entries - {g} && EntryOpen(s, g)
  {
    if u !in s.tunnels {
      NewTunnel(s, a, u);
      assert false;
    } else {
      TunnelStep(s, a, u);
      TakerTook(s, a, u, c);
    }
  }

  lemma TakerTook(s: State, a: Action, u: Tunnel, c: Creator)
    requires Inv(s) && Enabled(s, a) && u in s.tunnels && TunnelGoesOn(s, a, Apply(s, a), u)
    requires Apply(s, a).tunnels[u].acceptor == Taken(c) && s.tunnels[u].acceptor != Taken(c)
    ensures a == Take(u)
    ensures var g := s.tunnels[u].guid; g in s.entries && s.entries[g] == c && Apply(s, a).entries == s.entries - {g}
  {
    if a == Reject(u) { CloseEffect(s, u); }
  }

  lemma TakenByStep(s: State, a: Action, t: Tunnel, c: Creator)
    requires Inv(s) && HandOff(s) && Enabled(s, a) && t in Apply(s, a).tunnels && Apply(s, a).tunnels[t].acceptor == Taken(c)
    ensures c in s.creators && !s.creators[c].pending.completed && t in s.tunnels && s.creators[c].guid == s.tunnels[t].guid
    ensures forall u :: u in s.tunnels && u != t ==> s.tunnels[u].acceptor != Taken(c)
    ensures forall u :: u in Apply(s, a).tunnels && u != t ==> Apply(s, a).tunnels[u].acceptor != Taken(c)
  {
    if t in s.tunnels && s.tunnels[t].acceptor == Taken(c) {
      assert TakenOnce(s, t);
    } else {
      NewTaker(s, a, t, c);
    }
    forall u | u in Apply(s, a).tunnels && u != t ensures Apply(s, a).tunnels[u].acceptor != Taken(c) {
      if Apply(s, a).tunnels[u].acceptor == Taken(c) {
        NewTaker(s, a, u, c);
      }
    }
  }

  lemma TakenOnceStep(s: State, a: Action, t: Tunnel)
    requires Inv(s) && HandOff(s) && Enabled(s, a) && t in Apply(s, a).tunnels
    ensures TakenOnce(Apply(s, a), t)
  {
    var s' := Apply(s, a);
    if s'.tunnels[t].acceptor.Taken? {
      var c := s'.tunnels[t].acceptor.creator;
      TakenByStep(s, a, t, c);
      TunnelStep(s, a, t);
      CreatorMoveOn(s, a, c);
    } else if s'.tunnels[t].acceptor.Accepted? {
      AcceptedStep(s, a, t);
    }
  }

  lemma AcceptedStep(s: State, a: Action, t: Tunnel)
    requires Inv(s) && HandOff(s) && Enabled(s, a) && t in Apply(s, a).tunnels && Apply(s, a).tunnels[t].acceptor.Accepted?
    ensures TakenOnce(Apply(s, a), t)
  {
    if t !in s.tunnels {
      NewTunnel(s, a, t);
      assert false;
    } else {
      TunnelStep(s, a, t);
      assert TakenOnce(s, t);
      if a == Reject(t) { CloseEffect(s, t); }
      CreatorMoveOn(s, a, Apply(s, a).tunnels[t].acceptor.creator);
    }
  }

  lemma EntriesGoOn(s: State, a: Action, g: Guid)
    requires Inv(s) && Enabled(s, a) && g in Apply(s, a).entries
    ensures (g in s.entries && Apply(s, a).entries[g] == s.entries[g] && !(a.Take? && s.tunnels[a.t].guid == g)) ||
      (a.Create? && a.guid == g && Apply(s, a).entries[g] == a.c)
  {
    if Disposes(s, a).Some? {
      DisposingAndEntries(s, a);
    } else if ByCreator(a) {
      CreatorsAndEntries(s, a, g);
    } else {
      OthersAndEntries(s, a);
    }
  }

  lemma DisposingAndEntries(s: State, a: Action)
    requires Inv(s) && Enabled(s, a) && Disposes(s, a).Some?
    ensures Apply(s, a).entries == s.entries && Apply(s, a).tunnels.Keys == s.tunnels.Keys
  {
    CloseEffect(s, Disposes(s, a).value);
    if a.Reject? {
      ClosingKeepsKeys(s, a.t);
      assert SetAcceptor(Close(s, a.t), a.t, Rejected).tunnels.Keys == s.tunnels.Keys;
    } else {
      AfterClosing(s, a);
    }
  }

  lemma CreatorsAndEntries(s: State, a: Action, g: Guid)
    requires Enabled(s, a) && Disposes(s, a).None? && ByCreator(a) && g in Apply(s, a).entries
    ensures (g in s.entries && Apply(s, a).entries[g] == s.entries[g]) ||
      (a.Create? && a.guid == g && Apply(s, a).entries[g] == a.c)
  {
  }

  lemma OthersAndEntries(s: State, a: Action)
    requires Enabled(s, a) && Disposes(s, a).None? && !ByCreator(a)
    ensures Apply(s, a).entries == if a.Take? then s.entries - {s.tunnels[a.t].guid} else s.entries
  {
    if a.Take? && s.tunnels[a.t].guid !in s.entries { assert s.entries - {s.tunnels[a.t].guid} == s.entries; }
  }

  lemma EntryOpenStep(s: State, a: Action, g: Guid)
    requires Inv(s) && HandOff(s) && Enabled(s, a) && g in Apply(s, a).entries
    ensures EntryOpen(Apply(s, a), g)
  {
    EntriesGoOn(s, a, g);
    var s' := Apply(s, a);
    var c := s'.entries[g];
    if a.Create? && a.guid == g && c == a.c {
      forall t | t in s'.tunnels ensures s'.tunnels[t].acceptor != Taken(c) { assert TunnelOk(s, t); }
    } else {
      assert EntryOpen(s, g);
      CreatorMoveOn(s, a, c);
      forall t | t in s'.tunnels ensures s'.tunnels[t].acceptor != Taken(c) {
        if s'.tunnels[t].acceptor == Taken(c) {
          NewTaker(s, a, t, c);
        }
      }
    }
  }

  /** A set of tunnels to close is taken once and only shrinks. */
  lemma TodoGoesOn(s: State, a: Action, k: Connection)
    requires Inv(s) && Enabled(s, a) && k in Apply(s, a).connections && Apply(s, a).connections[k].phase.Closing?
    ensures k in s.connections
    ensures var todo := Apply(s, a).connections[k].phase.todo;
      todo <= s.connections[k].state.tunnels ||
      (s.connections[k].phase.Closing? && todo <= s.connections[k].phase.todo)
  {
    if Disposes(s, a).Some? {
      CloseEffect(s, Disposes(s, a).value);
    } else if ByCreator(a) {
      CreatorsKeepPhases(s, a, k);
    } else {
      OthersAndPhases(s, a, k);
    }
  }

  lemma OthersAndPhases(s: State, a: Action, k: Connection)
    requires Enabled(s, a) && Disposes(s, a).None? && !ByCreator(a) && k in Apply(s, a).connections
    requires Apply(s, a).connections[k].phase.Closing?
    ensures k in s.connections
    ensures Apply(s, a).connections[k].phase.todo == s.connections[k].state.tunnels ||
      Apply(s, a).connections[k].phase == s.connections[k].phase
  {
  }

  lemma CreatorsKeepPhases(s: State, a: Action, k: Connection)
    requires Enabled(s, a) && Disposes(s, a).None? && ByCreator(a) && k in Apply(s, a).connections
    ensures k in s.connections && Apply(s, a).connections[k].phase == s.connections[k].phase
  {
  }

  lemma TodoBoundStep(s: State, a: Action, k: Connection)
    requires Inv(s) && HandOff(s) && Enabled(s, a) && k in Apply(s, a).connections
    ensures TodoBound(Apply(s, a), k)
  {
    var s' := Apply(s, a);
    if s'.connections[k].phase.Closing? {
      TodoGoesOn(s, a, k);
      assert ConnectionOk(s, k) && TodoBound(s, k);
      forall t | t in s'.connections[k].phase.todo ensures t in s'.tunnels && s'.tunnels[t].state.connection == Some(k) {
        TunnelStep(s, a, t);
        if a.BindTunnel? && s.creators[a.c].phase == Owned(t) {
          assert CreatorOk(s, a.c);
          OwnedIsUnbound(s, a.c, t);
          assert false;
        }
      }
    }
  }

  lemma HandOffStep(s: State, a: Action)
    requires Inv(s) && HandOff(s) && Enabled(s, a)
    ensures HandOff(Apply(s, a))
  {
    var s' := Apply(s, a);
    forall t | t in s'.tunnels ensures BoundLate(s', t) { BoundLateStep(s, a, t); }
    forall t | t in s'.tunnels ensures TakenOnce(s', t) { TakenOnceStep(s, a, t); }
    forall g | g in s'.entries ensures EntryOpen(s', g) { EntryOpenStep(s, a, g); }
    forall k | k in s'.connections ensures TodoBound(s', k) { TodoBoundStep(s, a, k); }
  }

  lemma {:induction false} RunKeepsHandOff(states: seq<State>, actions: seq<Action>, i: nat)
    requires Run(states, actions) && i < |states|
    ensures Inv(states[i]) && HandOff(states[i])
  {
    RunKeepsInv(states, actions, i);
    if i > 0 {
      RunKeepsHandOff(states, actions, i - 1);
      assert StepAt(states, actions, i - 1);
      HandOffStep(states[i - 1], actions[i - 1]);
    }
  }

  // ---------------------------------------------------------------- binds and offers that must succeed

  lemma BindWorksHere(s: State, c: Creator)
    requires Inv(s) && HandOff(s) && Enabled(s, BindTunnel(c))
    ensures !s.tunnels[s.creators[c].phase.tunnel].state.counted
    ensures var k := s.creators[c].connection; s.connections[k].phase.Live? <==> !s.connections[k].state.disposed
  {
    assert CreatorOk(s, c) && ConnectionOk(s, s.creators[c].connection);
    OwnedIsUnbound(s, c, s.creators[c].phase.tunnel);
  }

  /**
   The bind of an owned tunnel succeeds exactly when the tunnel is open and its connection is not being
   disposed, however many tunnels the connection has; then it is in the set and counted once more.
   */
  lemma BindSucceedsIff(states: seq<State>, actions: seq<Action>, i: nat, c: Creator)
    requires Run(states, actions) && i < |actions| && StepAt(states, actions, i) && actions[i] == BindTunnel(c)
    ensures var s, s' := states[i], states[i + 1];
      var t, k := s.creators[c].phase.tunnel, s.creators[c].connection;
      && c in s'.creators && k in s'.connections
      && (s'.creators[c].phase == Bound(t) <==> !s.tunnels[t].state.closed && s.connections[k].phase.Live?)
      && (s'.creators[c].phase == Bound(t) ==>
            && s'.binds == s.binds + [(t, k)] && s'.openGauge == s.openGauge + 1
            && s'.connections[k].state.tunnels == s.connections[k].state.tunnels + {t}
            && s'.connections[k].state.count == s.connections[k].state.count + 1)
      && (s'.creators[c].phase != Bound(t) ==> s'.connections == s.connections && s'.tunnels == s.tunnels)
  {
    RunKeepsHandOff(states, actions, i);
    BindWorksHere(states[i], c);
  }

  /** The slot of a taken entry is empty, so the offer is accepted exactly when the creator has not given up. */
  lemma OfferAcceptedIff(states: seq<State>, actions: seq<Action>, i: nat, t: Tunnel)
    requires Run(states, actions) && i < |actions| && StepAt(states, actions, i) && actions[i] == OfferTunnel(t)
    ensures var s, s' := states[i], states[i + 1];
      var c := s.tunnels[t].acceptor.creator;
      && c in s'.creators && t in s'.tunnels
      && (s'.tunnels[t].acceptor == Accepted(c) <==> !s.creators[c].pending.abandoned)
      && (s'.tunnels[t].acceptor == Accepted(c) ==>
            s'.creators[c].pending.source == Result(t) && s'.creators[c].pending.slot == Some(t))
      && (s'.tunnels[t].acceptor != Accepted(c) ==> s'.tunnels[t].acceptor == Refused && s'.creators == s.creators)
  {
    RunKeepsHandOff(states, actions, i);
    var s := states[i];
    assert TakenOnce(s, t);
    assert CreatorOk(s, s.tunnels[t].acceptor.creator);
  }

  // ---------------------------------------------------------------- an undisturbed call

  /** The step does not disturb a call: no interruption, no disposal of its connection, no stream of its closed. */
  ghost predicate Spares(s: State, a: Action, c: Creator, g: Guid, k: Connection) {
    && a != Interrupt(c) && a != Fail(c) && a != BeginDispose(k)
    && !(a.CloseStream? && a.t in s.tunnels && s.tunnels[a.t].guid == g)
  }

  ghost predicate Undisturbed(states: seq<State>, actions: seq<Action>, c: Creator, g: Guid, k: Connection)
    requires |states| == |actions| + 1
  {
    forall i {:trigger StepAt(states, actions, i)} :: 0 <= i < |actions| ==> Spares(states[i], actions[i], c, g, k)
  }

  /** Where an undisturbed call can stand. */
  predicate OnCourse(p: CreatorPhase) {
    || Early(p) || p.Bound? || (p.Cleanup? && p.owned.None? && p.result.Some?) || (p.Removed? && p.result.Some?)
    || (p.Abandoned? && p.left.None? && p.result.Some?) || (p.Done? && p.result.Some?)
  }

  /** The tunnel may still become, or is, that of creator `c`. */
  predicate Coming(r: TunnelRecord, c: Creator, g: Guid) {
    r.guid == g && (r.acceptor.Arrived? || r.acceptor == Taken(c) || r.acceptor == Accepted(c))
  }

  ghost predicate StaysOpen(s: State, c: Creator, g: Guid, t: Tunnel)
    requires t in s.tunnels
  {
    Coming(s.tunnels[t], c, g) ==> !s.tunnels[t].state.closed
  }

  ghost predicate Calm(s: State, c: Creator, g: Guid, k: Connection) {
    && (k in s.connections ==> s.connections[k].phase.Live?)
    && (c in s.creators ==> s.creators[c].guid == g && s.creators[c].connection == k ==> OnCourse(s.creators[c].phase))
    && forall t {:trigger StaysOpen(s, c, g, t)} :: t in s.tunnels ==> StaysOpen(s, c, g, t)
  }

  lemma LiveStays(s: State, a: Action, k: Connection)
    requires Inv(s) && Enabled(s, a) && a != BeginDispose(k) && k in Apply(s, a).connections
    requires k in s.connections ==> s.connections[k].phase.Live?
    ensures Apply(s, a).connections[k].phase.Live?
  {
    if Disposes(s, a).Some? {
      CloseEffect(s, Disposes(s, a).value);
    } else if ByCreator(a) {
      CreatorsKeepPhases(s, a, k);
    } else {
      OthersKeepLive(s, a, k);
    }
  }

  lemma OthersKeepLive(s: State, a: Action, k: Connection)
    requires Enabled(s, a) && Disposes(s, a).None? && !ByCreator(a) && a != BeginDispose(k) && k in Apply(s, a).connections
    requires k in s.connections ==> s.connections[k].phase.Live?
    ensures Apply(s, a).connections[k].phase.Live?
  {
  }

  /** Others leave the phase of `c` alone. */
  lemma PhaseStays(s: State, a: Action, c: Creator)
    requires Inv(s) && Enabled(s, a) && c in s.creators && !Own(a, c)
    ensures c in Apply(s, a).creators && Apply(s, a).creators[c].phase == s.creators[c].phase
  {
    if Disposes(s, a).Some? {
      CloseEffect(s, Disposes(s, a).value);
    } else if !ByCreator(a) {
      AcceptorsDoNotSetBack(s, a, c);
    } else if a.c != c {
      OthersLeaveIt(s, a, c);
    }
  }

  lemma OthersLeaveIt(s: State, a: Action, c: Creator)
    requires Enabled(s, a) && Disposes(s, a).None? && ByCreator(a) && c in s.creators && a.c != c
    ensures c in Apply(s, a).creators && Apply(s, a).creators[c].phase == s.creators[c].phase
  {
    if !a.BindTunnel? { OtherCreatorsGoOn(s, a, c); }
  }

  /** An own step of an undisturbed call stays on course: its claim and its bind succeed. */
  lemma OwnStepStaysOnCourse(s: State, a: Action, c: Creator)
    requires Inv(s) && HandOff(s) && Enabled(s, a) && c in s.creators && Own(a, c) && a != Fail(c)
    requires Calm(s, c, s.creators[c].guid, s.creators[c].connection)
    ensures c in Apply(s, a).creators && OnCourse(Apply(s, a).creators[c].phase)
  {
    assert CreatorOk(s, c);
    if a.ClaimTunnel? {
      ClaimSucceeds(s, c);
    } else if a.BindTunnel? {
      BindStaysOnCourse(s, c);
    } else if a.DisposeLeft? {
      assert s.creators[c].phase.left.None?;
    }
  }

  lemma BindStaysOnCourse(s: State, c: Creator)
    requires Inv(s) && HandOff(s) && Enabled(s, BindTunnel(c))
    requires Calm(s, c, s.creators[c].guid, s.creators[c].connection)
    ensures BindStep(s, c).creators[c].phase == Bound(s.creators[c].phase.tunnel)
  {
    var t := s.creators[c].phase.tunnel;
    assert CreatorOk(s, c);
    assert TakenOnce(s, t);
    assert StaysOpen(s, c, s.creators[c].guid, t);
    BindWorksHere(s, c);
  }

  /** Nobody closes the tunnel that is, or may become, that of an undisturbed call. */
  lemma NobodyCloses(s: State, a: Action, c: Creator, g: Guid, k: Connection, t: Tunnel)
    requires Inv(s) && HandOff(s) && Calm(s, c, g, k) && Enabled(s, a) && Spares(s, a, c, g, k)
    requires c in s.creators ==> s.creators[c].guid == g && s.creators[c].connection == k
    requires t in s.tunnels && Coming(s.tunnels[t], c, g)
    ensures Disposes(s, a) != Some(t)
  {
    assert TunnelOk(s, t) && BoundLate(s, t);
    match a
    case DisposeOwned(d) => assert CreatorOk(s, d);
    case DisposeLeft(d) => assert CreatorOk(s, d);
    case CloseNext(l, u) =>
      assert TodoBound(s, l);
      if u == t { assert CreatorOk(s, c); }
    case _ =>
  }

  lemma StaysOpenStep(s: State, a: Action, c: Creator, g: Guid, k: Connection, t: Tunnel)
    requires Inv(s) && HandOff(s) && Calm(s, c, g, k) && Enabled(s, a) && Spares(s, a, c, g, k)
    requires c in s.creators ==> s.creators[c].guid == g && s.creators[c].connection == k
    requires t in Apply(s, a).tunnels
    ensures StaysOpen(Apply(s, a), c, g, t)
  {
    if t !in s.tunnels {
      NewTunnel(s, a, t);
    } else {
      TunnelStep(s, a, t);
      assert StaysOpen(s, c, g, t);
      if Coming(Apply(s, a).tunnels[t], c, g) {
        ComingBefore(s, a, c, g, t);
        NobodyCloses(s, a, c, g, k, t);
      }
    }
  }

  lemma ComingBefore(s: State, a: Action, c: Creator, g: Guid, t: Tunnel)
    requires Inv(s) && Enabled(s, a) && t in s.tunnels && TunnelGoesOn(s, a, Apply(s, a), t)
    requires Coming(Apply(s, a).tunnels[t], c, g)
    ensures Coming(s.tunnels[t], c, g)
  {
    if a == Reject(t) { CloseEffect(s, t); }
  }

  lemma CourseStep(s: State, a: Action, c: Creator, g: Guid, k: Connection)
    requires Inv(s) && HandOff(s) && Calm(s, c, g, k) && Enabled(s, a) && Spares(s, a, c, g, k)
    requires c in s.creators ==> s.creators[c].guid == g && s.creators[c].connection == k
    ensures c in Apply(s, a).creators ==> OnCourse(Apply(s, a).creators[c].phase)
  {
    if c !in s.creators {
      if c in Apply(s, a).creators { NewCreator(s, a, c); }
    } else if Own(a, c) {
      OwnStepStaysOnCourse(s, a, c);
    } else {
      PhaseStays(s, a, c);
    }
  }

  lemma NewCreator(s: State, a: Action, c: Creator)
    requires Inv(s) && Enabled(s, a) && c !in s.creators && c in Apply(s, a).creators
    ensures Apply(s, a).creators[c].phase.Waiting?
  {
    if Disposes(s, a).Some? {
      CloseEffect(s, Disposes(s, a).value);
    } else if ByCreator(a) {
      CreatorsBringOne(s, a, c);
    } else {
      OthersBringNoCreator(s, a);
    }
  }

  lemma CreatorsBringOne(s: State, a: Action, c: Creator)
    requires Enabled(s, a) && Disposes(s, a).None? && ByCreator(a) && c !in s.creators && c in Apply(s, a).creators
    ensures Apply(s, a).creators[c].phase.Waiting?
  {
  }

  lemma OthersBringNoCreator(s: State, a: Action)
    requires Enabled(s, a) && Disposes(s, a).None? && !ByCreator(a)
    ensures Apply(s, a).creators.Keys == s.creators.Keys
  {
  }

  lemma CalmStep(s: State, a: Action, c: Creator, g: Guid, k: Connection)
    requires Inv(s) && HandOff(s) && Calm(s, c, g, k) && Enabled(s, a) && Spares(s, a, c, g, k)
    requires c in s.creators ==> s.creators[c].guid == g && s.creators[c].connection == k
    ensures Calm(Apply(s, a), c, g, k)
  {
    var s' := Apply(s, a);
    if k in s'.connections { LiveStays(s, a, k); }
    CourseStep(s, a, c, g, k);
    forall t | t in s'.tunnels ensures StaysOpen(s', c, g, t) { StaysOpenStep(s, a, c, g, k, t); }
  }

  lemma {:induction false} IdentityStays(states: seq<State>, actions: seq<Action>, i: nat, j: nat, c: Creator)
    requires Run(states, actions) && i <= j < |states| && c in states[i].creators
    ensures c in states[j].creators && states[j].creators[c].guid == states[i].creators[c].guid
    ensures states[j].creators[c].connection == states[i].creators[c].connection
    decreases j
  {
    if i < j {
      IdentityStays(states, actions, i, j - 1, c);
      RunKeepsInv(states, actions, j - 1);
      assert StepAt(states, actions, j - 1);
      CreatorMoveOn(states[j - 1], actions[j - 1], c);
    }
  }

  /** Creator `c` of the run has identifier `g` and asked for connection `k`; the run does not disturb it. */
  ghost predicate UndisturbedRun(states: seq<State>, actions: seq<Action>, c: Creator, g: Guid, k: Connection) {
    && Run(states, actions) && Undisturbed(states, actions, c, g, k)
    && var s := states[|actions|]; c in s.creators && s.creators[c].guid == g && s.creators[c].connection == k
  }

  lemma {:induction false} RunIsCalm(states: seq<State>, actions: seq<Action>, i: nat, c: Creator, g: Guid, k: Connection)
    requires UndisturbedRun(states, actions, c, g, k) && i < |states|
    ensures Calm(states[i], c, g, k)
  {
    if i > 0 {
      RunIsCalm(states, actions, i - 1, c, g, k);
      RunKeepsHandOff(states, actions, i - 1);
      assert StepAt(states, actions, i - 1);
      if c in states[i - 1].creators { IdentityStays(states, actions, i - 1, |actions|, c); }
      CalmStep(states[i - 1], actions[i - 1], c, g, k);
    }
  }

  /** Tunnel `t` is open, of this identifier, and one of the tunnels of connection `k`. */
  ghost predicate Delivered(s: State, t: Tunnel, g: Guid, k: Connection) {
    && t in s.tunnels && s.tunnels[t].guid == g && !s.tunnels[t].state.closed
    && k in s.connections && t in s.connections[k].state.tunnels
  }

  /**
   In every interleaving, a call that nobody interrupts, whose connection nobody disposes and whose streams
   nobody closes can only finish by returning a tunnel: open, of its identifier, registered with its connection.
   */
  lemma UndisturbedCallReturns(states: seq<State>, actions: seq<Action>, c: Creator, g: Guid, k: Connection)
    requires UndisturbedRun(states, actions, c, g, k) && states[|actions|].creators[c].phase.Done?
    ensures var s := states[|actions|];
      s.creators[c].phase.result.Some? && Delivered(s, s.creators[c].phase.result.value, g, k)
  {
    var s := states[|actions|];
    RunIsCalm(states, actions, |actions|, c, g, k);
    RunKeepsHandOff(states, actions, |actions|);
    var t := s.creators[c].phase.result.value;
    assert CreatorOk(s, c) && TunnelOk(s, t) && TakenOnce(s, t) && StaysOpen(s, c, g, t);
    assert ConnectionOk(s, k);
  }

  /** A tunnel that took the entry of an undisturbed call is on its way to it, or there. */
  predicate OnTheWay(s: State, t: Tunnel, c: Creator) {
    t in s.tunnels && (s.tunnels[t].acceptor == Taken(c) || s.tunnels[t].acceptor == Accepted(c))
  }

  lemma OfferIsAccepted(states: seq<State>, actions: seq<Action>, i: nat, c: Creator, g: Guid, k: Connection, t: Tunnel)
    requires UndisturbedRun(states, actions, c, g, k) && i < |actions| && StepAt(states, actions, i)
    requires actions[i] == OfferTunnel(t) && OnTheWay(states[i], t, c)
    ensures OnTheWay(states[i + 1], t, c)
  {
    var s := states[i];
    RunKeepsHandOff(states, actions, i);
    RunIsCalm(states, actions, i, c, g, k);
    IdentityStays(states, actions, i, |actions|, c);
    OfferAcceptedIff(states, actions, i, t);
    assert TakenOnce(s, t) && CreatorOk(s, c);
  }

  lemma {:induction false} StaysOnTheWay(states: seq<State>, actions: seq<Action>, i: nat, j: nat,
                                         c: Creator, g: Guid, k: Connection, t: Tunnel)
    requires UndisturbedRun(states, actions, c, g, k) && i <= j < |states| && OnTheWay(states[i], t, c)
    ensures OnTheWay(states[j], t, c)
    decreases j
  {
    if i < j {
      StaysOnTheWay(states, actions, i, j - 1, c, g, k, t);
      RunKeepsInv(states, actions, j - 1);
      assert StepAt(states, actions, j - 1);
      if actions[j - 1] == OfferTunnel(t) {
        OfferIsAccepted(states, actions, j - 1, c, g, k, t);
      } else {
        TunnelStep(states[j - 1], actions[j - 1], t);
      }
    }
  }

  /** Nothing is left to do for the call of `c` itself. */
  ghost predicate CallAtRest(s: State, c: Creator) {
    forall a :: Own(a, c) ==> !Enabled(s, a)
  }

  /**
   An answered call returns its answer: when tunnel `t` took the entry of an undisturbed call, its offer was
   made, and the call has run as far as it can, the call has returned `t`, open and registered.
   */
  lemma AnsweredCallReturns(states: seq<State>, actions: seq<Action>, i: nat, c: Creator, g: Guid, k: Connection, t: Tunnel)
    requires UndisturbedRun(states, actions, c, g, k) && i < |actions| && StepAt(states, actions, i)
    requires actions[i] == Take(t) && states[i].tunnels[t].guid == g && g in states[i].entries && states[i].entries[g] == c
    requires var s := states[|actions|]; t in s.tunnels && !s.tunnels[t].acceptor.Taken? && CallAtRest(s, c)
    ensures states[|actions|].creators[c].phase == Done(Some(t)) && Delivered(states[|actions|], t, g, k)
  {
    var s := states[|actions|];
    StaysOnTheWay(states, actions, i + 1, |actions|, c, g, k, t);
    RunKeepsInv(states, actions, |actions|);
    assert TunnelOk(s, t);
    CreatorAlwaysAdvances(states, actions, |actions|, c);
    UndisturbedCallReturns(states, actions, c, g, k);
    assert CreatorOk(s, c);
  }
}
