/** What the invariant gives over whole runs of the tunnel hand-off. */
module TunnelSafety {
  import opened Wrappers
  import opened TunnelLifecycle
  import opened TunnelProtocol
  import opened TunnelInvariant

  /** A run: any finite interleaving of enabled actions from the empty state. */
  ghost predicate Run(states: seq<State>, actions: seq<Action>) {
    && |states| == |actions| + 1
    && states[0] == Init
    && forall i {:trigger StepAt(states, actions, i)} :: 0 <= i < |actions| ==> StepAt(states, actions, i)
  }

  ghost predicate StepAt(states: seq<State>, actions: seq<Action>, i: nat)
    requires |states| == |actions| + 1
  {
    i < |actions| && Enabled(states[i], actions[i]) && states[i + 1] == Apply(states[i], actions[i])
  }

  lemma {:induction false} RunKeepsInv(states: seq<State>, actions: seq<Action>, i: nat)
    requires Run(states, actions) && i < |states|
    ensures Inv(states[i])
  {
    if i == 0 {
      assert Counted(Init) == {};
    } else {
      RunKeepsInv(states, actions, i - 1);
      assert StepAt(states, actions, i - 1);
      StepKeeps(states[i - 1], actions[i - 1]);
    }
  }

  // ---------------------------------------------------------------- one owner

  /** The disposal that an action performs on the way, if any. */
  function Disposes(s: State, a: Action): Option<Tunnel>
    requires Enabled(s, a)
  {
    match a
    case DisposeOwned(c) =>
      var p := s.creators[c].phase; if p.Unclaimed? then Some(p.tunnel) else p.owned
    case DisposeLeft(c) => s.creators[c].phase.left
    case Reject(t) => Some(t)
    case CloseStream(t) => Some(t)
    case CloseNext(_, t) => Some(t)
    case _ => None
  }

  /** Step `i` of the run is a successful claim of tunnel `t` by creator `c`. */
  ghost predicate ClaimsAt(states: seq<State>, actions: seq<Action>, i: nat, c: Creator, t: Tunnel)
    requires Run(states, actions)
  {
    && StepAt(states, actions, i) && actions[i] == ClaimTunnel(c)
    && states[i].creators[c].phase.tunnel == t
    && Claim(states[i].creators[c].pending, t).1
  }

  lemma {:induction false} ClaimsGrow(states: seq<State>, actions: seq<Action>, i: nat, j: nat)
    requires Run(states, actions) && i <= j < |states|
    ensures states[i].claims <= states[j].claims
    decreases j
  {
    if i < j {
      ClaimsGrow(states, actions, i, j - 1);
      StepGrowsClaims(states, actions, j - 1);
      PrefixOfPrefix(states[i].claims, states[j - 1].claims, states[j].claims);
    }
  }

  lemma StepGrowsClaims(states: seq<State>, actions: seq<Action>, n: nat)
    requires Run(states, actions) && n < |actions|
    ensures states[n].claims <= states[n + 1].claims
  {
    assert StepAt(states, actions, n);
    ClaimsOfStep(states[n], actions[n]);
  }

  lemma ClaimsOfStep(s: State, a: Action)
    requires Enabled(s, a)
    ensures s.claims <= Apply(s, a).claims
  {
    if a.ClaimTunnel? {
      assert s.claims <= ClaimStep(s, a.c).claims;
    } else if Disposes(s, a).Some? {
      ClaimsOfClosing(s, a);
    } else {
      ClaimsOfOthers(s, a);
    }
  }

  lemma ClaimsOfClosing(s: State, a: Action)
    requires Enabled(s, a) && Disposes(s, a).Some?
    ensures Apply(s, a).claims == s.claims
  {
  }

  lemma ClaimsOfOthers(s: State, a: Action)
    requires Enabled(s, a) && Disposes(s, a).None? && !a.ClaimTunnel?
    ensures Apply(s, a).claims == s.claims
  {
  }

  lemma PrefixOfPrefix<T>(a: seq<T>, b: seq<T>, c: seq<T>)
    requires a <= b <= c
    ensures a <= c
  {
  }

  lemma ClaimIsLogged(s: State, c: Creator, t: Tunnel)
    requires Enabled(s, ClaimTunnel(c)) && s.creators[c].phase.tunnel == t && Claim(s.creators[c].pending, t).1
    ensures Apply(s, ClaimTunnel(c)).claims == s.claims + [(c, t)]
  {
  }

  lemma LaterClaimDiffers(states: seq<State>, actions: seq<Action>, i: nat, j: nat, c: Creator, d: Creator, t: Tunnel, u: Tunnel)
    requires Run(states, actions) && i < j
    requires ClaimsAt(states, actions, i, c, t) && ClaimsAt(states, actions, j, d, u)
    ensures t != u
  {
    ClaimsGrow(states, actions, i + 1, j);
    RunKeepsInv(states, actions, j + 1);
    ClaimIsLogged(states[i], c, t);
    ClaimIsLogged(states[j], d, u);
    var a, b := |states[i].claims|, |states[j].claims|;
    assert states[j + 1].claims[a] == states[i + 1].claims[a] == (c, t);
    assert states[j + 1].claims[b] == (d, u);
  }

  /** Over a whole run a tunnel is claimed at most once, hence by at most one creator. */
  lemma ClaimedAtMostOnce(states: seq<State>, actions: seq<Action>, i: nat, j: nat, c: Creator, d: Creator, t: Tunnel)
    requires Run(states, actions)
    requires ClaimsAt(states, actions, i, c, t) && ClaimsAt(states, actions, j, d, t)
    ensures i == j && c == d
  {
    if i < j {
      LaterClaimDiffers(states, actions, i, j, c, d, t, t);
    } else if j < i {
      LaterClaimDiffers(states, actions, j, i, d, c, t, t);
    }
  }

  // ---------------------------------------------------------------- no leak

  /**
   A finished creator keeps nothing in its slot, and every tunnel that `SetResult` handed to it was
   closed, or is the one it returned, bound to the connection it was asked for.
   */
  lemma FinishedCreatorLeaksNothing(states: seq<State>, actions: seq<Action>, i: nat, c: Creator, t: Tunnel)
    requires Run(states, actions) && i < |states|
    requires c in states[i].creators && states[i].creators[c].phase.Done?
    requires t in states[i].tunnels && states[i].tunnels[t].acceptor == Accepted(c)
    ensures var s := states[i]; var u := s.tunnels[t].state;
      && s.creators[c].pending.slot.None?
      && (u.closed || (s.creators[c].phase.result == Some(t) && u.counted && u.connection == Some(s.creators[c].connection)))
  {
    RunKeepsInv(states, actions, i);
    assert CreatorOk(states[i], c) && TunnelOk(states[i], t);
  }

  ghost predicate Quiescent(s: State) {
    && (forall c <- s.creators :: s.creators[c].phase.Done?)
    && (forall t <- s.tunnels :: s.tunnels[t].acceptor.Accepted? || s.tunnels[t].acceptor.Rejected?)
  }

  /** Some creator returned tunnel `t`, and it is registered with that creator's connection. */
  ghost predicate ReturnedAndBound(s: State, t: Tunnel) {
    exists c :: c in s.creators && s.creators[c].phase == Done(Some(t)) &&
                s.creators[c].connection in s.connections &&
                t in s.connections[s.creators[c].connection].state.tunnels
  }

  /** When all calls have finished, the open tunnels are exactly those counted, and each was returned. */
  lemma QuiescentStateLeaksNothing(states: seq<State>, actions: seq<Action>, i: nat)
    requires Run(states, actions) && i < |states| && Quiescent(states[i])
    ensures var s := states[i];
      && Counted(s) == (set t | t in s.tunnels && !s.tunnels[t].state.closed)
      && s.openGauge == |Counted(s)|
      && forall t <- Counted(s) :: ReturnedAndBound(s, t)
  {
    var s := states[i];
    RunKeepsInv(states, actions, i);
    forall t | t in s.tunnels && !s.tunnels[t].state.closed
      ensures s.tunnels[t].state.counted
      ensures ReturnedAndBound(s, t)
    {
      assert TunnelOk(s, t);
      var c := s.tunnels[t].acceptor.creator;
      assert CreatorOk(s, c);
      assert ConnectionOk(s, s.creators[c].connection);
    }
    forall t | t in Counted(s) ensures !s.tunnels[t].state.closed { assert TunnelOk(s, t); }
  }

  /** A stream is closed at most once, and it is closed exactly when the tunnel is marked closed. */
  lemma ClosedExactlyOnce(states: seq<State>, actions: seq<Action>, i: nat, t: Tunnel)
    requires Run(states, actions) && i < |states| && t in states[i].tunnels
    ensures var s := states[i];
      multiset(s.closes)[t] == if s.tunnels[t].state.closed then 1 else 0
  {
    RunKeepsInv(states, actions, i);
    assert TunnelOk(states[i], t);
    assert ClosesOk(states[i]);
    DistinctCount(states[i].closes, t);
  }

  lemma {:induction false} DistinctCount(xs: seq<Tunnel>, t: Tunnel)
    requires forall i, j :: 0 <= i < j < |xs| ==> xs[i] != xs[j]
    ensures multiset(xs)[t] == if t in xs then 1 else 0
  {
    if xs != [] {
      assert xs == [xs[0]] + xs[1..];
      DistinctCount(xs[1..], t);
    }
  }

  // ---------------------------------------------------------------- exact counting

  /** The count of a connection is the number of open tunnels bound to it, in every reachable state. */
  lemma CountIsExact(states: seq<State>, actions: seq<Action>, i: nat, k: Connection)
    requires Run(states, actions) && i < |states| && k in states[i].connections
    ensures var s := states[i];
      && s.connections[k].state.tunnels ==
           (set t | t in s.tunnels && s.tunnels[t].state.connection == Some(k) && !s.tunnels[t].state.closed)
      && s.connections[k].state.count == |s.connections[k].state.tunnels|
  {
    var s := states[i];
    RunKeepsInv(states, actions, i);
    assert ConnectionOk(s, k);
    forall t | t in s.tunnels && s.tunnels[t].state.connection == Some(k)
      ensures s.tunnels[t].state.counted <==> !s.tunnels[t].state.closed
    {
      assert TunnelOk(s, t);
    }
  }

  // ---------------------------------------------------------------- disposal of a connection

  /** Clearing the set at the end of `DisposeAsync` removes nothing: every tunnel already took itself out. */
  lemma ClearFindsNothing(states: seq<State>, actions: seq<Action>, i: nat, k: Connection)
    requires Run(states, actions) && i < |states| && Enabled(states[i], Clear(k))
    ensures states[i].connections[k].state.tunnels == {} && states[i].connections[k].state.count == 0
  {
    RunKeepsInv(states, actions, i);
    assert ConnectionOk(states[i], k);
  }

  /** How far the disposal of a connection has come only grows. */
  predicate PhaseGoesOn(p: DisposePhase, q: DisposePhase) {
    (!p.Live? ==> !q.Live?) && (p.Disposed? ==> q.Disposed?)
  }

  lemma ConnectionStepGoesOn(s: State, a: Action, k: Connection)
    requires Enabled(s, a) && k in s.connections && (a.Connect? || a.BeginDispose? || a.Snapshot? || a.Clear? || a.BindTunnel?)
    ensures k in Apply(s, a).connections && PhaseGoesOn(s.connections[k].phase, Apply(s, a).connections[k].phase)
  {
  }

  lemma CloseNextGoesOn(s: State, l: Connection, t: Tunnel, k: Connection)
    requires Inv(s) && Enabled(s, CloseNext(l, t)) && k in s.connections
    ensures var s' := Apply(s, CloseNext(l, t));
      k in s'.connections && PhaseGoesOn(s.connections[k].phase, s'.connections[k].phase)
  {
    CloseEffect(s, t);
  }

  lemma ClosingStepGoesOn(s: State, a: Action, k: Connection)
    requires Inv(s) && Enabled(s, a) && k in s.connections && Disposes(s, a).Some? && !a.CloseNext?
    ensures k in Apply(s, a).connections && Apply(s, a).connections[k].phase == s.connections[k].phase
  {
    CloseEffect(s, Disposes(s, a).value);
  }

  lemma OtherStepGoesOn(s: State, a: Action, k: Connection)
    requires Enabled(s, a) && k in s.connections && Disposes(s, a).None?
    requires !(a.Connect? || a.BeginDispose? || a.Snapshot? || a.Clear? || a.BindTunnel? || a.CloseNext?)
    ensures Apply(s, a).connections == s.connections
  {
  }

  lemma StepKeepsDisposal(s: State, a: Action, k: Connection)
    requires Inv(s) && Enabled(s, a) && k in s.connections
    ensures k in Apply(s, a).connections && PhaseGoesOn(s.connections[k].phase, Apply(s, a).connections[k].phase)
  {
    if a.Connect? || a.BeginDispose? || a.Snapshot? || a.Clear? || a.BindTunnel? {
      ConnectionStepGoesOn(s, a, k);
    } else if a.CloseNext? {
      CloseNextGoesOn(s, a.k, a.t, k);
    } else if Disposes(s, a).Some? {
      ClosingStepGoesOn(s, a, k);
    } else {
      OtherStepGoesOn(s, a, k);
    }
  }

  lemma {:induction false} DisposalIsForever(states: seq<State>, actions: seq<Action>, i: nat, j: nat, k: Connection)
    requires Run(states, actions) && i <= j < |states| && k in states[i].connections
    ensures k in states[j].connections
    ensures !states[i].connections[k].phase.Live? ==> !states[j].connections[k].phase.Live?
    ensures states[i].connections[k].phase.Disposed? ==> states[j].connections[k].phase.Disposed?
    decreases j
  {
    if i < j {
      DisposalIsForever(states, actions, i, j - 1, k);
      RunKeepsInv(states, actions, j - 1);
      assert StepAt(states, actions, j - 1);
      StepKeepsDisposal(states[j - 1], actions[j - 1], k);
    }
  }

  /** Once a connection is marked disposed, no bind to it succeeds for the rest of the run. */
  lemma NoBindAfterDispose(states: seq<State>, actions: seq<Action>, i: nat, j: nat, k: Connection, c: Creator)
    requires Run(states, actions) && i <= j < |actions|
    requires k in states[i].connections && !states[i].connections[k].phase.Live?
    requires StepAt(states, actions, j) && actions[j] == BindTunnel(c) && states[j].creators[c].connection == k
    ensures states[j + 1].creators[c].phase == Cleanup(Some(states[j].creators[c].phase.tunnel), None)
    ensures states[j + 1].binds == states[j].binds
  {
    DisposalIsForever(states, actions, i, j, k);
    RunKeepsInv(states, actions, j);
    assert ConnectionOk(states[j], k);
  }

  /** After `DisposeAsync` completes, every tunnel ever bound to the connection is closed, for ever, and the count is 0. */
  lemma DisposedConnectionIsEmpty(states: seq<State>, actions: seq<Action>, i: nat, j: nat, k: Connection)
    requires Run(states, actions) && i <= j < |states|
    requires k in states[i].connections && states[i].connections[k].phase.Disposed?
    ensures var s := states[j];
      && k in s.connections && s.connections[k].state == ConnectionState(true, {}, 0)
      && forall t :: (t, k) in s.binds ==> t in s.tunnels && s.tunnels[t].state.closed
  {
    var s := states[j];
    DisposalIsForever(states, actions, i, j, k);
    RunKeepsInv(states, actions, j);
    assert ConnectionOk(s, k);
    forall t | (t, k) in s.binds ensures t in s.tunnels && s.tunnels[t].state.closed {
      assert BindsOk(s) && TunnelOk(s, t);
    }
  }

  // ---------------------------------------------------------------- progress

  /** The number of own steps a creator still takes at most. */
  function Remaining(p: CreatorPhase): nat {
    match p
    case Waiting => 8
    case Received(_) => 7
    case Unclaimed(_) => 6
    case Owned(_) => 6
    case Bound(_) => 5
    case Cleanup(o, _) => if o.Some? then 4 else 3
    case Removed(_) => 2
    case Abandoned(_, _) => 1
    case Done(_) => 0
  }

  /** A step of the call of creator `c`. */
  predicate Own(a: Action, c: Creator) {
    || a == Receive(c) || a == Fail(c) || a == ClaimTunnel(c) || a == BindTunnel(c) || a == Return(c)
    || a == DisposeOwned(c) || a == RemoveEntry(c) || a == AbandonPending(c) || a == DisposeLeft(c)
  }

  /** The step is the creator's own, possible, and brings it nearer to the end. */
  predicate Advances(s: State, a: Action, c: Creator)
    requires c in s.creators
  {
    && Own(a, c) && Enabled(s, a) && c in Apply(s, a).creators
    && Remaining(Apply(s, a).creators[c].phase) < Remaining(s.creators[c].phase)
  }

  /** Nothing has come and nobody has cancelled: the one case in which a creator waits. */
  predicate Idle(s: State, c: Creator)
    requires c in s.creators
  {
    s.creators[c].phase.Waiting? && !s.creators[c].pending.source.Result? && !Interrupted(s, c)
  }

  /** The next own step of a creator that has neither finished nor idles. */
  function NextOf(s: State, c: Creator): Action
    requires c in s.creators
  {
    match s.creators[c].phase
    case Waiting => if s.creators[c].pending.source.Result? then Receive(c) else Fail(c)
    case Received(_) => ClaimTunnel(c)
    case Unclaimed(_) => DisposeOwned(c)
    case Owned(_) => BindTunnel(c)
    case Bound(_) => Return(c)
    case Cleanup(o, _) => if o.Some? then DisposeOwned(c) else RemoveEntry(c)
    case Removed(_) => AbandonPending(c)
    case Abandoned(_, _) => DisposeLeft(c)
    case Done(_) => Fail(c)
  }

  lemma DisposingStepsDoNotSetBack(s: State, a: Action, c: Creator)
    requires Inv(s) && Enabled(s, a) && c in s.creators && Disposes(s, a).Some?
    ensures c in Apply(s, a).creators && Remaining(Apply(s, a).creators[c].phase) <= Remaining(s.creators[c].phase)
  {
    CloseEffect(s, Disposes(s, a).value);
  }

  lemma OthersDoNotSetBack(s: State, a: Action, c: Creator)
    requires Inv(s) && Enabled(s, a) && c in s.creators
    ensures c in Apply(s, a).creators && Remaining(Apply(s, a).creators[c].phase) <= Remaining(s.creators[c].phase)
  {
    if Disposes(s, a).Some? {
      DisposingStepsDoNotSetBack(s, a, c);
    } else if a.BindTunnel? {
      BindDoesNotSetBack(s, a.c, c);
    } else {
      QuietStepsDoNotSetBack(s, a, c);
    }
  }

  lemma BindDoesNotSetBack(s: State, d: Creator, c: Creator)
    requires Enabled(s, BindTunnel(d)) && c in s.creators
    ensures c in BindStep(s, d).creators && Remaining(BindStep(s, d).creators[c].phase) <= Remaining(s.creators[c].phase)
  {
  }

  lemma QuietStepsDoNotSetBack(s: State, a: Action, c: Creator)
    requires Enabled(s, a) && c in s.creators && Disposes(s, a).None? && !a.BindTunnel?
    ensures c in Apply(s, a).creators && Remaining(Apply(s, a).creators[c].phase) <= Remaining(s.creators[c].phase)
  {
    if ByCreator(a) { CreatorsDoNotSetBack(s, a, c); } else { AcceptorsDoNotSetBack(s, a, c); }
  }

  lemma CreatorsDoNotSetBack(s: State, a: Action, c: Creator)
    requires Enabled(s, a) && c in s.creators && Disposes(s, a).None? && !a.BindTunnel? && ByCreator(a)
    ensures c in Apply(s, a).creators && Remaining(Apply(s, a).creators[c].phase) <= Remaining(s.creators[c].phase)
  {
    if a.c == c { OwnStepGoesOn(s, a); } else { OtherCreatorsGoOn(s, a, c); }
  }

  lemma OwnStepGoesOn(s: State, a: Action)
    requires Enabled(s, a) && Disposes(s, a).None? && !a.BindTunnel? && ByCreator(a) && a.c in s.creators
    ensures a.c in Apply(s, a).creators
    ensures Remaining(Apply(s, a).creators[a.c].phase) <= Remaining(s.creators[a.c].phase)
  {
  }

  lemma OtherCreatorsGoOn(s: State, a: Action, c: Creator)
    requires Enabled(s, a) && c in s.creators && Disposes(s, a).None? && !a.BindTunnel? && ByCreator(a) && a.c != c
    ensures c in Apply(s, a).creators && Apply(s, a).creators[c] == s.creators[c]
  {
  }

  lemma AcceptorsDoNotSetBack(s: State, a: Action, c: Creator)
    requires Enabled(s, a) && c in s.creators && Disposes(s, a).None? && !ByCreator(a)
    ensures c in Apply(s, a).creators && Apply(s, a).creators[c].phase == s.creators[c].phase
  {
  }

  lemma OwnStepAdvances(s: State, c: Creator)
    requires Inv(s) && c in s.creators && !s.creators[c].phase.Done? && !Idle(s, c)
    ensures Advances(s, NextOf(s, c), c)
  {
    assert CreatorOk(s, c);
    var p := s.creators[c].phase;
    if p.Cleanup? && p.owned.Some? {
      CloseEffect(s, p.owned.value);
    } else if p.Abandoned? {
      if p.left.Some? { CloseEffect(s, p.left.value); }
    } else {
      PlainStepAdvances(s, c);
    }
  }

  lemma PlainStepAdvances(s: State, c: Creator)
    requires c in s.creators && CreatorOk(s, c) && !s.creators[c].phase.Done? && !Idle(s, c)
    requires !s.creators[c].phase.Abandoned? && !(s.creators[c].phase.Cleanup? && s.creators[c].phase.owned.Some?)
    ensures Advances(s, NextOf(s, c), c)
  {
  }

  lemma NoOwnStep(s: State, a: Action, c: Creator)
    requires c in s.creators && (s.creators[c].phase.Done? || Idle(s, c)) && Own(a, c)
    ensures !Enabled(s, a)
  {
  }

  /**
   A creator has a step of its own that brings it nearer to the end exactly until it has finished, except
   while nothing has come and neither its call is cancelled nor its connection disposed; and no step of
   another party sets it back.
   */
  lemma CreatorAlwaysAdvances(states: seq<State>, actions: seq<Action>, i: nat, c: Creator)
    requires Run(states, actions) && i < |states| && c in states[i].creators
    ensures (exists a :: Advances(states[i], a, c)) <==> !states[i].creators[c].phase.Done? && !Idle(states[i], c)
    ensures i < |actions| ==> c in states[i + 1].creators
    ensures i < |actions| ==>
      Remaining(states[i + 1].creators[c].phase) <= Remaining(states[i].creators[c].phase)
  {
    var s := states[i];
    RunKeepsInv(states, actions, i);
    if s.creators[c].phase.Done? || Idle(s, c) {
      forall a ensures !Advances(s, a, c) { if Own(a, c) { NoOwnStep(s, a, c); } }
    } else {
      OwnStepAdvances(s, c);
    }
    if i < |actions| {
      assert StepAt(states, actions, i);
      OthersDoNotSetBack(s, actions[i], c);
    }
  }
}
