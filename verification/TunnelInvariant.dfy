/** Every action keeps the invariant of the tunnel hand-off. */
module TunnelInvariant {
  import opened Wrappers
  import opened TunnelLifecycle
  import opened TunnelProtocol

  // ---------------------------------------------------------------- closing a tunnel

  lemma CloseEffect(s: State, t: Tunnel)
    requires Inv(s)
    ensures var s' := Close(s, t);
      && s'.creators == s.creators && s'.entries == s.entries && s'.claims == s.claims && s'.binds == s.binds
      && s'.tunnels.Keys == s.tunnels.Keys && s'.connections.Keys == s.connections.Keys
      && (t in s.tunnels ==> s'.tunnels[t].state.closed)
      && (forall k <- s.connections :: s'.connections[k].phase == s.connections[k].phase)
  {
    assert t in s.tunnels ==> TunnelOk(s, t);
  }

  lemma CloseKeepsConnection(s: State, t: Tunnel, k: Connection)
    requires Inv(s) && k in s.connections
    ensures k in Close(s, t).connections && ConnectionOk(Close(s, t), k)
  {
    assert ConnectionOk(s, k);
    assert t in s.tunnels ==> TunnelOk(s, t);
  }

  lemma CloseKeepsTunnel(s: State, t: Tunnel, u: Tunnel)
    requires Inv(s) && u in s.tunnels
    ensures u in Close(s, t).tunnels && TunnelOk(Close(s, t), u)
  {
    assert TunnelOk(s, u);
    assert t in s.tunnels ==> TunnelOk(s, t);
  }

  lemma CloseKeepsGauge(s: State, t: Tunnel)
    requires Inv(s)
    ensures GaugeOk(Close(s, t))
  {
    if t in s.tunnels && !s.tunnels[t].state.disposed {
      assert TunnelOk(s, t);
      assert Counted(Close(s, t)) == Counted(s) - {t};
    }
  }

  lemma CloseKeepsHistory(s: State, t: Tunnel)
    requires Inv(s)
    ensures var s' := Close(s, t); ClosesOk(s') && ClaimsOk(s') && BindsOk(s') && EntriesOk(s')
  {
    CloseEffect(s, t);
    assert t in s.tunnels ==> TunnelOk(s, t);
    assert ClosesOk(s) && ClaimsOk(s) && BindsOk(s) && EntriesOk(s);
    assert Close(s, t).closes == s.closes || (Close(s, t).closes == s.closes + [t] && t !in s.closes);
    assert forall u <- s.tunnels :: Close(s, t).tunnels[u].state.connection == s.tunnels[u].state.connection;
  }

  lemma CloseKeeps(s: State, t: Tunnel)
    requires Inv(s)
    ensures Inv(Close(s, t))
  {
    var s' := Close(s, t);
    CloseEffect(s, t);
    CloseKeepsGauge(s, t);
    CloseKeepsHistory(s, t);
    forall k | k in s'.connections ensures ConnectionOk(s', k) { CloseKeepsConnection(s, t, k); }
    forall u | u in s'.tunnels ensures TunnelOk(s', u) { CloseKeepsTunnel(s, t, u); }
    forall c | c in s'.creators ensures CreatorOk(s', c) { CloseKeepsCreator(s, t, c); }
  }

  lemma CloseKeepsCreator(s: State, t: Tunnel, c: Creator)
    requires Inv(s) && c in s.creators
    ensures c in Close(s, t).creators && CreatorOk(Close(s, t), c)
  {
    CloseEffect(s, t);
    assert CreatorOk(s, c);
  }

  // ---------------------------------------------------------------- one record changes

  lemma ConnectionsStay(s: State, s': State)
    requires Inv(s) && s'.connections == s.connections && s'.tunnels == s.tunnels
    ensures forall k {:trigger ConnectionOk(s', k)} :: k in s'.connections ==> ConnectionOk(s', k)
  {
    forall k | k in s'.connections ensures ConnectionOk(s', k) { assert ConnectionOk(s, k); }
  }

  /** Nothing but creators, entries and claims changes; the gauge and the other histories do not notice. */
  ghost predicate OnlyCreators(s: State, s': State) {
    && s'.tunnels == s.tunnels && s'.connections == s.connections && s'.openGauge == s.openGauge
    && s'.binds == s.binds && s'.closes == s.closes
  }

  lemma HistoryStays(s: State, s': State)
    requires Inv(s) && OnlyCreators(s, s')
    ensures GaugeOk(s') && ClosesOk(s') && BindsOk(s')
  {
    assert Counted(s') == Counted(s);
  }

  /** The record of `c` forgets neither its source nor its claim, and gives up only closed tunnels. */
  ghost predicate Continues(s: State, c: Creator, next: CreatorState) {
    && (c in s.creators ==>
          var cs := s.creators[c];
          && (cs.pending.source.Result? ==> next.pending.source == cs.pending.source)
          && (cs.pending.claimed ==> next.pending.claimed))
    && forall t :: t in s.tunnels && s.tunnels[t].acceptor == Accepted(c) ==> s.tunnels[t].state.closed || Holds(next, t)
  }

  lemma TunnelsStay(s: State, s': State, c: Creator, t: Tunnel)
    requires Inv(s) && t in s.tunnels && OnlyCreators(s, s')
    requires c in s'.creators && s'.creators == s.creators[c := s'.creators[c]] && Continues(s, c, s'.creators[c])
    ensures TunnelOk(s', t)
  {
    assert TunnelOk(s, t);
  }

  lemma OtherCreatorsStay(s: State, s': State, c: Creator, d: Creator)
    requires Inv(s) && d in s.creators && d != c && OnlyCreators(s, s')
    requires c in s'.creators && s'.creators == s.creators[c := s'.creators[c]]
    ensures CreatorOk(s', d)
  {
    assert CreatorOk(s, d);
  }

  /** Only the record of creator `c` changes, and its slot forgets nothing. */
  lemma CreatorStep(s: State, s': State, c: Creator)
    requires Inv(s) && OnlyCreators(s, s')
    requires c in s'.creators && s'.creators == s.creators[c := s'.creators[c]]
    requires EntriesOk(s') && ClaimsOk(s') && CreatorOk(s', c) && Continues(s, c, s'.creators[c])
    ensures Inv(s')
  {
    ConnectionsStay(s, s');
    HistoryStays(s, s');
    forall t | t in s'.tunnels ensures TunnelOk(s', t) { TunnelsStay(s, s', c, t); }
    forall d | d in s'.creators ensures CreatorOk(s', d) { if d != c { OtherCreatorsStay(s, s', c, d); } }
  }

  /** The claims of the past stay good when the record of `c` continues. */
  lemma ClaimsStay(s: State, s': State, c: Creator)
    requires Inv(s) && s'.claims == s.claims
    requires c in s'.creators && s'.creators == s.creators[c := s'.creators[c]] && Continues(s, c, s'.creators[c])
    ensures ClaimsOk(s')
  {
    assert ClaimsOk(s);
  }

  /** What a creator may do to its phase alone: it stays in order and gives up only closed tunnels. */
  ghost predicate PhaseMay(s: State, c: Creator, phase: CreatorPhase)
    requires c in s.creators
  {
    var cs := s.creators[c];
    var next := cs.(phase := phase);
    && PhaseOk(next) && (BoundTunnel(next) == None || BoundTunnel(next) == BoundTunnel(cs))
    && forall t :: Holds(cs, t) ==> Holds(next, t) || (t in s.tunnels && s.tunnels[t].state.closed)
  }

  lemma HeldStays(s: State, c: Creator, phase: CreatorPhase)
    requires Inv(s) && c in s.creators && PhaseMay(s, c, phase)
    ensures Continues(s, c, s.creators[c].(phase := phase))
  {
    forall t | t in s.tunnels && s.tunnels[t].acceptor == Accepted(c)
      ensures s.tunnels[t].state.closed || Holds(s.creators[c].(phase := phase), t)
    {
      assert TunnelOk(s, t);
    }
  }

  lemma PhaseMoves(s: State, c: Creator, phase: CreatorPhase, entries: map<Guid, Creator>)
    requires Inv(s) && c in s.creators && PhaseMay(s, c, phase)
    requires forall g <- entries :: g in s.entries && entries[g] == s.entries[g]
    ensures Inv(SetPhase(s.(entries := entries), c, phase))
  {
    var s' := SetPhase(s.(entries := entries), c, phase);
    HeldStays(s, c, phase);
    assert CreatorOk(s, c);
    assert CreatorOk(s', c);
    assert EntriesOk(s);
    ClaimsStay(s, s', c);
    CreatorStep(s, s', c);
  }

  /** Only the acceptor of tunnel `t` moves, not into or out of the hands of a creator. */
  lemma AcceptorStep(s: State, s': State, t: Tunnel)
    requires Inv(s)
    requires t in s'.tunnels && s'.tunnels == s.tunnels[t := s'.tunnels[t]]
    requires s'.creators == s.creators && s'.connections == s.connections && s'.openGauge == s.openGauge
    requires s'.claims == s.claims && s'.binds == s.binds && s'.closes == s.closes
    requires EntriesOk(s') && TunnelOk(s', t)
    requires t in s.tunnels ==> s'.tunnels[t].state == s.tunnels[t].state && !s.tunnels[t].acceptor.Accepted?
    requires t !in s.tunnels ==> s'.tunnels[t].state.connection.None?
    ensures Inv(s')
  {
    forall k | k in s'.connections ensures ConnectionOk(s', k) { AcceptorAndConnections(s, s', t, k); }
    forall u | u in s'.tunnels ensures TunnelOk(s', u) { if u != t { AcceptorAndTunnels(s, s', t, u); } }
    forall d | d in s'.creators ensures CreatorOk(s', d) { AcceptorAndCreators(s, s', t, d); }
    assert Counted(s') == Counted(s);
  }

  lemma AcceptorAndConnections(s: State, s': State, t: Tunnel, k: Connection)
    requires Inv(s) && k in s.connections && s'.connections == s.connections
    requires t in s'.tunnels && s'.tunnels == s.tunnels[t := s'.tunnels[t]]
    requires t in s.tunnels ==> s'.tunnels[t].state == s.tunnels[t].state
    requires t !in s.tunnels ==> s'.tunnels[t].state.connection.None?
    ensures ConnectionOk(s', k)
  {
    assert ConnectionOk(s, k);
  }

  lemma AcceptorAndTunnels(s: State, s': State, t: Tunnel, u: Tunnel)
    requires Inv(s) && u in s.tunnels && u != t
    requires s'.creators == s.creators && s'.connections == s.connections && s'.closes == s.closes
    requires t in s'.tunnels && s'.tunnels == s.tunnels[t := s'.tunnels[t]]
    ensures TunnelOk(s', u)
  {
    assert TunnelOk(s, u);
  }

  lemma AcceptorAndCreators(s: State, s': State, t: Tunnel, d: Creator)
    requires Inv(s) && d in s.creators && s'.creators == s.creators && s'.connections == s.connections
    requires t in s'.tunnels && s'.tunnels == s.tunnels[t := s'.tunnels[t]]
    requires t in s.tunnels ==> s'.tunnels[t].state == s.tunnels[t].state && !s.tunnels[t].acceptor.Accepted?
    ensures CreatorOk(s', d)
  {
    assert CreatorOk(s, d);
  }

  /** Only the record of connection `k` changes. */
  lemma ConnectionStep(s: State, s': State, k: Connection)
    requires Inv(s)
    requires k in s'.connections && s' == SetConnection(s, k, s'.connections[k])
    requires ConnectionOk(s', k)
    ensures Inv(s')
  {
    forall l | l in s'.connections ensures ConnectionOk(s', l) { assert l != k ==> ConnectionOk(s, l); }
    forall u | u in s'.tunnels ensures TunnelOk(s', u) { assert TunnelOk(s, u); }
    forall d | d in s'.creators ensures CreatorOk(s', d) { assert CreatorOk(s, d); }
    assert Counted(s') == Counted(s);
  }

  // ---------------------------------------------------------------- actions

  /** A creator that received a tunnel always claims it: only its own cleanup abandons its slot. */
  lemma ClaimSucceeds(s: State, c: Creator)
    requires Inv(s) && Enabled(s, ClaimTunnel(c))
    ensures Claim(s.creators[c].pending, s.creators[c].phase.tunnel).1
  {
    assert CreatorOk(s, c);
  }

  lemma ClaimingContinues(s: State, c: Creator)
    requires Inv(s) && Enabled(s, ClaimTunnel(c))
    ensures var s' := ClaimStep(s, c);
      s'.creators[c].phase == Owned(s.creators[c].phase.tunnel) && CreatorOk(s', c) && Continues(s, c, s'.creators[c])
  {
    var s' := ClaimStep(s, c);
    assert CreatorOk(s, c);
    forall t | t in s.tunnels && s.tunnels[t].acceptor == Accepted(c) ensures Holds(s'.creators[c], t) {
      assert TunnelOk(s, t);
    }
  }

  /** Nobody claimed the tunnel before: a claim is remembered in the slot it came from. */
  lemma ClaimIsNew(s: State, c: Creator)
    requires Inv(s) && Enabled(s, ClaimTunnel(c))
    ensures forall x <- s.claims :: x.1 != s.creators[c].phase.tunnel
  {
    assert CreatorOk(s, c) && ClaimsOk(s);
    forall x | x in s.claims ensures x.1 != s.creators[c].phase.tunnel {
      assert CreatorOk(s, x.0);
    }
  }

  lemma ClaimsAfterClaim(s: State, c: Creator)
    requires Inv(s) && Enabled(s, ClaimTunnel(c))
    ensures ClaimsOk(ClaimStep(s, c))
  {
    var s' := ClaimStep(s, c);
    ClaimSucceeds(s, c);
    ClaimIsNew(s, c);
    ClaimingContinues(s, c);
    assert CreatorOk(s, c);
    var t := s.creators[c].phase.tunnel;
    ClaimsStay(s, s'.(claims := s.claims), c);
    assert s'.claims == s.claims + [(c, t)];
  }

  lemma ClaimKeeps(s: State, c: Creator)
    requires Inv(s) && Enabled(s, ClaimTunnel(c))
    ensures Inv(ClaimStep(s, c))
  {
    ClaimSucceeds(s, c);
    ClaimingContinues(s, c);
    ClaimsAfterClaim(s, c);
    CreatorStep(s, ClaimStep(s, c), c);
  }

  /** The completion source of an open slot is still waiting, so offering a tunnel cannot fail late. */
  lemma OfferSucceeds(s: State, c: Creator)
    requires Inv(s) && c in s.creators
    requires var p := s.creators[c].pending; !p.abandoned && !p.completed && !p.claimed
    ensures s.creators[c].pending.source.Waiting?
  {
    assert CreatorOk(s, c);
  }

  lemma OfferKeeps(s: State, t: Tunnel)
    requires Inv(s) && Enabled(s, OfferTunnel(t))
    ensures Inv(OfferStep(s, t))
  {
    var s' := OfferStep(s, t);
    var c := s.tunnels[t].acceptor.creator;
    assert CreatorOk(s, c) && TunnelOk(s, t);
    if !Offer(s.creators[c].pending, t).1 {
      OfferSucceedsOrRefuses(s, c, t);
      assert s'.creators == s.creators;
      AcceptorStep(s, s', t);
      return;
    }
    OfferKeepsRecords(s, t);
    assert Counted(s') == Counted(s);
    OfferKeepsHistory(s, t);
  }

  predicate OfferWorks(s: State, t: Tunnel) {
    Enabled(s, OfferTunnel(t)) && Offer(s.creators[s.tunnels[t].acceptor.creator].pending, t).1
  }

  lemma OfferKeepsConnection(s: State, t: Tunnel, k: Connection)
    requires Inv(s) && OfferWorks(s, t) && k in s.connections
    ensures ConnectionOk(OfferStep(s, t), k)
  {
    assert ConnectionOk(s, k);
  }

  lemma OfferKeepsTunnel(s: State, t: Tunnel, u: Tunnel)
    requires Inv(s) && OfferWorks(s, t) && u in s.tunnels
    ensures TunnelOk(OfferStep(s, t), u)
  {
    assert CreatorOk(s, s.tunnels[t].acceptor.creator) && TunnelOk(s, t) && TunnelOk(s, u);
  }

  lemma OfferKeepsCreator(s: State, t: Tunnel, d: Creator)
    requires Inv(s) && OfferWorks(s, t) && d in s.creators
    ensures CreatorOk(OfferStep(s, t), d)
  {
    assert TunnelOk(s, t) && CreatorOk(s, d);
  }

  lemma OfferKeepsRecords(s: State, t: Tunnel)
    requires Inv(s) && OfferWorks(s, t)
    ensures var s' := OfferStep(s, t);
      && (forall k {:trigger ConnectionOk(s', k)} :: k in s'.connections ==> ConnectionOk(s', k))
      && (forall u {:trigger TunnelOk(s', u)} :: u in s'.tunnels ==> TunnelOk(s', u))
      && (forall d {:trigger CreatorOk(s', d)} :: d in s'.creators ==> CreatorOk(s', d))
  {
    var s' := OfferStep(s, t);
    forall k | k in s'.connections ensures ConnectionOk(s', k) { OfferKeepsConnection(s, t, k); }
    forall u | u in s'.tunnels ensures TunnelOk(s', u) { OfferKeepsTunnel(s, t, u); }
    forall d | d in s'.creators ensures CreatorOk(s', d) { OfferKeepsCreator(s, t, d); }
  }

  lemma OfferSucceedsOrRefuses(s: State, c: Creator, t: Tunnel)
    requires Inv(s) && c in s.creators && !Offer(s.creators[c].pending, t).1
    ensures Offer(s.creators[c].pending, t).0 == s.creators[c].pending
  {
    assert CreatorOk(s, c);
  }

  lemma OfferKeepsHistory(s: State, t: Tunnel)
    requires Inv(s) && OfferWorks(s, t)
    ensures var s' := OfferStep(s, t); ClosesOk(s') && ClaimsOk(s') && BindsOk(s') && EntriesOk(s')
  {
    assert ClosesOk(s) && ClaimsOk(s) && BindsOk(s) && EntriesOk(s);
  }

  predicate BindWorks(s: State, c: Creator) {
    && Enabled(s, BindTunnel(c))
    && !s.tunnels[s.creators[c].phase.tunnel].state.closed
    && !s.tunnels[s.creators[c].phase.tunnel].state.counted
    && !s.connections[s.creators[c].connection].state.disposed
  }

  lemma BindKeepsConnection(s: State, c: Creator, k: Connection)
    requires Inv(s) && BindWorks(s, c) && k in s.connections
    ensures ConnectionOk(BindStep(s, c), k)
  {
    assert TunnelOk(s, s.creators[c].phase.tunnel) && ConnectionOk(s, k);
  }

  lemma BindKeepsTunnel(s: State, c: Creator, u: Tunnel)
    requires Inv(s) && BindWorks(s, c) && u in s.tunnels
    ensures TunnelOk(BindStep(s, c), u)
  {
    assert CreatorOk(s, c) && TunnelOk(s, s.creators[c].phase.tunnel) && TunnelOk(s, u);
  }

  lemma BindKeepsCreator(s: State, c: Creator, d: Creator)
    requires Inv(s) && BindWorks(s, c) && d in s.creators
    ensures CreatorOk(BindStep(s, c), d)
  {
    assert CreatorOk(s, c) && TunnelOk(s, s.creators[c].phase.tunnel) && CreatorOk(s, d);
  }

  lemma BindKeepsHistory(s: State, c: Creator)
    requires Inv(s) && BindWorks(s, c)
    ensures var s' := BindStep(s, c); GaugeOk(s') && ClosesOk(s') && ClaimsOk(s') && BindsOk(s') && EntriesOk(s')
  {
    var s' := BindStep(s, c);
    var t := s.creators[c].phase.tunnel;
    assert TunnelOk(s, t);
    assert Counted(s') == Counted(s) + {t};
    assert ClosesOk(s) && ClaimsOk(s) && BindsOk(s) && EntriesOk(s);
    assert forall x <- s.binds :: x.0 != t;
  }

  lemma BindKeeps(s: State, c: Creator)
    requires Inv(s) && Enabled(s, BindTunnel(c))
    ensures Inv(BindStep(s, c))
  {
    var s' := BindStep(s, c);
    if BindWorks(s, c) {
      BindKeepsHistory(s, c);
      forall k | k in s'.connections ensures ConnectionOk(s', k) { BindKeepsConnection(s, c, k); }
      forall u | u in s'.tunnels ensures TunnelOk(s', u) { BindKeepsTunnel(s, c, u); }
      forall d | d in s'.creators ensures CreatorOk(s', d) { BindKeepsCreator(s, c, d); }
    } else {
      BindRefused(s, c);
    }
  }

  lemma BindRefused(s: State, c: Creator)
    requires Inv(s) && Enabled(s, BindTunnel(c)) && !BindWorks(s, c)
    ensures Inv(BindStep(s, c))
  {
    assert CreatorOk(s, c);
    PhaseMoves(s, c, Cleanup(Some(s.creators[c].phase.tunnel), None), s.entries);
    assert s.(entries := s.entries) == s;
  }

  lemma CreateKeeps(s: State, c: Creator, g: Guid, k: Connection)
    requires Inv(s) && Enabled(s, Create(c, g, k))
    ensures Inv(Apply(s, Create(c, g, k)))
  {
    var s' := Apply(s, Create(c, g, k));
    forall t | t in s.tunnels ensures s.tunnels[t].acceptor != Accepted(c) { assert TunnelOk(s, t); }
    assert ClaimsOk(s) && EntriesOk(s);
    CreatorStep(s, s', c);
  }

  /** The steps of a creator that change nothing but its phase and, at the end, its entry. */
  function PhaseAfter(s: State, a: Action): CreatorPhase
    requires Enabled(s, a) && (a.Receive? || a.Fail? || a.Return? || a.RemoveEntry?)
  {
    var p := s.creators[a.c].phase;
    match a
    case Receive(c) => Received(s.creators[c].pending.source.tunnel)
    case Fail(_) => Cleanup(if p.Owned? || p.Bound? then Some(p.tunnel) else None, None)
    case Return(_) => Cleanup(None, Some(p.tunnel))
    case RemoveEntry(_) => Removed(p.result)
  }

  lemma PhaseMayMove(s: State, a: Action)
    requires Inv(s) && Enabled(s, a) && (a.Receive? || a.Fail? || a.Return? || a.RemoveEntry?)
    ensures PhaseMay(s, a.c, PhaseAfter(s, a))
  {
    assert CreatorOk(s, a.c);
  }

  lemma CreatorMoves(s: State, a: Action)
    requires Inv(s) && Enabled(s, a) && (a.Receive? || a.Fail? || a.Return? || a.RemoveEntry?)
    ensures Inv(Apply(s, a))
  {
    PhaseMayMove(s, a);
    var entries := if a.RemoveEntry? then s.entries - {s.creators[a.c].guid} else s.entries;
    PhaseMoves(s, a.c, PhaseAfter(s, a), entries);
    assert s.(entries := s.entries) == s;
  }

  lemma AbandonKeeps(s: State, c: Creator)
    requires Inv(s) && Enabled(s, AbandonPending(c))
    ensures Inv(Apply(s, AbandonPending(c)))
  {
    var s' := Apply(s, AbandonPending(c));
    assert CreatorOk(s, c);
    assert CreatorOk(s', c);
    forall t | t in s.tunnels && s.tunnels[t].acceptor == Accepted(c)
      ensures s.tunnels[t].state.closed || Holds(s'.creators[c], t)
    {
      assert TunnelOk(s, t);
    }
    ClaimsStay(s, s', c);
    CreatorStep(s, s', c);
  }

  lemma OwnedMayGo(s: State, c: Creator, t: Tunnel)
    requires Inv(s) && Enabled(s, DisposeOwned(c)) && t in s.tunnels && s.tunnels[t].state.closed
    requires s.creators[c].phase.Cleanup? && s.creators[c].phase.owned == Some(t)
    ensures PhaseMay(s, c, Cleanup(None, s.creators[c].phase.result))
  {
    assert CreatorOk(s, c);
  }

  lemma DisposeOwnedKeeps(s: State, c: Creator)
    requires Inv(s) && Enabled(s, DisposeOwned(c))
    ensures Inv(Apply(s, DisposeOwned(c)))
  {
    assert CreatorOk(s, c);
    var t := s.creators[c].phase.owned.value;
    var mid := Close(s, t);
    CloseEffect(s, t);
    CloseKeeps(s, t);
    OwnedMayGo(mid, c, t);
    PhaseMoves(mid, c, Cleanup(None, mid.creators[c].phase.result), mid.entries);
    assert mid.(entries := mid.entries) == mid;
  }

  lemma LeftMayGo(s: State, c: Creator)
    requires Inv(s) && Enabled(s, DisposeLeft(c))
    requires s.creators[c].phase.left.Some? ==>
               s.creators[c].phase.left.value in s.tunnels && s.tunnels[s.creators[c].phase.left.value].state.closed
    ensures PhaseMay(s, c, Done(s.creators[c].phase.result))
  {
    assert CreatorOk(s, c);
  }

  lemma DisposeLeftKeeps(s: State, c: Creator)
    requires Inv(s) && Enabled(s, DisposeLeft(c))
    ensures Inv(Apply(s, DisposeLeft(c)))
  {
    assert CreatorOk(s, c);
    var left := s.creators[c].phase.left;
    var mid := if left.Some? then Close(s, left.value) else s;
    if left.Some? {
      CloseEffect(s, left.value);
      CloseKeeps(s, left.value);
    }
    LeftMayGo(mid, c);
    PhaseMoves(mid, c, Done(mid.creators[c].phase.result), mid.entries);
    assert mid.(entries := mid.entries) == mid;
  }

  lemma InterruptKeeps(s: State, c: Creator)
    requires Inv(s) && Enabled(s, Interrupt(c))
    ensures Inv(Apply(s, Interrupt(c)))
  {
    var s' := Apply(s, Interrupt(c));
    forall k | k in s'.connections ensures ConnectionOk(s', k) { assert ConnectionOk(s, k); }
    forall u | u in s'.tunnels ensures TunnelOk(s', u) { assert TunnelOk(s, u); }
    forall d | d in s'.creators ensures CreatorOk(s', d) { assert CreatorOk(s, d); }
    assert Counted(s') == Counted(s);
  }

  lemma ArriveKeeps(s: State, t: Tunnel, g: Guid)
    requires Inv(s) && Enabled(s, Arrive(t, g))
    ensures Inv(Apply(s, Arrive(t, g)))
  {
    assert ClosesOk(s) && EntriesOk(s);
    AcceptorStep(s, Apply(s, Arrive(t, g)), t);
  }

  lemma TakeKeeps(s: State, t: Tunnel)
    requires Inv(s) && Enabled(s, Take(t))
    ensures Inv(Apply(s, Take(t)))
  {
    assert TunnelOk(s, t) && EntriesOk(s);
    AcceptorStep(s, Apply(s, Take(t)), t);
  }

  lemma RejectKeeps(s: State, t: Tunnel)
    requires Inv(s) && Enabled(s, Reject(t))
    ensures Inv(Apply(s, Reject(t)))
  {
    var mid := Close(s, t);
    CloseEffect(s, t);
    CloseKeeps(s, t);
    assert TunnelOk(mid, t) && EntriesOk(mid);
    assert mid.tunnels[t].acceptor == s.tunnels[t].acceptor;
    AcceptorStep(mid, SetAcceptor(mid, t, Rejected), t);
  }

  lemma ConnectKeeps(s: State, k: Connection)
    requires Inv(s) && Enabled(s, Connect(k))
    ensures Inv(Apply(s, Connect(k)))
  {
    forall t | t in s.tunnels ensures s.tunnels[t].state.connection != Some(k) { assert TunnelOk(s, t); }
    ConnectionStep(s, Apply(s, Connect(k)), k);
  }

  lemma BeginDisposeKeeps(s: State, k: Connection)
    requires Inv(s) && Enabled(s, BeginDispose(k))
    ensures Inv(Apply(s, BeginDispose(k)))
  {
    assert ConnectionOk(s, k);
    ConnectionStep(s, Apply(s, BeginDispose(k)), k);
  }

  lemma SnapshotKeeps(s: State, k: Connection)
    requires Inv(s) && Enabled(s, Snapshot(k))
    ensures Inv(Apply(s, Snapshot(k)))
  {
    assert ConnectionOk(s, k);
    ConnectionStep(s, Apply(s, Snapshot(k)), k);
  }

  lemma ClearKeeps(s: State, k: Connection)
    requires Inv(s) && Enabled(s, Clear(k))
    ensures Inv(Apply(s, Clear(k)))
  {
    assert ConnectionOk(s, k);
    ConnectionStep(s, Apply(s, Clear(k)), k);
  }

  lemma CloseNextKeeps(s: State, k: Connection, t: Tunnel)
    requires Inv(s) && Enabled(s, CloseNext(k, t))
    ensures Inv(Apply(s, CloseNext(k, t)))
  {
    var mid := Close(s, t);
    CloseEffect(s, t);
    CloseKeeps(s, t);
    assert ConnectionOk(mid, k);
    assert t in mid.tunnels ==> TunnelOk(mid, t);
    ConnectionStep(mid, Apply(s, CloseNext(k, t)), k);
  }

  predicate ByCreator(a: Action) {
    || a.Create? || a.Interrupt? || a.Receive? || a.Fail? || a.ClaimTunnel? || a.BindTunnel? || a.Return?
    || a.DisposeOwned? || a.RemoveEntry? || a.AbandonPending? || a.DisposeLeft?
  }

  lemma CreatorActs(s: State, a: Action)
    requires Inv(s) && Enabled(s, a) && ByCreator(a)
    ensures Inv(Apply(s, a))
  {
    match a
    case Create(c, g, k) => CreateKeeps(s, c, g, k);
    case Interrupt(c) => InterruptKeeps(s, c);
    case Receive(_) => CreatorMoves(s, a);
    case Fail(_) => CreatorMoves(s, a);
    case ClaimTunnel(c) => ClaimKeeps(s, c);
    case BindTunnel(c) => BindKeeps(s, c);
    case Return(_) => CreatorMoves(s, a);
    case DisposeOwned(c) => DisposeOwnedKeeps(s, c);
    case RemoveEntry(_) => CreatorMoves(s, a);
    case AbandonPending(c) => AbandonKeeps(s, c);
    case DisposeLeft(c) => DisposeLeftKeeps(s, c);
  }

  lemma OthersAct(s: State, a: Action)
    requires Inv(s) && Enabled(s, a) && !ByCreator(a)
    ensures Inv(Apply(s, a))
  {
    match a
    case Connect(k) => ConnectKeeps(s, k);
    case Arrive(t, g) => ArriveKeeps(s, t, g);
    case Take(t) => TakeKeeps(s, t);
    case OfferTunnel(t) => OfferKeeps(s, t);
    case Reject(t) => RejectKeeps(s, t);
    case CloseStream(t) => CloseKeeps(s, t);
    case BeginDispose(k) => BeginDisposeKeeps(s, k);
    case Snapshot(k) => SnapshotKeeps(s, k);
    case CloseNext(k, t) => CloseNextKeeps(s, k, t);
    case Clear(k) => ClearKeeps(s, k);
  }

  /** Every atomic step keeps the invariant. */
  lemma StepKeeps(s: State, a: Action)
    requires Inv(s) && Enabled(s, a)
    ensures Inv(Apply(s, a))
  {
    if ByCreator(a) { CreatorActs(s, a); } else { OthersAct(s, a); }
  }
}
