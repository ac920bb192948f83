/**
 The hand-off of remote tunnels to waiting creators, over every interleaving.

 A state holds any number of creators (calls of `CreateHttpTunnelAsync`), tunnels (remote streams
 given to `SetResult`) and control connections. One action is one lock body or one operation on the
 concurrent dictionary; the lock bodies are the functions that TunnelLifecycle proves equal to the
 methods. Cancellation, send errors and a stream closed by its user may strike at any time.
 */
module TunnelProtocol {
  import opened Wrappers
  import opened TunnelLifecycle

  type Guid = nat
  type Creator = nat
  type Tunnel = nat
  type Connection = nat

  /** Where a creator stands in `CreateHttpTunnelAsync`. */
  datatype CreatorPhase =
    | Waiting                                                    // request sent, waiting for the remote end
    | Received(tunnel: Tunnel)                                   // the wait returned a tunnel
    | Unclaimed(tunnel: Tunnel)                                  // the claim failed, tunnel to be disposed
    | Owned(tunnel: Tunnel)                                      // claimed, not bound yet
    | Bound(tunnel: Tunnel)                                      // claimed and bound, not returned yet
    | Cleanup(owned: Option<Tunnel>, result: Option<Tunnel>)     // in the finally block
    | Removed(result: Option<Tunnel>)                            // dictionary entry removed
    | Abandoned(left: Option<Tunnel>, result: Option<Tunnel>)    // slot abandoned, left-over to be disposed
    | Done(result: Option<Tunnel>)                               // returned a tunnel, or threw

  datatype CreatorState = CreatorState(
    guid: Guid, connection: Connection, pending: PendingState<Tunnel>, phase: CreatorPhase)

  /** Where the acceptor of a tunnel stands in `SetResult`. */
  datatype AcceptorPhase =
    | Arrived
    | Taken(creator: Creator)       // removed a dictionary entry
    | Accepted(creator: Creator)    // SetResult returned true
    | Refused                       // about to dispose
    | Rejected                      // SetResult returned false

  datatype TunnelRecord = TunnelRecord(guid: Guid, state: TunnelState<Connection>, acceptor: AcceptorPhase)

  datatype DisposePhase =
    | Live
    | Marked                        // the disposed flag is set
    | Closing(todo: set<Tunnel>)    // closing the tunnels of the snapshot
    | Disposed                      // the tunnel set was cleared

  datatype ConnectionRecord = ConnectionRecord(state: ConnectionState<Tunnel>, phase: DisposePhase)

  datatype State = State(
    entries: map<Guid, Creator>,
    creators: map<Creator, CreatorState>,
    tunnels: map<Tunnel, TunnelRecord>,
    connections: map<Connection, ConnectionRecord>,
    interrupted: set<Creator>,              // calls that were cancelled, or whose request could not be sent
    openGauge: int,                         // GatewayResourceMetrics: tunnels opened minus tunnels closed
    claims: seq<(Creator, Tunnel)>,         // history: every successful claim
    binds: seq<(Tunnel, Connection)>,       // history: every successful bind
    closes: seq<Tunnel>)                    // history: every close of an inner stream

  datatype Action =
    | Connect(k: Connection)
    | Create(c: Creator, guid: Guid, k: Connection)
    | Interrupt(c: Creator)
    | Receive(c: Creator)
    | Fail(c: Creator)
    | ClaimTunnel(c: Creator)
    | BindTunnel(c: Creator)
    | Return(c: Creator)
    | DisposeOwned(c: Creator)
    | RemoveEntry(c: Creator)
    | AbandonPending(c: Creator)
    | DisposeLeft(c: Creator)
    | Arrive(t: Tunnel, guid: Guid)
    | Take(t: Tunnel)
    | OfferTunnel(t: Tunnel)
    | Reject(t: Tunnel)
    | CloseStream(t: Tunnel)
    | BeginDispose(k: Connection)
    | Snapshot(k: Connection)
    | CloseNext(k: Connection, t: Tunnel)
    | Clear(k: Connection)

  const Init := State(map[], map[], map[], map[], {}, 0, [], [], [])

  // ---------------------------------------------------------------- steps

  /** The linked token of the call has fired: it was cancelled itself, or its connection is being disposed. */
  predicate Interrupted(s: State, c: Creator)
    requires c in s.creators
  {
    var k := s.creators[c].connection;
    c in s.interrupted || (k in s.connections && !s.connections[k].phase.Live?)
  }

  predicate Enabled(s: State, a: Action) {
    match a
    case Connect(k) => k !in s.connections
    case Create(c, g, k) => c !in s.creators && g !in s.entries && k in s.connections
    case Receive(c) => c in s.creators && s.creators[c].phase.Waiting? && s.creators[c].pending.source.Result?
    case Interrupt(c) => c in s.creators
    case Fail(c) => c in s.creators &&
      // once bound the token is not looked at any more, but the log may throw
      (var p := s.creators[c].phase; ((p.Waiting? || p.Received? || p.Owned?) && Interrupted(s, c)) || p.Bound?)
    case ClaimTunnel(c) => c in s.creators && s.creators[c].phase.Received?
    case BindTunnel(c) => c in s.creators && s.creators[c].phase.Owned? &&
      s.creators[c].phase.tunnel in s.tunnels && s.creators[c].connection in s.connections
    case Return(c) => c in s.creators && s.creators[c].phase.Bound?
    case DisposeOwned(c) => c in s.creators && (var p := s.creators[c].phase;
      p.Unclaimed? || (p.Cleanup? && p.owned.Some?))
    case RemoveEntry(c) => c in s.creators && s.creators[c].phase.Cleanup? && s.creators[c].phase.owned.None?
    case AbandonPending(c) => c in s.creators && s.creators[c].phase.Removed?
    case DisposeLeft(c) => c in s.creators && s.creators[c].phase.Abandoned?
    case Arrive(t, g) => t !in s.tunnels
    case Take(t) => t in s.tunnels && s.tunnels[t].acceptor.Arrived?
    case OfferTunnel(t) => t in s.tunnels && s.tunnels[t].acceptor.Taken? && s.tunnels[t].acceptor.creator in s.creators
    case Reject(t) => t in s.tunnels && s.tunnels[t].acceptor.Refused?
    case CloseStream(t) => t in s.tunnels
    case BeginDispose(k) => k in s.connections && s.connections[k].phase.Live?
    case Snapshot(k) => k in s.connections && s.connections[k].phase.Marked?
    case CloseNext(k, t) => k in s.connections && s.connections[k].phase.Closing? && t in s.connections[k].phase.todo
    case Clear(k) => k in s.connections && s.connections[k].phase.Closing? && s.connections[k].phase.todo == {}
  }

  function SetPhase(s: State, c: Creator, phase: CreatorPhase): State
    requires c in s.creators
  {
    s.(creators := s.creators[c := s.creators[c].(phase := phase)])
  }

  function SetAcceptor(s: State, t: Tunnel, acceptor: AcceptorPhase): State
    requires t in s.tunnels
  {
    s.(tunnels := s.tunnels[t := s.tunnels[t].(acceptor := acceptor)])
  }

  function SetConnection(s: State, k: Connection, record: ConnectionRecord): State {
    s.(connections := s.connections[k := record])
  }

  /** `Dispose` of a tunnel: the body of `SetClosedResult` with the connection lock inside. */
  function Close(s: State, t: Tunnel): State {
    if t !in s.tunnels || s.tunnels[t].state.disposed then s
    else
      var was := s.tunnels[t].state;
      s.(tunnels := s.tunnels[t := s.tunnels[t].(state := SetClosed(was).0)],
         connections := if MustUncount(was) then Uncounted(s.connections, was.connection.value, t) else s.connections,
         closes := s.closes + [t],
         openGauge := if was.counted then s.openGauge - 1 else s.openGauge)
  }

  /** `DecrementHttpTunnelCount` at connection `k`. */
  function Uncounted(connections: map<Connection, ConnectionRecord>, k: Connection, t: Tunnel)
    : map<Connection, ConnectionRecord>
  {
    if k in connections then connections[k := connections[k].(state := Decrement(connections[k].state, t).0)]
    else connections
  }

  function BindStep(s: State, c: Creator): State
    requires Enabled(s, BindTunnel(c))
  {
    var t, k := s.creators[c].phase.tunnel, s.creators[c].connection;
    var (tunnel', conn', ok) := Bind(s.tunnels[t].state, s.connections[k].state, t, k);
    if !ok then SetPhase(s, c, Cleanup(Some(t), None))
    else
      SetPhase(s.(tunnels := s.tunnels[t := s.tunnels[t].(state := tunnel')],
                  connections := s.connections[k := s.connections[k].(state := conn')],
                  openGauge := s.openGauge + 1,
                  binds := s.binds + [(t, k)]),
               c, Bound(t))
  }

  function ClaimStep(s: State, c: Creator): State
    requires Enabled(s, ClaimTunnel(c))
  {
    var cs := s.creators[c];
    var t := cs.phase.tunnel;
    var (p', ok) := Claim(cs.pending, t);
    if !ok then SetPhase(s, c, Unclaimed(t))
    else s.(creators := s.creators[c := cs.(pending := p', phase := Owned(t))], claims := s.claims + [(c, t)])
  }

  function OfferStep(s: State, t: Tunnel): State
    requires Enabled(s, OfferTunnel(t))
  {
    var c := s.tunnels[t].acceptor.creator;
    var (p', ok) := Offer(s.creators[c].pending, t);
    SetAcceptor(s.(creators := s.creators[c := s.creators[c].(pending := p')]), t,
                if ok then Accepted(c) else Refused)
  }

  function Apply(s: State, a: Action): State
    requires Enabled(s, a)
  {
    match a
    case Connect(k) => SetConnection(s, k, ConnectionRecord(ConnectionState(false, {}, 0), Live))
    case Create(c, g, k) =>
      s.(creators := s.creators[c := CreatorState(g, k, NewPending, CreatorPhase.Waiting)], entries := s.entries[g := c])
    case Interrupt(c) => s.(interrupted := s.interrupted + {c})
    case Receive(c) => SetPhase(s, c, Received(s.creators[c].pending.source.tunnel))
    case Fail(c) =>
      var p := s.creators[c].phase;
      SetPhase(s, c, Cleanup(if p.Owned? || p.Bound? then Some(p.tunnel) else None, None))
    case ClaimTunnel(c) => ClaimStep(s, c)
    case BindTunnel(c) => BindStep(s, c)
    case Return(c) => SetPhase(s, c, Cleanup(None, Some(s.creators[c].phase.tunnel)))
    case DisposeOwned(c) =>
      var p := s.creators[c].phase;
      if p.Unclaimed? then SetPhase(Close(s, p.tunnel), c, Cleanup(None, None))
      else SetPhase(Close(s, p.owned.value), c, Cleanup(None, p.result))
    case RemoveEntry(c) =>
      SetPhase(s.(entries := s.entries - {s.creators[c].guid}), c, Removed(s.creators[c].phase.result))
    case AbandonPending(c) =>
      var cs := s.creators[c];
      var (p', left) := AbandonSlot(cs.pending);
      s.(creators := s.creators[c := cs.(pending := p', phase := Abandoned(left, cs.phase.result))])
    case DisposeLeft(c) =>
      var p := s.creators[c].phase;
      SetPhase(if p.left.Some? then Close(s, p.left.value) else s, c, Done(p.result))
    case Arrive(t, g) =>
      s.(tunnels := s.tunnels[t := TunnelRecord(g, TunnelState(None, false, false, false), Arrived)])
    case Take(t) =>
      var g := s.tunnels[t].guid;
      if g in s.entries then SetAcceptor(s.(entries := s.entries - {g}), t, Taken(s.entries[g]))
      else SetAcceptor(s, t, Refused)
    case OfferTunnel(t) => OfferStep(s, t)
    case Reject(t) => SetAcceptor(Close(s, t), t, Rejected)
    case CloseStream(t) => Close(s, t)
    case BeginDispose(k) =>
      SetConnection(s, k, ConnectionRecord(s.connections[k].state.(disposed := true), Marked))
    case Snapshot(k) => SetConnection(s, k, s.connections[k].(phase := Closing(s.connections[k].state.tunnels)))
    case CloseNext(k, t) =>
      var s1 := Close(s, t);
      SetConnection(s1, k, s1.connections[k].(phase := Closing(s.connections[k].phase.todo - {t})))
    case Clear(k) =>
      SetConnection(s, k, ConnectionRecord(s.connections[k].state.(tunnels := {}), Disposed))
  }

  // ---------------------------------------------------------------- invariant

  /** Tunnel `t` is in the hands of creator `c`: in its slot, or in its local variables. */
  ghost predicate Holds(cs: CreatorState, t: Tunnel) {
    || cs.pending.slot == Some(t)
    || (match cs.phase
        case Unclaimed(u) => u == t
        case Owned(u) => u == t
        case Bound(u) => u == t
        case Cleanup(o, r) => o == Some(t) || r == Some(t)
        case Removed(r) => r == Some(t)
        case Abandoned(l, r) => l == Some(t) || r == Some(t)
        case Done(r) => r == Some(t)
        case _ => false)
  }

  /** The pending slot of a creator agrees with its own history. */
  ghost predicate PendingOk(p: PendingState<Tunnel>) {
    && (p.completed <==> p.source.Result?)
    && (p.claimed ==> p.completed)
    && (!p.completed && !p.abandoned ==> p.source.Waiting?)
    && (p.slot.Some? <==> p.completed && !p.claimed && !p.abandoned)
    && (p.slot.Some? ==> p.source == Result(p.slot.value))
  }

  /** The slot agrees with where the creator stands. */
  ghost predicate PhaseOk(cs: CreatorState) {
    var p := cs.pending;
    match cs.phase
    case Waiting => !p.abandoned && !p.claimed
    case Received(t) => !p.abandoned && !p.claimed && p.source == Result(t)
    case Unclaimed(t) => false
    case Owned(t) => !p.abandoned && p.claimed && p.source == Result(t)
    case Bound(t) => !p.abandoned && p.claimed && p.source == Result(t)
    case Cleanup(o, r) => !p.abandoned && (o.Some? ==> r.None?) &&
      (o.Some? ==> p.claimed && p.source == Result(o.value)) && (r.Some? ==> p.claimed && p.source == Result(r.value))
    case Removed(r) => !p.abandoned && (r.Some? ==> p.claimed && p.source == Result(r.value))
    case Abandoned(l, r) => p.abandoned && (r.Some? ==> p.claimed && p.source == Result(r.value)) &&
      (l.Some? ==> !p.claimed && p.source == Result(l.value))
    case Done(r) => p.abandoned && (r.Some? ==> p.claimed && p.source == Result(r.value))
  }

  /** The tunnel a creator has bound and not yet given up. */
  function BoundTunnel(cs: CreatorState): Option<Tunnel> {
    match cs.phase
    case Bound(t) => Some(t)
    case Cleanup(_, r) => r
    case Removed(r) => r
    case Abandoned(_, r) => r
    case Done(r) => r
    case _ => None
  }

  ghost predicate CreatorOk(s: State, c: Creator)
    requires c in s.creators
  {
    var cs := s.creators[c];
    && PendingOk(cs.pending)
    && PhaseOk(cs)
    && cs.connection in s.connections
    && (cs.pending.source.Result? ==>
          var t := cs.pending.source.tunnel; t in s.tunnels && s.tunnels[t].acceptor == Accepted(c))
    && (BoundTunnel(cs).Some? ==>
          var t := BoundTunnel(cs).value;
          t in s.tunnels && s.tunnels[t].state.connection == Some(cs.connection))
  }

  ghost predicate TunnelOk(s: State, t: Tunnel)
    requires t in s.tunnels
  {
    var r := s.tunnels[t];
    var u := r.state;
    && (u.closed <==> u.disposed)
    && (u.counted <==> u.connection.Some? && !u.closed)
    && (u.connection.Some? ==> u.connection.value in s.connections)
    && (u.disposed <==> t in s.closes)
    && (match r.acceptor
        case Taken(c) => c in s.creators
        case Accepted(c) => c in s.creators && s.creators[c].pending.source == Result(t) &&
          (u.closed || Holds(s.creators[c], t))
        case Rejected => u.closed
        case _ => true)
  }

  ghost predicate ConnectionOk(s: State, k: Connection)
    requires k in s.connections
  {
    var r := s.connections[k];
    && r.state.count == |r.state.tunnels|
    && (forall t :: t in r.state.tunnels <==>
          t in s.tunnels && s.tunnels[t].state.connection == Some(k) && s.tunnels[t].state.counted)
    && (r.phase.Live? <==> !r.state.disposed)
    && (r.phase.Closing? ==> r.state.tunnels <= r.phase.todo)
    && (r.phase.Disposed? ==> r.state.tunnels == {})
  }

  ghost function Counted(s: State): set<Tunnel> {
    set t | t in s.tunnels && s.tunnels[t].state.counted
  }

  ghost predicate GaugeOk(s: State) {
    s.openGauge == |Counted(s)|
  }

  ghost predicate ClosesOk(s: State) {
    && (forall i, j :: 0 <= i < j < |s.closes| ==> s.closes[i] != s.closes[j])
    && (forall t <- s.closes :: t in s.tunnels)
  }

  ghost predicate ClaimsOk(s: State) {
    && (forall i, j :: 0 <= i < j < |s.claims| ==> s.claims[i].1 != s.claims[j].1)
    && (forall x <- s.claims :: x.0 in s.creators &&
          s.creators[x.0].pending.claimed && s.creators[x.0].pending.source == Result(x.1))
  }

  ghost predicate BindsOk(s: State) {
    && (forall i, j :: 0 <= i < j < |s.binds| ==> s.binds[i].0 != s.binds[j].0)
    && (forall x <- s.binds :: x.0 in s.tunnels && s.tunnels[x.0].state.connection == Some(x.1))
  }

  ghost predicate EntriesOk(s: State) {
    forall g <- s.entries :: s.entries[g] in s.creators
  }

  ghost predicate Inv(s: State) {
    && (forall c {:trigger CreatorOk(s, c)} :: c in s.creators ==> CreatorOk(s, c))
    && (forall t {:trigger TunnelOk(s, t)} :: t in s.tunnels ==> TunnelOk(s, t))
    && (forall k {:trigger ConnectionOk(s, k)} :: k in s.connections ==> ConnectionOk(s, k))
    && GaugeOk(s) && ClosesOk(s) && ClaimsOk(s) && BindsOk(s) && EntriesOk(s)
  }
}
