/**
 The lock bodies of the tunnel hand-off: `AgentClientConnection`, `HttpTunnel`,
 `PendingHttpTunnel` and `AgentTunnelFactory.SetResult`.

 Every lock body is given twice: as a function on a value (generic in how tunnels and
 connections are named, so that TunnelProtocol can run it on identifiers), and as a method of
 the class that updates the fields in place and is proved equal to that function.
 */
module TunnelLifecycle {
  import opened Wrappers

  // ---------------------------------------------------------------- values

  /** The fields guarded by the lifecycle lock of a control connection. */
  datatype ConnectionState<+T> = ConnectionState(disposed: bool, tunnels: set<T>, count: int)

  /** The fields guarded by the lifecycle lock of a tunnel. */
  datatype TunnelState<+C> = TunnelState(connection: Option<C>, counted: bool, closed: bool, disposed: bool)

  /** The completion source a creator waits on. */
  datatype Source<+T> = Waiting | Result(tunnel: T) | Canceled

  /** The fields guarded by the lock of a pending slot. */
  datatype PendingState<+T> = PendingState(
    abandoned: bool, claimed: bool, completed: bool, slot: Option<T>, source: Source<T>)

  // ---------------------------------------------------------------- lock bodies on values

  function TryBind<T>(c: ConnectionState<T>, t: T): (ConnectionState<T>, bool) {
    if c.disposed then (c, false) else (c.(count := c.count + 1, tunnels := c.tunnels + {t}), true)
  }

  function Decrement<T>(c: ConnectionState<T>, t: T): (ConnectionState<T>, int) {
    var c' := c.(tunnels := c.tunnels - {t});
    if c.count <= 0 then (c', 0) else (c'.(count := c.count - 1), c.count - 1)
  }

  /** The tunnel lock around the connection lock: tunnel `t` binds itself to connection `k`. */
  function Bind<T, C>(tunnel: TunnelState<C>, conn: ConnectionState<T>, t: T, k: C)
    : (TunnelState<C>, ConnectionState<T>, bool)
  {
    if tunnel.closed || tunnel.counted then (tunnel, conn, false)
    else
      var (conn', ok) := TryBind(conn, t);
      if ok then (tunnel.(connection := Some(k), counted := true), conn', true) else (tunnel, conn', false)
  }

  /** True when closing the tunnel must also tell its connection. */
  predicate MustUncount<C>(tunnel: TunnelState<C>) {
    !tunnel.disposed && tunnel.counted && tunnel.connection.Some?
  }

  function SetClosed<C>(tunnel: TunnelState<C>): (TunnelState<C>, bool) {
    if tunnel.disposed then (tunnel, false)
    else (tunnel.(disposed := true, closed := true, counted := false), true)
  }

  function Offer<T>(p: PendingState<T>, t: T): (PendingState<T>, bool) {
    if p.abandoned || p.completed || p.claimed then (p, false)
    else if p.source.Waiting? then (p.(completed := true, slot := Some(t), source := Result(t)), true)
    else (p.(completed := true, slot := None), false)
  }

  function Claim<T(==)>(p: PendingState<T>, t: T): (PendingState<T>, bool) {
    if p.abandoned || !p.completed || p.slot != Some(t) then (p, false)
    else (p.(claimed := true, slot := None), true)
  }

  /** Returns the tunnel that the caller still has to dispose, if any. */
  function AbandonSlot<T>(p: PendingState<T>): (PendingState<T>, Option<T>) {
    if p.abandoned then (p, None)
    else
      (p.(abandoned := true, slot := None,
          source := if !p.completed && p.source.Waiting? then Canceled else p.source),
       if p.completed && !p.claimed then p.slot else None)
  }

  const NewPending: PendingState<nat> := PendingState(false, false, false, None, Waiting)

  // ---------------------------------------------------------------- objects

  class AgentClientConnection {
    var disposed: bool
    var httpTunnels: set<HttpTunnel>
    var httpTunnelCount: int

    function View(): ConnectionState<HttpTunnel>
      reads this
    {
      ConnectionState(disposed, httpTunnels, httpTunnelCount)
    }

    /** What holds of a connection between lock bodies. */
    ghost predicate Valid()
      reads this, httpTunnels
    {
      && httpTunnelCount == |httpTunnels|
      && forall t <- httpTunnels :: t.connection == this && t.counted && !t.closed && !t.disposed
    }

    constructor ()
      ensures Valid() && View() == ConnectionState(false, {}, 0)
    {
      disposed, httpTunnels, httpTunnelCount := false, {}, 0;
    }

    method TryBindHttpTunnel(tunnel: HttpTunnel) returns (ok: bool)
      modifies this
      ensures (View(), ok) == TryBind(old(View()), tunnel)
      ensures ok <==> !old(disposed)
      ensures httpTunnels == if ok then old(httpTunnels) + {tunnel} else old(httpTunnels)
      ensures httpTunnelCount == if ok then old(httpTunnelCount) + 1 else old(httpTunnelCount)
      ensures disposed == old(disposed)
    {
      if disposed { return false; }
      httpTunnelCount := httpTunnelCount + 1;
      httpTunnels := httpTunnels + {tunnel};
      return true;
    }

    method DecrementHttpTunnelCount(tunnel: HttpTunnel) returns (count: int)
      modifies this
      ensures (View(), count) == Decrement(old(View()), tunnel)
      ensures httpTunnels == old(httpTunnels) - {tunnel} && disposed == old(disposed)
      ensures old(httpTunnelCount) > 0 ==> httpTunnelCount == old(httpTunnelCount) - 1 == count
      ensures old(httpTunnelCount) <= 0 ==> httpTunnelCount == old(httpTunnelCount) && count == 0
    {
      httpTunnels := httpTunnels - {tunnel};
      if httpTunnelCount <= 0 { return 0; }
      httpTunnelCount := httpTunnelCount - 1;
      return httpTunnelCount;
    }

    /** Closes the connection with every tunnel bound to it; the count reaches 0 by itself. */
    method DisposeAsync()
      requires Valid()
      modifies this, httpTunnels
      ensures Valid() && disposed
      ensures !old(disposed) ==> httpTunnels == {} && httpTunnelCount == 0
      ensures !old(disposed) ==> forall t <- old(httpTunnels) :: t.closed && t.disposed && !t.counted
      ensures old(disposed) ==> View() == old(View()) && forall t <- httpTunnels :: unchanged(t)
    {
      if disposed { return; }
      disposed := true;
      var tunnels := httpTunnels;
      ghost var all := httpTunnels;
      while tunnels != {}
        invariant httpTunnels == tunnels <= all && disposed && httpTunnelCount == |tunnels|
        invariant forall t <- tunnels :: t.connection == this && t.counted && !t.closed && !t.disposed
        invariant forall t <- all - tunnels :: t.closed && t.disposed && !t.counted
        decreases |tunnels|
      {
        var tunnel :| tunnel in tunnels;
        var _ := tunnel.SetClosedResult();
        tunnels := tunnels - {tunnel};
      }
      httpTunnels := {};
    }
  }

  class HttpTunnel {
    const id: nat
    var connection: AgentClientConnection?
    var counted: bool
    var closed: bool
    var disposed: bool

    function View(): TunnelState<AgentClientConnection>
      reads this
    {
      TunnelState(if connection == null then None else Some(connection as AgentClientConnection), counted, closed, disposed)
    }

    constructor (id: nat)
      ensures this.id == id && View() == TunnelState(None, false, false, false)
    {
      this.id := id;
      connection, counted, closed, disposed := null, false, false, false;
    }

    method BindConnection(connection: AgentClientConnection) returns (ok: bool)
      modifies this, connection
      ensures (View(), connection.View(), ok) == Bind(old(View()), old(connection.View()), this, connection)
      ensures ok <==> !old(closed) && !old(counted) && !old(connection.disposed)
      ensures ok ==> this.connection == connection && counted && !closed && disposed == old(disposed)
      ensures ok ==> connection.httpTunnels == old(connection.httpTunnels) + {this}
      ensures ok ==> connection.httpTunnelCount == old(connection.httpTunnelCount) + 1
      ensures !ok ==> View() == old(View()) && connection.View() == old(connection.View())
      ensures old(connection.Valid() && closed == disposed) ==> connection.Valid()
    {
      if closed || counted { return false; }
      var bound := connection.TryBindHttpTunnel(this);
      if !bound { return false; }
      this.connection := connection;
      counted := true;
      return true;
    }

    /** The body shared by `Dispose` and `DisposeAsync`; true for the one call that closes the stream. */
    method SetClosedResult() returns (first: bool)
      modifies this, connection
      ensures (View(), first) == SetClosed(old(View()))
      ensures connection == old(connection)
      ensures (first <==> !old(disposed)) && disposed
      ensures if first then closed && !counted else closed == old(closed) && counted == old(counted)
      ensures connection != null && first && old(counted) ==>
        connection.httpTunnels == old(connection.httpTunnels) - {this} &&
        (old(connection.httpTunnelCount) > 0 ==> connection.httpTunnelCount == old(connection.httpTunnelCount) - 1)
      ensures connection != null && !(first && old(counted)) ==> connection.View() == old(connection.View())
      ensures connection != null ==>
        connection.View() ==
        if old(MustUncount(View())) then Decrement(old(connection.View()), this).0 else old(connection.View())
    {
      if disposed { return false; }
      disposed := true;
      closed := true;
      if counted && connection != null {
        var _ := connection.DecrementHttpTunnelCount(this);
      }
      counted := false;
      return true;
    }
  }

  class PendingHttpTunnel {
    var tunnel: HttpTunnel?
    var abandoned: bool
    var claimed: bool
    var completed: bool
    var source: Source<HttpTunnel>

    function View(): PendingState<HttpTunnel>
      reads this
    {
      PendingState(abandoned, claimed, completed, if tunnel == null then None else Some(tunnel as HttpTunnel), source)
    }

    constructor ()
      ensures View() == PendingState(false, false, false, None, Waiting)
    {
      tunnel, abandoned, claimed, completed, source := null, false, false, false, Waiting;
    }

    method TrySetResult(tunnel: HttpTunnel) returns (ok: bool)
      modifies this, tunnel, tunnel.connection
      ensures (View(), ok) == Offer(old(View()), tunnel)
      ensures ok <==> !old(abandoned) && !old(completed) && !old(claimed) && old(source).Waiting?
      ensures ok ==> completed && this.tunnel == tunnel && source == Result(tunnel)
      ensures abandoned == old(abandoned) && claimed == old(claimed)
      ensures if ok then tunnel.View() == old(tunnel.View()) else tunnel.View() == SetClosed(old(tunnel.View())).0
    {
      if abandoned || completed || claimed {
        var _ := tunnel.SetClosedResult();
        return false;
      }
      completed := true;
      this.tunnel := tunnel;
      if source.Waiting? {
        source := Result(tunnel);
        return true;
      }
      this.tunnel := null;
      var _ := tunnel.SetClosedResult();
      return false;
    }

    method TryClaim(tunnel: HttpTunnel) returns (ok: bool)
      modifies this
      ensures (View(), ok) == Claim(old(View()), tunnel)
      ensures ok <==> !old(abandoned) && old(completed) && old(this.tunnel) == tunnel
      ensures ok ==> claimed && this.tunnel == null
      ensures !ok ==> View() == old(View())
      ensures abandoned == old(abandoned) && completed == old(completed) && source == old(source)
    {
      if abandoned || !completed || this.tunnel != tunnel { return false; }
      claimed := true;
      this.tunnel := null;
      return true;
    }

    method Abandon()
      modifies this, tunnel, if tunnel == null then null else tunnel.connection
      ensures View() == AbandonSlot(old(View())).0
      ensures abandoned && claimed == old(claimed) && completed == old(completed)
      ensures old(abandoned) ==> View() == old(View())
      ensures !old(abandoned) ==> tunnel == null
      ensures !old(abandoned) ==> source == if !old(completed) && old(source).Waiting? then Canceled else old(source)
      ensures old(tunnel) != null && !old(abandoned) && old(completed) && !old(claimed) ==>
        old(tunnel).disposed && (old(tunnel.disposed) || old(tunnel).closed)
      ensures match AbandonSlot(old(View())).1
        case Some(t) => t.View() == SetClosed(old(t.View())).0
        case None => old(tunnel) == null || unchanged(old(tunnel))
    {
      if abandoned { return; }
      abandoned := true;
      var left := if completed && !claimed then tunnel else null;
      tunnel := null;
      if !completed && source.Waiting? { source := Canceled; }
      if left != null {
        var _ := left.SetClosedResult();
      }
    }
  }

  class AgentTunnelFactory {
    var pending: map<nat, PendingHttpTunnel>

    /** A remote stream arrived: hand it to the creator waiting under its identifier, or close it. */
    method SetResult(httpTunnel: HttpTunnel) returns (ok: bool)
      modifies this, pending.Values, httpTunnel, httpTunnel.connection
      ensures pending == old(pending) - {httpTunnel.id}
      ensures ok <==> httpTunnel.id in old(pending) && Offer(old(pending[httpTunnel.id].View()), httpTunnel).1
      ensures httpTunnel.id in old(pending) ==>
        old(pending)[httpTunnel.id].View() == Offer(old(pending[httpTunnel.id].View()), httpTunnel).0
      ensures forall p <- old(pending).Values ::
        httpTunnel.id !in old(pending) || p != old(pending)[httpTunnel.id] ==> unchanged(p)
      ensures ok ==> httpTunnel.View() == old(httpTunnel.View())
      ensures !ok ==> httpTunnel.View() == SetClosed(old(httpTunnel.View())).0
    {
      if httpTunnel.id in pending {
        var slot := pending[httpTunnel.id];
        pending := pending - {httpTunnel.id};
        ok := slot.TrySetResult(httpTunnel);
        if ok { return true; }
      } else {
        pending := pending - {httpTunnel.id};
      }
      var _ := httpTunnel.SetClosedResult();
      ok := false;
    }
  }
}
