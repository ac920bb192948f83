/**
 The locks of the tunnel hand-off are nested pending slot, then tunnel, then connection, and never
 the other way round, so the parties can never wait for each other in a circle.
 */
module LockOrder {
  datatype Lock = ManagerLock | PendingLock(id: nat) | TunnelLock(id: nat) | ConnectionLock(id: nat)

  /** Everything the program does under these locks. */
  datatype Call =
    | OfferTunnel(pending: nat, tunnel: nat, connection: nat) // TrySetResult disposing a refused tunnel inside its lock
    | ClaimTunnel(pending: nat)
    | AbandonPending(pending: nat)                            // disposes the left-over tunnel after its lock
    | BindTunnel(tunnel: nat, connection: nat)
    | CloseTunnel(tunnel: nat, connection: nat)
    | TouchConnection(connection: nat)                        // snapshot and clear in DisposeAsync
    | TouchManager                                            // add, remove and dispose of the client manager

  /** The locks a call takes, each while holding all the earlier ones. */
  function Chain(call: Call): seq<Lock> {
    match call
    case OfferTunnel(p, t, k) => [PendingLock(p), TunnelLock(t), ConnectionLock(k)]
    case ClaimTunnel(p) => [PendingLock(p)]
    case AbandonPending(p) => [PendingLock(p)]
    case BindTunnel(t, k) => [TunnelLock(t), ConnectionLock(k)]
    case CloseTunnel(t, k) => [TunnelLock(t), ConnectionLock(k)]
    case TouchConnection(k) => [ConnectionLock(k)]
    case TouchManager => [ManagerLock]
  }

  /** A thread in the middle of a call: it holds the first `held` locks of the chain. */
  datatype Thread = Thread(call: Call, held: nat)

  predicate Holds(th: Thread, l: Lock) {
    th.held <= |Chain(th.call)| && l in Chain(th.call)[..th.held]
  }

  /** Thread `i` waits for a lock that thread `j` holds. */
  predicate BlockedBy(threads: map<nat, Thread>, i: nat, j: nat) {
    && i in threads && j in threads
    && threads[i].held < |Chain(threads[i].call)|
    && Holds(threads[j], Chain(threads[i].call)[threads[i].held])
  }

  predicate BlockedWithin(threads: map<nat, Thread>, stuck: set<nat>, i: nat) {
    exists j <- stuck :: BlockedBy(threads, i, j)
  }

  /** Every thread of the set waits for a lock that some thread of the set holds. */
  predicate Deadlocked(threads: map<nat, Thread>, stuck: set<nat>) {
    stuck != {} && forall i {:trigger BlockedWithin(threads, stuck, i)} :: i in stuck ==> BlockedWithin(threads, stuck, i)
  }

  function Level(l: Lock): nat {
    match l
    case ManagerLock => 0
    case PendingLock(_) => 1
    case TunnelLock(_) => 2
    case ConnectionLock(_) => 3
  }

  function WantedLevel(th: Thread): nat
    requires th.held < |Chain(th.call)|
  {
    Level(Chain(th.call)[th.held])
  }

  lemma WaitsAboveWhatItHolds(th: Thread, l: Lock)
    requires Holds(th, l) && th.held < |Chain(th.call)|
    ensures Level(l) < WantedLevel(th)
  {
    var i :| 0 <= i < th.held && Chain(th.call)[i] == l;
  }

  lemma {:induction false} SomeoneWaitsAbove(threads: map<nat, Thread>, stuck: set<nat>, n: nat) returns (i: nat)
    requires Deadlocked(threads, stuck)
    ensures i in stuck && i in threads && threads[i].held < |Chain(threads[i].call)| && WantedLevel(threads[i]) >= n
  {
    if n == 0 {
      i :| i in stuck;
      assert BlockedWithin(threads, stuck, i);
    } else {
      var i0 := SomeoneWaitsAbove(threads, stuck, n - 1);
      assert BlockedWithin(threads, stuck, i0);
      i :| i in stuck && BlockedBy(threads, i0, i);
      assert BlockedWithin(threads, stuck, i);
      WaitsAboveWhatItHolds(threads[i], Chain(threads[i0].call)[threads[i0].held]);
    }
  }

  /** No set of threads, whatever calls they are in and however many locks they hold, is deadlocked. */
  lemma NoDeadlock(threads: map<nat, Thread>, stuck: set<nat>)
    ensures !Deadlocked(threads, stuck)
  {
    if Deadlocked(threads, stuck) {
      var _ := SomeoneWaitsAbove(threads, stuck, 4);
    }
  }
}
