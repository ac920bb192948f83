/**
 `ClusterRelay` and the relay parts of the gateway middleware: which node serves a route, how many
 relays a request takes to get there, and when a hop is trusted.
 */
module ClusterRelay {
  import opened Wrappers
  import opened Text
  import Ipv4

  const MASTER_NODE_ID := "master"
  const MAX_HOPS := 2

  datatype Role = Standalone | Master | Worker

  datatype Node = Node(id: string, token: string)

  datatype Snapshot = Snapshot(
    role: Role,
    nodeId: Option<string>,
    nodeToken: Option<string>,
    masterHost: Option<string>,
    nodeTokens: map<string, string>,
    tokenSet: set<string>)

  datatype Server = Server(isHttps: bool, listen: nat)

  // ---------------------------------------------------------------- snapshots

  /** The token of the last node with this identifier among the first `n`. */
  function LastToken(nodes: seq<Node>, n: nat, id: string): Option<string>
    requires n <= |nodes|
  {
    if n == 0 then None
    else if nodes[n - 1].id == id then Some(nodes[n - 1].token)
    else LastToken(nodes, n - 1, id)
  }

  predicate ValidateRelayToken(s: Snapshot, token: Option<string>) {
    token.Some? && token.value != "" &&
    match s.role
    case Master => token.value in s.tokenSet
    case Worker => Some(token.value) == s.nodeToken
    case Standalone => false
  }

  /** Whom a node of this role believes: the master the token of any listed node, a worker its own, neither an empty one. */
  ghost predicate Believes(role: Role, own: Option<string>, nodes: seq<Node>, token: Option<string>) {
    && token.Some? && token.value != ""
    && ((role.Master? && exists node <- nodes :: node.token == token.value) || (role.Worker? && own == token))
  }

  /** The last listed node with the identifier decides. */
  lemma {:induction false} LastTokenIs(nodes: seq<Node>, n: nat, id: string, token: string)
    requires n <= |nodes|
    ensures LastToken(nodes, n, id) == Some(token) <==>
      exists i :: 0 <= i < n && nodes[i] == Node(id, token) && forall j :: i < j < n ==> nodes[j].id != id
  {
    if n > 0 {
      var last := nodes[n - 1];
      if last.id == id {
        assert last == Node(id, last.token);
      } else {
        LastTokenIs(nodes, n - 1, id, token);
      }
    }
  }

  method UpdateSnapshot(role: Role, nodeId: Option<string>, nodeToken: Option<string>, masterHost: Option<string>, nodes: seq<Node>)
    returns (s: Snapshot)
    ensures s.role == role && s.nodeId == nodeId && s.nodeToken == nodeToken && s.masterHost == masterHost
    ensures forall id :: id in s.nodeTokens <==> LastToken(nodes, |nodes|, id).Some?
    ensures forall id <- s.nodeTokens :: Some(s.nodeTokens[id]) == LastToken(nodes, |nodes|, id)
    ensures s.tokenSet == set node <- nodes :: node.token
    ensures s.nodeTokens.Values <= s.tokenSet
    ensures forall token :: ValidateRelayToken(s, token) <==> Believes(role, nodeToken, nodes, token)
  {
    var nodeTokens: map<string, string>, tokenSet: set<string> := map[], {};
    for i := 0 to |nodes|
      invariant forall id :: id in nodeTokens <==> LastToken(nodes, i, id).Some?
      invariant forall id <- nodeTokens :: Some(nodeTokens[id]) == LastToken(nodes, i, id)
      invariant tokenSet == set node <- nodes[..i] :: node.token
      invariant forall id <- nodeTokens :: nodeTokens[id] in tokenSet
    {
      assert nodes[..i + 1] == nodes[..i] + [nodes[i]];
      nodeTokens := nodeTokens[nodes[i].id := nodes[i].token];
      tokenSet := tokenSet + {nodes[i].token};
    }
    assert nodes[..|nodes|] == nodes;
    s := Snapshot(role, nodeId, nodeToken, masterHost, nodeTokens, tokenSet);
  }

  // ---------------------------------------------------------------- tunnel names

  /** The name under which a worker registers its tunnel for one port. */
  function TunnelNodeName(nodeId: string, port: nat): string {
    "cluster-" + nodeId + "-" + Ipv4.Decimal(port)
  }

  /** `ClusterTunnelHub.ValidateNode`: the node identifier inside a registration name. */
  function NodeIdOf(name: string): Option<string> {
    if |name| < 8 || name[..8] != "cluster-" then None
    else
      var lastDash := LastIndexOf(name, '-');
      if lastDash <= 8 then None else Some(name[8..lastDash])
  }

  lemma {:induction false} LastDash(front: string, digits: string)
    requires '-' !in digits
    ensures LastIndexOf(front + "-" + digits, '-') == |front|
  {
    var s := front + "-" + digits;
    if digits == "" {
      assert s[|s| - 1] == '-';
    } else {
      LastDash(front, digits[..|digits| - 1]);
      assert s[|s| - 1] == digits[|digits| - 1];
      assert s[..|s| - 1] == front + "-" + digits[..|digits| - 1];
    }
  }

  /** Node identifiers may contain dashes: cutting at the last dash always gives the identifier back. */
  lemma NodeNameRoundTrip(nodeId: string, port: nat)
    ensures NodeIdOf(TunnelNodeName(nodeId, port)) == if nodeId == "" then None else Some(nodeId)
  {
    var name := TunnelNodeName(nodeId, port);
    var front := "cluster-" + nodeId;
    LastDash(front, Ipv4.Decimal(port));
    assert name == front + "-" + Ipv4.Decimal(port);
    assert name[..8] == "cluster-";
    assert name[8..|front|] == nodeId;
  }

  /** Different workers or ports never share a tunnel name. */
  lemma TunnelNamesAreUnique(id1: string, port1: nat, id2: string, port2: nat)
    requires TunnelNodeName(id1, port1) == TunnelNodeName(id2, port2)
    ensures id1 == id2 && port1 == port2
  {
    var name := TunnelNodeName(id1, port1);
    var f1, f2 := "cluster-" + id1, "cluster-" + id2;
    LastDash(f1, Ipv4.Decimal(port1));
    LastDash(f2, Ipv4.Decimal(port2));
    assert name == f1 + "-" + Ipv4.Decimal(port1) && name == f2 + "-" + Ipv4.Decimal(port2);
    assert |f1| == |f2|;
    assert f1 == name[..|f1|] && f2 == name[..|f1|];
    assert id1 == f1[8..] && id2 == f2[8..];
    assert Ipv4.Decimal(port1) == name[|f1| + 1..] == Ipv4.Decimal(port2);
    Ipv4.DecimalReadsBack(port1);
    Ipv4.DecimalReadsBack(port2);
  }

  // ---------------------------------------------------------------- one decision

  datatype Destination =
    | Local
    | ToMaster(host: string, port: nat, https: bool)
    | ToTunnel(name: string, https2: bool)

  function RelayPort(server: Server): nat {
    if server.isHttps && server.listen == 80 then 443 else server.listen
  }

  predicate RelayOverTls(server: Server) {
    server.isHttps && server.listen == 80
  }

  function MasterAddress(s: Snapshot, server: Server): Destination {
    if s.masterHost.None? || s.masterHost.value == "" then Local
    else ToMaster(s.masterHost.value, RelayPort(server), RelayOverTls(server))
  }

  /** An access node that is null, empty or blank. */
  predicate Unset(access: Option<string>, isWhite: char -> bool) {
    access.None? || Blank(access.value, isWhite)
  }

  function ResolveRelayAddress(s: Snapshot, access: Option<string>, server: Server, isWhite: char -> bool): Destination {
    if Unset(access, isWhite) || s.role.Standalone? then Local
    else if access.value == MASTER_NODE_ID then
      if s.role.Master? then Local else MasterAddress(s, server)
    else if s.role.Worker? then
      if Some(access.value) == s.nodeId then Local else MasterAddress(s, server)
    else if access.value !in s.nodeTokens then Local
    else ToTunnel(TunnelNodeName(access.value, RelayPort(server)), RelayOverTls(server))
  }

  function GetRelayToken(s: Snapshot, access: string): Option<string> {
    match s.role
    case Worker => s.nodeToken
    case Master => if access in s.nodeTokens then Some(s.nodeTokens[access]) else None
    case Standalone => None
  }

  // ---------------------------------------------------------------- a cluster

  datatype Place = AtMaster | AtWorker(id: string)

  /** The relay count header. */
  datatype Header = Absent | Garbage | Count(hops: int)

  datatype Request = Request(at: Place, count: Header, token: Option<string>)

  datatype Cluster = Cluster(master: Snapshot, workers: map<string, Snapshot>, server: Server, isWhite: char -> bool)

  predicate Exists(c: Cluster, p: Place) {
    p.AtWorker? ==> p.id in c.workers
  }

  function SnapshotOf(c: Cluster, p: Place): Snapshot
    requires Exists(c, p)
  {
    if p.AtMaster? then c.master else c.workers[p.id]
  }

  /** Where a connection to a destination ends up: a tunnel leads to the worker that registered its name. */
  function Reach(d: Destination): Option<Place> {
    match d
    case Local => None
    case ToMaster(_, _, _) => Some(AtMaster)
    case ToTunnel(name, _) => var id := NodeIdOf(name); if id.Some? then Some(AtWorker(id.value)) else None
  }

  datatype Outcome = Served(at: Place) | LoopDetected | Unreachable | Forwarded(next: Request)

  predicate Trusted(c: Cluster, r: Request)
    requires Exists(c, r.at)
  {
    ValidateRelayToken(SnapshotOf(c, r.at), r.token)
  }

  /** The count the node goes by: an untrusted header is removed, an unreadable one counts as 0. */
  function HopsOf(c: Cluster, r: Request): int
    requires Exists(c, r.at)
  {
    if r.count.Count? && Trusted(c, r) then r.count.hops else 0
  }

  /** What a node does with a request: the middleware, then the route, then the header transform. */
  function Step(c: Cluster, routes: Place -> Option<string>, r: Request): Outcome
    requires Exists(c, r.at)
  {
    var s, access := SnapshotOf(c, r.at), routes(r.at);
    if HopsOf(c, r) > MAX_HOPS then LoopDetected
    else
      var d := ResolveRelayAddress(s, access, c.server, c.isWhite);
      if d.Local? then Served(r.at)
      else if Reach(d).None? || !Exists(c, Reach(d).value) then Unreachable
      else Forwarded(Request(Reach(d).value, Count(HopsOf(c, r) + 1), GetRelayToken(s, access.value)))
  }

  /** Every running node has its role, its own identifier and an address of the master. */
  ghost predicate Usable(c: Cluster) {
    && c.master.role.Master? && !c.isWhite('m')
    && (forall id <- c.workers :: var w := c.workers[id];
          w.role.Worker? && w.nodeId == Some(id) && w.masterHost.Some? && w.masterHost.value != "")
  }

  /** A worker the master may relay to: running, listed, and with an identifier that can be an access node. */
  predicate Linked(c: Cluster, id: string) {
    id in c.workers && id in c.master.nodeTokens && id != MASTER_NODE_ID && !Blank(id, c.isWhite)
  }

  predicate OnPath(c: Cluster, p: Place) {
    p.AtWorker? ==> Linked(c, p.id)
  }

  predicate MasterTrusts(c: Cluster, id: string)
    requires Linked(c, id)
  {
    ValidateRelayToken(c.master, c.workers[id].nodeToken)
  }

  predicate WorkerTrusts(c: Cluster, id: string)
    requires Linked(c, id)
  {
    ValidateRelayToken(c.workers[id], Some(c.master.nodeTokens[id]))
  }

  /** Both ends of the link accept the token the other one sends. */
  predicate BothTrust(c: Cluster, id: string) {
    Linked(c, id) && MasterTrusts(c, id) && WorkerTrusts(c, id)
  }

  ghost predicate Trusting(c: Cluster) {
    Usable(c) && forall id :: Linked(c, id) ==> BothTrust(c, id)
  }

  /** A relay from the master or a linked worker goes to a node of that kind, which trusts it. */
  lemma RelaysAreTrusted(c: Cluster, routes: Place -> Option<string>, r: Request, next: Request)
    requires Trusting(c) && Exists(c, r.at) && OnPath(c, r.at) && Step(c, routes, r) == Forwarded(next)
    ensures Exists(c, next.at) && OnPath(c, next.at) && Trusted(c, next)
  {
    var access := routes(r.at);
    if r.at.AtMaster? {
      NodeNameRoundTrip(access.value, RelayPort(c.server));
      assert BothTrust(c, access.value);
    } else {
      assert BothTrust(c, r.at.id);
    }
  }

  // ---------------------------------------------------------------- who is believed

  /** The snapshot of the master is that of this list of nodes. */
  ghost predicate MasterOf(c: Cluster, nodes: seq<Node>) {
    && c.master.role.Master? && c.master.tokenSet == (set node <- nodes :: node.token)
    && forall id :: (if id in c.master.nodeTokens then Some(c.master.nodeTokens[id]) else None) == LastToken(nodes, |nodes|, id)
  }

  /** Some node of the cluster vouches for the request: at the master any listed one, at a worker itself. */
  ghost predicate Vouched(c: Cluster, nodes: seq<Node>, r: Request)
    requires Exists(c, r.at)
  {
    && r.token.Some? && r.token.value != ""
    && match r.at
       case AtMaster => exists node <- nodes :: node.token == r.token.value
       case AtWorker(id) => c.workers[id].nodeToken == r.token
  }

  lemma TrustedIffVouched(c: Cluster, nodes: seq<Node>, r: Request)
    requires Usable(c) && MasterOf(c, nodes) && Exists(c, r.at)
    ensures Trusted(c, r) <==> Vouched(c, nodes, r)
  {
  }

  /** 508 is answered exactly to a request that a node vouches for and whose count is readable and above 2. */
  lemma LoopDetectedIff(c: Cluster, nodes: seq<Node>, routes: Place -> Option<string>, r: Request)
    requires Usable(c) && MasterOf(c, nodes) && Exists(c, r.at)
    ensures Step(c, routes, r) == LoopDetected <==> Vouched(c, nodes, r) && r.count.Count? && r.count.hops > 2
  {
    TrustedIffVouched(c, nodes, r);
  }

  /** What a request claims about its hops makes no difference when no node vouches for it. */
  lemma ForgedCountIsIgnored(c: Cluster, nodes: seq<Node>, routes: Place -> Option<string>, r: Request, claim: Header)
    requires Usable(c) && MasterOf(c, nodes) && Exists(c, r.at) && !Vouched(c, nodes, r)
    ensures Step(c, routes, r.(count := claim)) == Step(c, routes, r.(count := Absent))
  {
    TrustedIffVouched(c, nodes, r.(count := claim));
  }

  lemma {:induction false} LastIsListed(nodes: seq<Node>, n: nat, id: string)
    requires n <= |nodes| && LastToken(nodes, n, id).Some?
    ensures exists node <- nodes :: node.token == LastToken(nodes, n, id).value
  {
    if nodes[n - 1].id == id { assert nodes[n - 1] in nodes; } else { LastIsListed(nodes, n - 1, id); }
  }

  /** Both ends of a link trust each other exactly when the worker has the token last listed for it, and that is not empty. */
  lemma BothTrustIff(c: Cluster, nodes: seq<Node>, id: string)
    requires Usable(c) && MasterOf(c, nodes) && Linked(c, id)
    ensures BothTrust(c, id) <==>
      c.workers[id].nodeToken == LastToken(nodes, |nodes|, id) && c.workers[id].nodeToken != Some("")
  {
    LastIsListed(nodes, |nodes|, id);
    assert c.workers[id].role.Worker?;
  }

  /** Where every linked worker has the token last listed for it, a relay reaches a node that vouches for it. */
  lemma RelaysAreVouched(c: Cluster, nodes: seq<Node>, routes: Place -> Option<string>, r: Request, next: Request)
    requires Usable(c) && MasterOf(c, nodes)
    requires forall id :: Linked(c, id) ==>
      c.workers[id].nodeToken == LastToken(nodes, |nodes|, id) && c.workers[id].nodeToken != Some("")
    requires Exists(c, r.at) && OnPath(c, r.at) && Step(c, routes, r) == Forwarded(next)
    ensures Exists(c, next.at) && OnPath(c, next.at) && Vouched(c, nodes, next)
  {
    forall id | Linked(c, id) ensures BothTrust(c, id) { BothTrustIff(c, nodes, id); }
    RelaysAreTrusted(c, routes, r, next);
    TrustedIffVouched(c, nodes, next);
  }

  /** The address of the destination, as the route configuration has it. */
  function Address(d: Destination): Option<string> {
    match d
    case Local => None
    case ToMaster(host, port, https) => Some((if https then "https://" else "http://") + host + ":" + Ipv4.Decimal(port))
    case ToTunnel(name, https) => Some((if https then "https://" else "http://") + "node_" + name)
  }

  /**
   Where a route leads from a worker and from the master: to the master under its host, or into the tunnel
   of a listed worker; over TLS at port 443 for an HTTPS server that listens at 80, else plain at its own port.
   */
  lemma RelayAddresses(s: Snapshot, access: string, server: Server, isWhite: char -> bool)
    requires !Blank(access, isWhite)
    ensures var tls := server.isHttps && server.listen == 80;
      var scheme, port := if tls then "https://" else "http://", if tls then 443 else server.listen;
      Address(ResolveRelayAddress(s, Some(access), server, isWhite)) ==
        if s.role.Worker? && (access == "master" || s.nodeId != Some(access)) && s.masterHost.Some? && s.masterHost.value != "" then
          Some(scheme + s.masterHost.value + ":" + Ipv4.Decimal(port))
        else if s.role.Master? && access != "master" && access in s.nodeTokens then
          Some(scheme + "node_cluster-" + access + "-" + Ipv4.Decimal(port))
        else None
  {
    var tls := server.isHttps && server.listen == 80;
    var scheme, port := if tls then "https://" else "http://", if tls then 443 else server.listen;
    assert "node_" + "cluster-" == "node_cluster-";
    assert scheme + "node_" + TunnelNodeName(access, port) == scheme + "node_cluster-" + access + "-" + Ipv4.Decimal(port);
  }

  // ---------------------------------------------------------------- arbitrary routes

  /** A request on its way: every element is what the node of the previous one forwarded. */
  predicate Journey(c: Cluster, routes: Place -> Option<string>, rs: seq<Request>) {
    && rs != [] && Exists(c, rs[0].at)
    && forall i :: 0 <= i < |rs| - 1 ==> Relayed(c, routes, rs, i)
  }

  predicate Relayed(c: Cluster, routes: Place -> Option<string>, rs: seq<Request>, i: nat)
    requires i < |rs| - 1
  {
    Exists(c, rs[i].at) && Step(c, routes, rs[i]) == Forwarded(rs[i + 1])
  }

  lemma {:induction false} HopsAreCounted(c: Cluster, routes: Place -> Option<string>, rs: seq<Request>, i: nat)
    requires Trusting(c) && Journey(c, routes, rs) && OnPath(c, rs[0].at) && i < |rs|
    ensures Exists(c, rs[i].at) && OnPath(c, rs[i].at) && HopsOf(c, rs[i]) == HopsOf(c, rs[0]) + i
  {
    if i > 0 {
      HopsAreCounted(c, routes, rs, i - 1);
      assert Relayed(c, routes, rs, i - 1);
      RelaysAreTrusted(c, routes, rs[i - 1], rs[i]);
    }
  }

  /** How many relays the hop limit leaves to a request. */
  function Allowance(hops: int): nat {
    if hops > MAX_HOPS then 0 else MAX_HOPS + 1 - hops
  }

  /**
   Whatever the routes and the first count: never more relays than the limit leaves, and 508 is answered
   exactly after all of them.
   */
  lemma RelaysAreBounded(c: Cluster, routes: Place -> Option<string>, rs: seq<Request>)
    requires Trusting(c) && Journey(c, routes, rs) && OnPath(c, rs[0].at)
    ensures |rs| - 1 <= Allowance(HopsOf(c, rs[0]))
    ensures Exists(c, rs[|rs| - 1].at)
    ensures Step(c, routes, rs[|rs| - 1]) == LoopDetected <==> |rs| - 1 == Allowance(HopsOf(c, rs[0]))
  {
    var last := |rs| - 1;
    if last > 0 {
      HopsAreCounted(c, routes, rs, last - 1);
      assert Relayed(c, routes, rs, last - 1);
      assert HopsOf(c, rs[last - 1]) <= MAX_HOPS;
    }
    HopsAreCounted(c, routes, rs, last);
  }

  /** An unlinked worker may also be where a request enters; then the limit counts from the master. */
  lemma EntryAddsOne(c: Cluster, routes: Place -> Option<string>, rs: seq<Request>)
    requires Trusting(c) && Journey(c, routes, rs) && HopsOf(c, rs[0]) >= 0
    ensures |rs| - 1 <= MAX_HOPS + 2
  {
    if OnPath(c, rs[0].at) {
      RelaysAreBounded(c, routes, rs);
    } else if |rs| > 1 {
      assert Relayed(c, routes, rs, 0);
      var rest := rs[1..];
      forall i | 0 <= i < |rest| - 1 ensures Relayed(c, routes, rest, i) {
        assert Relayed(c, routes, rs, i + 1);
      }
      RelaysAreBounded(c, routes, rest);
    }
  }

  // ---------------------------------------------------------------- routes in step

  /** The node a route designates; a request stays where it entered when the route names none. */
  function Designated(c: Cluster, access: Option<string>, entry: Place): Place {
    if Unset(access, c.isWhite) then entry
    else if access.value != MASTER_NODE_ID && access.value in c.master.nodeTokens then AtWorker(access.value)
    else AtMaster
  }

  /** Follows a request for at most `n` relays; gives the last outcome and the relays taken. */
  function Follow(c: Cluster, routes: Place -> Option<string>, r: Request, n: nat): (Outcome, nat)
    requires Exists(c, r.at)
    decreases n
  {
    var o := Step(c, routes, r);
    if n > 0 && o.Forwarded? && Exists(c, o.next.at) then
      var (last, k) := Follow(c, routes, o.next, n - 1);
      (last, k + 1)
    else (o, 0)
  }

  /** The nodes the master lists are the running ones. */
  ghost predicate Known(c: Cluster) {
    Usable(c) && c.master.nodeTokens.Keys == c.workers.Keys
  }

  /** With the same route everywhere, one relay reaches the master and one more the worker. */
  lemma MasterIsNext(c: Cluster, access: Option<string>, r: Request)
    requires Known(c) && Exists(c, r.at) && HopsOf(c, r) <= MAX_HOPS
    ensures var o := Step(c, _ => access, r); var goal := Designated(c, access, r.at);
      if r.at == goal then o == Served(goal)
      else if r.at.AtMaster? then o.Forwarded? && o.next.at == goal && Exists(c, goal) && o.next.count == Count(HopsOf(c, r) + 1)
      else o.Forwarded? && o.next.at == AtMaster && o.next.count == Count(HopsOf(c, r) + 1)
  {
    if r.at.AtMaster? && access.Some? { NodeNameRoundTrip(access.value, RelayPort(c.server)); }
  }

  /**
   Synced routes: a request entering anywhere is served by the designated node after at most two relays,
   whoever trusts whom.
   */
  lemma DesignatedNodeServes(c: Cluster, access: Option<string>, entry: Request)
    requires Known(c) && Exists(c, entry.at) && HopsOf(c, entry) <= 0
    ensures var goal := Designated(c, access, entry.at);
      var (outcome, relays) := Follow(c, _ => access, entry, 2);
      && outcome == Served(goal)
      && relays == (if entry.at == goal then 0 else if entry.at.AtMaster? || goal.AtMaster? then 1 else 2)
  {
    var routes := (_: Place) => access;
    var goal := Designated(c, access, entry.at);
    MasterIsNext(c, access, entry);
    if entry.at != goal {
      var first := Step(c, routes, entry).next;
      MasterIsNext(c, access, first);
      assert Designated(c, access, first.at) == goal;
      if first.at == goal {
        assert Follow(c, routes, first, 1) == (Served(goal), 0);
      } else {
        var second := Step(c, routes, first).next;
        MasterIsNext(c, access, second);
        assert Follow(c, routes, second, 0) == (Served(goal), 0);
        assert Follow(c, routes, first, 1) == (Served(goal), 1);
      }
    }
  }

  // ---------------------------------------------------------------- tokens out of step

  /** The master sends everything to the worker and the worker sends it back. */
  function Crossed(id: string): Place -> Option<string> {
    (p: Place) => if p.AtMaster? then Some(id) else Some(MASTER_NODE_ID)
  }

  /** Between the two ends the count never gets past 1, and at an end that distrusts the other it is 0. */
  ghost predicate Circling(c: Cluster, id: string, r: Request)
    requires Linked(c, id)
  {
    && (r.at == AtMaster || r.at == AtWorker(id)) && 0 <= HopsOf(c, r) <= 1
    && (r.at == AtMaster && !MasterTrusts(c, id) ==> HopsOf(c, r) == 0)
    && (r.at == AtWorker(id) && !WorkerTrusts(c, id) ==> HopsOf(c, r) == 0)
  }

  lemma CircleFromMaster(c: Cluster, id: string, r: Request)
    requires Usable(c) && Linked(c, id) && !BothTrust(c, id) && Circling(c, id, r) && r.at.AtMaster?
    ensures var o := Step(c, Crossed(id), r); o.Forwarded? && Circling(c, id, o.next)
  {
    NodeNameRoundTrip(id, RelayPort(c.server));
  }

  lemma CircleFromWorker(c: Cluster, id: string, r: Request)
    requires Usable(c) && Linked(c, id) && !BothTrust(c, id) && Circling(c, id, r) && r.at.AtWorker?
    ensures var o := Step(c, Crossed(id), r); o.Forwarded? && Circling(c, id, o.next)
  {
    assert MASTER_NODE_ID[0] == 'm';
  }

  lemma CircleStep(c: Cluster, id: string, r: Request)
    requires Usable(c) && Linked(c, id) && !BothTrust(c, id) && Circling(c, id, r)
    ensures var o := Step(c, Crossed(id), r); o.Forwarded? && Circling(c, id, o.next)
  {
    if r.at.AtMaster? { CircleFromMaster(c, id, r); } else { CircleFromWorker(c, id, r); }
  }

  lemma JourneyGoesOn(c: Cluster, routes: Place -> Option<string>, rs: seq<Request>, next: Request)
    requires Journey(c, routes, rs) && Exists(c, rs[|rs| - 1].at) && Step(c, routes, rs[|rs| - 1]) == Forwarded(next)
    ensures Journey(c, routes, rs + [next])
  {
    forall i | 0 <= i < |rs| ensures Relayed(c, routes, rs + [next], i) {
      if i < |rs| - 1 { assert Relayed(c, routes, rs, i); }
    }
  }

  lemma CircleGoesOn(c: Cluster, id: string, rs: seq<Request>) returns (next: Request)
    requires Usable(c) && Linked(c, id) && !BothTrust(c, id)
    requires Journey(c, Crossed(id), rs) && Circling(c, id, rs[|rs| - 1])
    ensures Journey(c, Crossed(id), rs + [next]) && Circling(c, id, next)
  {
    var last := rs[|rs| - 1];
    CircleStep(c, id, last);
    next := Step(c, Crossed(id), last).next;
    JourneyGoesOn(c, Crossed(id), rs, next);
  }

  /** One end that distrusts the other is enough: with crossed routes a request circles for ever. */
  lemma {:induction false} MismatchCirclesForever(c: Cluster, id: string, n: nat) returns (rs: seq<Request>)
    requires Usable(c) && Linked(c, id) && !BothTrust(c, id)
    ensures |rs| == n + 1 && Journey(c, Crossed(id), rs) && HopsOf(c, rs[0]) == 0
    ensures Circling(c, id, rs[n])
  {
    if n == 0 {
      rs := [Request(AtMaster, Absent, None)];
    } else {
      var before := MismatchCirclesForever(c, id, n - 1);
      var next := CircleGoesOn(c, id, before);
      rs := before + [next];
    }
  }

  /** No request, whatever the routes, is relayed more than `bound` times. */
  ghost predicate BoundedBy(c: Cluster, bound: int) {
    forall routes: Place -> Option<string>, rs: seq<Request> ::
      Journey(c, routes, rs) && HopsOf(c, rs[0]) >= 0 ==> |rs| - 1 <= bound
  }

  /** The hop limit rests on the tokens: relays are bounded exactly when both ends of every link trust each other. */
  lemma RelaysAreBoundedIff(c: Cluster)
    requires Usable(c)
    ensures (exists bound :: BoundedBy(c, bound)) <==> (forall id :: Linked(c, id) ==> BothTrust(c, id))
    ensures (exists bound :: BoundedBy(c, bound)) <==> BoundedBy(c, MAX_HOPS + 2)
  {
    if forall id :: Linked(c, id) ==> BothTrust(c, id) {
      forall routes: Place -> Option<string>, rs | Journey(c, routes, rs) && HopsOf(c, rs[0]) >= 0
        ensures |rs| - 1 <= MAX_HOPS + 2
      {
        EntryAddsOne(c, routes, rs);
      }
      assert BoundedBy(c, MAX_HOPS + 2);
    } else {
      var id :| Linked(c, id) && !BothTrust(c, id);
      forall bound ensures !BoundedBy(c, bound) {
        var n := if bound < 0 then 0 else bound + 1;
        var rs := MismatchCirclesForever(c, id, n);
        assert Journey(c, Crossed(id), rs);
      }
    }
  }
}
