/**
 `ClusterConfigApplier`: after a configuration snapshot arrived, the running gateways and the running
 port forwards are brought in line with it, touching only what changed.
 */
module ConfigReconcile {
  import opened Wrappers

  // ---------------------------------------------------------------- HTTP gateways

  /** A server entry; `settings` is everything but its identity and its switch. */
  datatype Server = Server(id: string, enable: bool, settings: string)

  /** A running gateway: what it was built from, its present routes, and which build it is. */
  datatype Gateway = Gateway(server: Server, rateLimits: string, routes: string, build: int)

  ghost predicate DistinctIds(servers: seq<Server>) {
    forall i, j :: 0 <= i < j < |servers| ==> servers[i].id != servers[j].id
  }

  /** Serialization reads back what it wrote, so it tells different entries apart. */
  ghost predicate Faithful<T(!new)>(serialize: T -> string) {
    forall a, b :: serialize(a) == serialize(b) ==> a == b
  }

  /** Everything the second loop looks at. */
  datatype Plan = Plan(
    was: map<string, Server>, rateLimits: string, rateLimitsChanged: bool,
    routes: string -> string,          // the new routes of a server
    starts: string -> bool)            // whether a start brings the gateway online

  predicate Unchanged(p: Plan, server: Server) {
    server.id in p.was && p.was[server.id] == server && !p.rateLimitsChanged
  }

  /** What one entry of the new configuration makes of the gateway of its id. */
  ghost predicate Outcome(p: Plan, server: Server, before: Option<Gateway>, after: Option<Gateway>, built: int) {
    if !server.enable then after == None
    else if before.Some? && Unchanged(p, server) then
      after == Some(before.value.(routes := p.routes(server.id)))
    else if p.starts(server.id) then
      && after.Some? && after.value.build > built
      && after.value == Gateway(server, p.rateLimits, p.routes(server.id), after.value.build)
    else after == None
  }

  function Lookup(running: map<string, Gateway>, id: string): Option<Gateway> {
    if id in running then Some(running[id]) else None
  }

  class Gateways {
    var running: map<string, Gateway>
    var built: int

    method Close(id: string)
      modifies this`running
      ensures running == old(running) - {id}
    {
      running := running - {id};
    }

    method Reload(server: Server, routes: string)
      modifies this`running
      ensures running == if server.id in old(running)
                         then old(running)[server.id := old(running)[server.id].(routes := routes)] else old(running)
    {
      if server.id in running {
        running := running[server.id := running[server.id].(routes := routes)];
      }
    }

    method Start(server: Server, rateLimits: string, routes: string, works: bool)
      modifies this
      ensures built == old(built) + 1
      ensures running == if server.enable && works then old(running)[server.id := Gateway(server, rateLimits, routes, built)]
                         else old(running)
    {
      built := built + 1;
      if server.enable && works {
        running := running[server.id := Gateway(server, rateLimits, routes, built)];
      }
    }

    /** The body of the loop over the new servers. */
    method ApplyServer(server: Server, p: Plan, serialize: Server -> string)
      requires Faithful(serialize)
      modifies this
      ensures built >= old(built)
      ensures Outcome(p, server, Lookup(old(running), server.id), Lookup(running, server.id), old(built))
      ensures forall id :: id != server.id ==> Lookup(running, id) == Lookup(old(running), id)
    {
      var online := server.id in running;
      if !server.enable {
        if online { Close(server.id); }
        return;
      }
      var serverChanged := server.id !in p.was || serialize(p.was[server.id]) != serialize(server);
      if online && (serverChanged || p.rateLimitsChanged) {
        Close(server.id);
        online := false;
      }
      if online {
        Reload(server, p.routes(server.id));
      } else {
        Start(server, p.rateLimits, p.routes(server.id), p.starts(server.id));
      }
    }

    method ReconcileServers(servers: seq<Server>, p: Plan, serialize: Server -> string)
      requires DistinctIds(servers) && Faithful(serialize)
      modifies this
      ensures built >= old(built)
      ensures forall s <- servers :: Outcome(p, s, Lookup(old(running), s.id), Lookup(running, s.id), old(built))
      ensures forall id :: (forall s <- servers :: s.id != id) ==>
        Lookup(running, id) == if id in p.was then None else Lookup(old(running), id)
    {
      var newIds := set s <- servers :: s.id;
      var removed := p.was.Keys - newIds;
      while removed != {}
        invariant removed <= p.was.Keys - newIds && built == old(built)
        invariant running == old(running) - (p.was.Keys - newIds - removed)
      {
        var id :| id in removed;
        if id in running { Close(id); }
        removed := removed - {id};
      }
      ghost var kept := running;
      for i := 0 to |servers|
        invariant built >= old(built)
        invariant forall j :: 0 <= j < i ==>
          Outcome(p, servers[j], Lookup(kept, servers[j].id), Lookup(running, servers[j].id), old(built))
        invariant forall id :: (forall j :: 0 <= j < i ==> servers[j].id != id) ==> Lookup(running, id) == Lookup(kept, id)
      {
        ghost var before := running;
        ApplyServer(servers[i], p, serialize);
        forall j | 0 <= j < i ensures Lookup(running, servers[j].id) == Lookup(before, servers[j].id) {
          assert servers[j].id != servers[i].id;
        }
      }
      forall s | s in servers
        ensures Outcome(p, s, Lookup(old(running), s.id), Lookup(running, s.id), old(built))
      {
        assert s.id in newIds;
        assert Lookup(kept, s.id) == Lookup(old(running), s.id);
      }
    }

    /**
     The whole step for the servers: from agreement with the old configuration to agreement with the new
     one, without touching what did not change.
     */
    method ApplyServers(servers: seq<Server>, p: Plan, oldRateLimits: string, serialize: Server -> string)
      requires DistinctIds(servers) && Faithful(serialize) && Agrees(running, p.was, oldRateLimits)
      requires p.rateLimitsChanged <==> oldRateLimits != p.rateLimits
      requires forall s <- servers :: p.starts(s.id)
      modifies this
      ensures forall id :: id in running <==> exists s :: s in servers && s.id == id && s.enable
      ensures forall s <- servers :: s.enable ==> RunsAs(running, s, p)
      ensures forall s <- servers :: s.enable && s.id in old(running) && Unchanged(p, s) ==>
        s.id in running && running[s.id].build == old(running)[s.id].build
      ensures forall s <- servers ::
        s.enable && s.id in old(running) && s.id in p.was && p.was[s.id] == s && oldRateLimits == p.rateLimits ==>
          s.id in running && running[s.id].build == old(running)[s.id].build
      ensures forall now: map<string, Server> :: (forall s <- servers :: s.id in now && now[s.id] == s) ==>
        Agrees(running, now, p.rateLimits)
    {
      ghost var before, count := running, built;
      ReconcileServers(servers, p, serialize);
      RunningIsTheNewConfig(p, servers, oldRateLimits, before, running, count);
      forall s | s in servers && s.enable && s.id in before && Unchanged(p, s)
        ensures s.id in running && running[s.id].build == before[s.id].build
      {
        UnchangedGatewayIsNotClosed(p, servers, before, running, count, s);
      }
    }
  }

  /** Every running gateway is an entry of the old configuration, built from it and its rate limits. */
  ghost predicate Agrees(running: map<string, Gateway>, was: map<string, Server>, rateLimits: string) {
    forall id <- running :: id in was && running[id].server == was[id] && running[id].rateLimits == rateLimits
  }

  /** What `ReconcileServers` leaves behind. */
  ghost predicate Reconciled(p: Plan, servers: seq<Server>, before: map<string, Gateway>, after: map<string, Gateway>, built: int) {
    && (forall s <- servers :: Outcome(p, s, Lookup(before, s.id), Lookup(after, s.id), built))
    && forall id :: (forall s <- servers :: s.id != id) ==>
         Lookup(after, id) == if id in p.was then None else Lookup(before, id)
  }

  lemma RemovedDoesNotRun(p: Plan, servers: seq<Server>, oldRateLimits: string, before: map<string, Gateway>,
                          after: map<string, Gateway>, built: int, id: string)
    requires Reconciled(p, servers, before, after, built) && Agrees(before, p.was, oldRateLimits)
    requires forall s <- servers :: s.id != id
    ensures id !in after
  {
    assert Lookup(after, id) == if id in p.was then None else Lookup(before, id);
  }

  /** The server runs with its new definition, rate limits and routes. */
  ghost predicate RunsAs(after: map<string, Gateway>, s: Server, p: Plan) {
    && s.id in after && after[s.id].server == s
    && after[s.id].rateLimits == p.rateLimits && after[s.id].routes == p.routes(s.id)
  }

  /** If the gateways agreed with the old configuration, exactly the enabled servers of the new one run now. */
  lemma RunningIsTheNewConfig(p: Plan, servers: seq<Server>, oldRateLimits: string,
                              before: map<string, Gateway>, after: map<string, Gateway>, built: int)
    requires Reconciled(p, servers, before, after, built) && Agrees(before, p.was, oldRateLimits)
    requires p.rateLimitsChanged <==> oldRateLimits != p.rateLimits
    requires forall s <- servers :: p.starts(s.id)
    ensures forall id :: id in after <==> exists s :: s in servers && s.id == id && s.enable
    ensures forall s <- servers :: s.enable ==> RunsAs(after, s, p)
  {
    forall s | s in servers && s.enable
      ensures RunsAs(after, s, p)
    {
      assert Outcome(p, s, Lookup(before, s.id), Lookup(after, s.id), built);
    }
    forall id | id in after ensures exists s :: s in servers && s.id == id && s.enable {
      if s :| s in servers && s.id == id {
        assert Outcome(p, s, Lookup(before, s.id), Lookup(after, s.id), built);
      } else {
        RemovedDoesNotRun(p, servers, oldRateLimits, before, after, built, id);
      }
    }
  }

  /** An enabled gateway whose definition and rate limits are unchanged is the same build as before. */
  lemma UnchangedGatewayIsNotClosed(p: Plan, servers: seq<Server>, before: map<string, Gateway>,
                                    after: map<string, Gateway>, built: int, s: Server)
    requires Reconciled(p, servers, before, after, built) && s in servers
    requires s.enable && s.id in before && Unchanged(p, s)
    ensures s.id in after && after[s.id].build == before[s.id].build
  {
    assert Outcome(p, s, Lookup(before, s.id), Lookup(after, s.id), built);
  }

  // ---------------------------------------------------------------- port forwards

  datatype Forward = Forward(id: string, enable: bool, upstreams: nat, settings: string)

  datatype Runner = Runner(rule: Forward, build: int)

  /** `StreamProxyManager.StartAsync` starts this rule when nothing of that id runs. */
  predicate Startable(f: Forward) { f.enable && f.id != "" && f.upstreams > 0 }

  ghost predicate DistinctForwards(forwards: seq<Forward>) {
    forall i, j :: 0 <= i < j < |forwards| ==> forwards[i].id != forwards[j].id
  }

  function Find(runners: map<string, Runner>, id: string): Option<Runner> {
    if id in runners then Some(runners[id]) else None
  }

  ghost predicate ForwardOutcome(was: map<string, Forward>, starts: string -> bool, f: Forward,
                                 before: Option<Runner>, after: Option<Runner>, built: int) {
    if f.id in was && was[f.id] == f then after == before
    else if Startable(f) && starts(f.id) then after.Some? && after.value.rule == f && after.value.build > built
    else after == None
  }

  class Runners {
    var runners: map<string, Runner>
    var built: int

    method Start(f: Forward, works: bool)
      modifies this
      ensures built >= old(built)
      ensures forall id :: id != f.id ==> Find(runners, id) == Find(old(runners), id)
      ensures if f.id in old(runners) then runners == old(runners)
              else if Startable(f) && works then
                Find(runners, f.id) == Some(Runner(f, built)) && built == old(built) + 1
              else Find(runners, f.id) == None
      ensures f.id !in old(runners) ==>
        (f.id in runners <==> f.enable && f.id != "" && f.upstreams > 0 && works) &&
        (f.id in runners ==> runners[f.id].rule == f)
    {
      if !f.enable { return; }
      if f.id == "" { return; }
      if f.id in runners { return; }
      if f.upstreams == 0 { return; }
      built := built + 1;
      runners := runners[f.id := Runner(f, built)];
      if !works {
        runners := runners - {f.id};
      }
    }

    method Stop(id: string)
      modifies this`runners
      ensures runners == old(runners) - {id}
    {
      runners := runners - {id};
    }

    method Reload(f: Forward, works: bool)
      modifies this
      ensures built >= old(built)
      ensures forall id :: id != f.id ==> Find(runners, id) == Find(old(runners), id)
      ensures if Startable(f) && works then Find(runners, f.id).Some? && runners[f.id].rule == f && runners[f.id].build > old(built)
              else f.id !in runners
    {
      Stop(f.id);
      Start(f, works);
    }

    /** The body of the loop over the new forwards. */
    method ApplyForward(f: Forward, was: map<string, Forward>, serialize: Forward -> string, starts: string -> bool)
      requires Faithful(serialize)
      modifies this
      ensures built >= old(built)
      ensures ForwardOutcome(was, starts, f, Find(old(runners), f.id), Find(runners, f.id), old(built))
      ensures forall id :: id != f.id ==> Find(runners, id) == Find(old(runners), id)
    {
      if f.id !in was || serialize(was[f.id]) != serialize(f) {
        Reload(f, starts(f.id));
      }
    }

    method ReconcileForwards(forwards: seq<Forward>, was: map<string, Forward>, serialize: Forward -> string,
                             starts: string -> bool)
      requires DistinctForwards(forwards) && Faithful(serialize)
      modifies this
      ensures built >= old(built)
      ensures forall f <- forwards ::
        ForwardOutcome(was, starts, f, Find(old(runners), f.id), Find(runners, f.id), old(built))
      ensures forall id :: (forall f <- forwards :: f.id != id) ==>
        Find(runners, id) == if id in was then None else Find(old(runners), id)
    {
      var newIds := set f <- forwards :: f.id;
      var removed := was.Keys - newIds;
      while removed != {}
        invariant removed <= was.Keys - newIds && built == old(built)
        invariant runners == old(runners) - (was.Keys - newIds - removed)
      {
        var id :| id in removed;
        Stop(id);
        removed := removed - {id};
      }
      ghost var kept := runners;
      for i := 0 to |forwards|
        invariant built >= old(built)
        invariant forall j :: 0 <= j < i ==>
          ForwardOutcome(was, starts, forwards[j], Find(kept, forwards[j].id), Find(runners, forwards[j].id), old(built))
        invariant forall id :: (forall j :: 0 <= j < i ==> forwards[j].id != id) ==> Find(runners, id) == Find(kept, id)
      {
        var f := forwards[i];
        ghost var before := runners;
        ApplyForward(f, was, serialize, starts);
        forall j | 0 <= j < i ensures Find(runners, forwards[j].id) == Find(before, forwards[j].id) {
          assert forwards[j].id != f.id;
        }
      }
      forall f | f in forwards
        ensures ForwardOutcome(was, starts, f, Find(old(runners), f.id), Find(runners, f.id), old(built))
      {
        assert f.id in newIds;
        assert Find(kept, f.id) == Find(old(runners), f.id);
      }
    }

    /** The whole step for the forwards. */
    method ApplyForwards(forwards: seq<Forward>, was: map<string, Forward>, serialize: Forward -> string,
                         starts: string -> bool)
      requires DistinctForwards(forwards) && Faithful(serialize) && ForwardsAgree(runners, was)
      requires forall f <- forwards :: starts(f.id)
      modifies this
      ensures forall id :: id in runners <==> exists f :: f in forwards && f.id == id && Startable(f)
      ensures forall f <- forwards :: Startable(f) ==> f.id in runners && runners[f.id].rule == f
      ensures forall f <- forwards :: f.id in runners <==> f.enable && f.id != "" && f.upstreams > 0
      ensures forall f <- forwards :: f.id in was && was[f.id] == f ==> Find(runners, f.id) == Find(old(runners), f.id)
    {
      ghost var before, count := runners, built;
      ReconcileForwards(forwards, was, serialize, starts);
      RunnersAreTheNewConfig(forwards, was, starts, before, runners, count);
    }
  }

  /** Exactly the startable entries of the old configuration run, each with its definition. */
  ghost predicate ForwardsAgree(runners: map<string, Runner>, was: map<string, Forward>) {
    && (forall id <- runners :: id in was && Startable(was[id]) && runners[id].rule == was[id])
    && forall id <- was :: was[id].id == id && (Startable(was[id]) ==> id in runners)
  }

  /** Then exactly the startable entries of the new one run, and an unchanged one was never touched. */
  lemma RunnersAreTheNewConfig(forwards: seq<Forward>, was: map<string, Forward>, starts: string -> bool,
                               before: map<string, Runner>, after: map<string, Runner>, built: int)
    requires ForwardsAgree(before, was)
    requires forall f <- forwards :: ForwardOutcome(was, starts, f, Find(before, f.id), Find(after, f.id), built)
    requires forall id :: (forall f <- forwards :: f.id != id) ==>
               Find(after, id) == if id in was then None else Find(before, id)
    requires forall f <- forwards :: starts(f.id)
    ensures forall id :: id in after <==> exists f :: f in forwards && f.id == id && Startable(f)
    ensures forall f <- forwards :: Startable(f) ==> f.id in after && after[f.id].rule == f
    ensures forall f <- forwards :: f.id in was && was[f.id] == f ==> Find(after, f.id) == Find(before, f.id)
  {
    forall f | f in forwards
      ensures (Startable(f) ==> f.id in after && after[f.id].rule == f) && (!Startable(f) ==> f.id !in after)
    {
      assert ForwardOutcome(was, starts, f, Find(before, f.id), Find(after, f.id), built);
    }
    forall id | id in after ensures exists f :: f in forwards && f.id == id && Startable(f) {
      if forall f <- forwards :: f.id != id { RemovedForwardDoesNotRun(forwards, was, before, after, id); }
    }
  }

  lemma RemovedForwardDoesNotRun(forwards: seq<Forward>, was: map<string, Forward>, before: map<string, Runner>,
                                 after: map<string, Runner>, id: string)
    requires ForwardsAgree(before, was) && forall f <- forwards :: f.id != id
    requires Find(after, id) == if id in was then None else Find(before, id)
    ensures id !in after
  {
  }
}
