/**
  ServerManager.cpp and the port assignment of Server::Init: every shard gets four ports of its own,
  searched upwards from the start of the default server's range.
*/
module ServerManagers {

  datatype Server = Server(id: string, game: int, webUI: int, auth: int, login: int, startRange: int) {
    predicate IsDefault() {
      id == "default"
    }

    function Ports(): set<int> {
      {game, webUI, auth, login}
    }
  }

  // How far Server::Init gets
  datatype InitOutcome = FailsBeforePorts | FailsAfterPorts | Succeeds

  // A null pointer is followed when a shard starts and there is no default server.
  datatype StartResult = Started | Failed | NoDefaultServer

  function PortsInUse(servers: seq<Server>): set<int> {
    if servers == [] then {} else PortsInUse(servers[..|servers| - 1]) + servers[|servers| - 1].Ports()
  }

  lemma {:induction false} InUse(servers: seq<Server>, i: nat)
    requires i < |servers|
    ensures servers[i].Ports() <= PortsInUse(servers)
  {
    if i < |servers| - 1 {
      InUse(servers[..|servers| - 1], i);
    }
  }

  lemma {:induction false} UsedBySome(servers: seq<Server>, port: int)
    requires port in PortsInUse(servers)
    ensures exists i :: 0 <= i < |servers| && port in servers[i].Ports()
  {
    var n := |servers| - 1;
    if port in servers[n].Ports() {
      assert 0 <= n < |servers|;
    } else {
      UsedBySome(servers[..n], port);
      var i :| 0 <= i < n && port in servers[..n][i].Ports();
      assert servers[i] == servers[..n][i];
    }
  }

  // The ports of all servers
  predicate Uses(s: Server, port: int) {
    s.game == port || s.webUI == port || s.auth == port || s.login == port
  }

  ghost predicate SomeUses(servers: seq<Server>, port: int) {
    exists i :: 0 <= i < |servers| && Uses(servers[i], port)
  }

  lemma InUseExactly(servers: seq<Server>, port: int)
    ensures port in PortsInUse(servers) <==> SomeUses(servers, port)
  {
    if port in PortsInUse(servers) {
      UsedBySome(servers, port);
    }
    forall i: nat | i < |servers| && Uses(servers[i], port)
      ensures port in PortsInUse(servers)
    {
      InUse(servers, i);
    }
  }

  lemma {:induction false} FourEach(servers: seq<Server>)
    ensures |PortsInUse(servers)| <= 4 * |servers|
  {
    if servers != [] {
      var n := |servers| - 1;
      FourEach(servers[..n]);
      FourPorts(servers[n]);
      UnionSize(PortsInUse(servers[..n]), servers[n].Ports());
    }
  }

  lemma FourPorts(s: Server)
    ensures |s.Ports()| <= 4
  {
    UnionSize({s.game}, {s.webUI});
    UnionSize({s.game} + {s.webUI}, {s.auth});
    UnionSize({s.game} + {s.webUI} + {s.auth}, {s.login});
    assert s.Ports() == {s.game} + {s.webUI} + {s.auth} + {s.login};
  }

  lemma UnionSize(a: set<int>, b: set<int>)
    ensures |a + b| <= |a| + |b|
  {
    assert |a + b| == |a| + |b| - |a * b|;
  }

  function Range(start: int, n: nat): (r: set<int>)
    ensures |r| == n && forall p :: p in r <==> start <= p < start + n
  {
    if n == 0 then {} else Range(start, n - 1) + {start + n - 1}
  }

  lemma {:induction false} SubsetSize<T>(a: set<T>, b: set<T>)
    requires a <= b
    ensures |a| <= |b|
  {
    if a != {} {
      var x :| x in a;
      SubsetSize(a - {x}, b - {x});
    }
  }

  // Pigeonhole: when every port from start up to port is in use, they are at most four for each server.
  lemma InUseBound(servers: seq<Server>, start: int, port: int)
    requires start <= port && forall p :: start <= p < port ==> p in PortsInUse(servers)
    ensures port <= start + 4 * |servers|
  {
    SubsetSize(Range(start, port - start), PortsInUse(servers));
    FourEach(servers);
  }

  // port is the least one from start on that no server uses.
  ghost predicate LeastFree(servers: seq<Server>, start: int, port: int) {
    && start <= port && port !in PortsInUse(servers)
    && forall p :: start <= p < port ==> p in PortsInUse(servers)
  }

  // The same in the ports of the servers
  lemma LeastFreeIs(servers: seq<Server>, start: int, port: int)
    ensures LeastFree(servers, start, port) <==>
            start <= port && !SomeUses(servers, port) && forall p :: start <= p < port ==> SomeUses(servers, p)
  {
    hide SomeUses, PortsInUse;
    InUseExactly(servers, port);
    forall p | start <= p < port
      ensures p in PortsInUse(servers) <==> SomeUses(servers, p)
    {
      InUseExactly(servers, p);
    }
  }

  // The four ports of a shard differ; those of a shard and any other server do too.

  predicate OwnPorts(s: Server) {
    s.IsDefault() || (s.game != s.webUI && s.game != s.auth && s.game != s.login && s.webUI != s.auth && s.webUI != s.login && s.auth != s.login)
  }

  predicate Apart(s: Server, t: Server) {
    (s.IsDefault() && t.IsDefault()) || s.Ports() !! t.Ports()
  }

  ghost predicate Distinct(servers: seq<Server>) {
    && (forall i :: 0 <= i < |servers| ==> OwnPorts(servers[i]))
    && (forall i, j :: 0 <= i < j < |servers| ==> Apart(servers[i], servers[j]))
  }

  lemma AddServer(servers: seq<Server>, s: Server)
    requires Distinct(servers)
    ensures Distinct(servers + [s]) <==> OwnPorts(s) && forall i :: 0 <= i < |servers| ==> Apart(servers[i], s)
  {
    var t := servers + [s];
    assert t[|servers|] == s;
    forall i | 0 <= i < |servers| && Distinct(t)
      ensures Apart(servers[i], s)
    {
      assert Apart(t[i], t[|servers|]);
    }
  }

  // Those of the servers that do not have the id
  function Without(servers: seq<Server>, id: string): seq<Server> {
    if servers == [] then []
    else Without(servers[..|servers| - 1], id) + if servers[|servers| - 1].id == id then [] else [servers[|servers| - 1]]
  }

  // Init assigns the ports of the last server c one after the other, each search seeing the earlier ones.
  ghost predicate Assigned(others: seq<Server>, start: int, c: Server, s: Server) {
    && s == c.(game := s.game, webUI := s.webUI, auth := s.auth, login := s.login)
    && LeastFree(others + [c], start, s.game)
    && LeastFree(others + [c.(game := s.game)], start, s.webUI)
    && LeastFree(others + [c.(game := s.game, webUI := s.webUI)], start, s.auth)
    && LeastFree(others + [c.(game := s.game, webUI := s.webUI, auth := s.auth)], start, s.login)
  }

  lemma PortsOfMore(others: seq<Server>, c: Server)
    ensures PortsInUse(others + [c]) == PortsInUse(others) + c.Ports()
  {
    assert (others + [c])[..|others|] == others;
  }

  lemma AssignedDistinct(others: seq<Server>, start: int, c: Server, s: Server)
    requires Distinct(others) && Assigned(others, start, c, s)
    ensures Distinct(others + [s])
  {
    PortsOfMore(others, c);
    PortsOfMore(others, c.(game := s.game));
    PortsOfMore(others, c.(game := s.game, webUI := s.webUI));
    PortsOfMore(others, c.(game := s.game, webUI := s.webUI, auth := s.auth));
    forall i | 0 <= i < |others|
      ensures Apart(others[i], s)
    {
      InUse(others, i);
    }
    AddServer(others, s);
  }

  // The default server that a search finds, and where it starts
  function SearchStart(servers: seq<Server>): int
    requires exists i :: 0 <= i < |servers| && servers[i].IsDefault()
  {
    if servers[0].IsDefault() then servers[0].startRange else SearchStart(servers[1..])
  }

  lemma {:induction false} SearchStartIs(servers: seq<Server>, d: nat)
    requires d < |servers| && servers[d].IsDefault() && forall j :: 0 <= j < d ==> !servers[j].IsDefault()
    ensures SearchStart(servers) == servers[d].startRange
  {
    if d > 0 {
      assert servers[1..][d - 1].IsDefault();
      SearchStartIs(servers[1..], d - 1);
    }
  }

  lemma {:induction false} SearchStartOfMore(others: seq<Server>, c: Server)
    requires exists i :: 0 <= i < |others| && others[i].IsDefault()
    ensures (exists i :: 0 <= i < |others + [c]| && (others + [c])[i].IsDefault()) && SearchStart(others + [c]) == SearchStart(others)
  {
    var i :| 0 <= i < |others| && others[i].IsDefault();
    assert (others + [c])[i].IsDefault();
    if !others[0].IsDefault() {
      assert others[1..][i - 1].IsDefault();
      assert (others + [c])[1..] == others[1..] + [c];
      SearchStartOfMore(others[1..], c);
    }
  }

  lemma LeastFrom(servers: seq<Server>, start: int, port: int)
    requires LeastFree(servers, start, port)
    ensures start <= port
  {
  }

  lemma OneOn<T>(w: seq<T>, before: seq<T>, done: nat)
    requires done < |before|
    ensures var s := w + before[done..];
            && s[|w|] == before[done]
            && s[..|w|] + s[|w| + 1..] == w + before[done + 1..]
            && s == w + [before[done]] + before[done + 1..]
  {
  }

  lemma OneWithout(before: seq<Server>, done: nat, id: string)
    requires done < |before|
    ensures Without(before[..done + 1], id) == if before[done].id == id then Without(before[..done], id) else Without(before[..done], id) + [before[done]]
  {
    assert before[..done + 1][..done] == before[..done];
  }

  // StopServer's loop: it has looked at the first done servers, and left i of them.
  ghost predicate StoppedTo(before: seq<Server>, id: string, servers: seq<Server>, i: nat, done: nat) {
    && done <= |before| && i == |Without(before[..done], id)|
    && servers == Without(before[..done], id) + before[done..]
  }

  lemma StopNext(before: seq<Server>, id: string, servers: seq<Server>, i: nat, done: nat)
    requires StoppedTo(before, id, servers, i, done) && i < |servers|
    ensures done < |before|
    ensures if servers[i].id == id then StoppedTo(before, id, servers[..i] + servers[i + 1..], i, done + 1)
            else StoppedTo(before, id, servers, i + 1, done + 1)
  {
    hide Without;
    OneOn(Without(before[..done], id), before, done);
    OneWithout(before, done, id);
  }

  lemma StopEnd(before: seq<Server>, id: string, servers: seq<Server>, i: nat, done: nat)
    requires StoppedTo(before, id, servers, i, done) && i >= |servers|
    ensures servers == Without(before, id)
  {
    hide Without;
    assert before[..done] == before;
  }

  lemma StopIsStep(s: seq<Server>, id: string)
    ensures Step(s, Without(s, id))
  {
    assert Pruned(s, [id]) == Without(Pruned(s, []), id);
  }

  lemma InFront<T>(s: seq<T>, x: T)
    requires s != []
    ensures x in s <==> x in s[..|s| - 1] || x == s[|s| - 1]
  {
    assert s == s[..|s| - 1] + [s[|s| - 1]];
  }

  // What one operation does to the servers after the default server has been started: nothing, the
  // start of a shard, a stop (also of the default server), or a prune, which is a number of stops.
  ghost predicate Step(s: seq<Server>, t: seq<Server>) {
    || t == s
    || (exists i :: 0 <= i < |s| && s[i].IsDefault() && StartOfShard(s, t))
    || (exists ids :: t == Pruned(s, ids))
  }

  ghost predicate StartOfShard(s: seq<Server>, t: seq<Server>)
    requires exists i :: 0 <= i < |s| && s[i].IsDefault()
  {
    |t| == |s| + 1 && t == s + [t[|s|]] && exists c: Server :: !c.IsDefault() && Assigned(s, SearchStart(s), c, t[|s|])
  }

  lemma {:induction false} WithoutDistinct(s: seq<Server>, id: string)
    requires Distinct(s)
    ensures Distinct(Without(s, id))
  {
    if s != [] {
      var n := |s| - 1;
      var front, x := s[..n], s[n];
      assert forall i :: 0 <= i < n ==> Apart(s[i], x);
      WithoutDistinct(front, id);
      if x.id != id {
        var w := Without(front, id);
        forall i | 0 <= i < |w|
          ensures Apart(w[i], x)
        {
          WithoutKeeps(front, id, w[i]);
        }
        AddServer(w, x);
      }
    }
  }

  lemma {:induction false} PrunedDistinct(s: seq<Server>, ids: seq<string>)
    requires Distinct(s)
    ensures Distinct(Pruned(s, ids))
    decreases |ids|
  {
    if ids != [] {
      PrunedDistinct(s, ids[..|ids| - 1]);
      WithoutDistinct(Pruned(s, ids[..|ids| - 1]), ids[|ids| - 1]);
    }
  }

  lemma StepDistinct(s: seq<Server>, t: seq<Server>)
    requires Distinct(s) && Step(s, t)
    ensures Distinct(t)
  {
    if exists ids :: t == Pruned(s, ids) {
      var ids :| t == Pruned(s, ids);
      PrunedDistinct(s, ids);
    } else if t != s {
      var c: Server :| !c.IsDefault() && Assigned(s, SearchStart(s), c, t[|s|]);
      AssignedDistinct(s, SearchStart(s), c, t[|s|]);
    }
  }

  // No port of a shard is another port of it, or a port of another server.
  lemma DistinctPorts(servers: seq<Server>, i: nat, j: nat, port: int)
    requires Distinct(servers) && i < |servers| && j < |servers| && servers[i].id != "default"
    ensures i != j ==> !(Uses(servers[i], port) && Uses(servers[j], port))
    ensures var s := servers[i]; |{s.game, s.webUI, s.auth, s.login}| == 4
  {
    var s := servers[i];
    assert OwnPorts(s);
    assert i < j ==> Apart(servers[i], servers[j]);
    assert j < i ==> Apart(servers[j], servers[i]);
  }

  // Over every run of starts, failed starts, stops and prunes that begins with the default server
  // alone, the ports of each shard differ from each other and from those of every other server.
  lemma {:induction false} RunDistinct(run: seq<seq<Server>>, n: nat)
    requires |run| > 0 && |run[0]| == 1 && run[0][0].IsDefault() && forall i :: 0 <= i < |run| - 1 ==> Step(run[i], run[i + 1])
    requires n < |run|
    ensures Distinct(run[n])
  {
    if n > 0 {
      RunDistinct(run, n - 1);
      StepDistinct(run[n - 1], run[n]);
    }
  }

  class ServerManager {
    var servers: seq<Server>

    constructor ()
      ensures servers == []
    {
      servers := [];
    }

    // The first server with the default id
    method GetDefaultServer() returns (i: nat)
      ensures i <= |servers| && (i < |servers| ==> servers[i].IsDefault()) && forall j :: 0 <= j < i ==> !servers[j].IsDefault()
    {
      i := 0;
      while i < |servers| && !servers[i].IsDefault()
        invariant i <= |servers| && forall j :: 0 <= j < i ==> !servers[j].IsDefault()
      {
        i := i + 1;
      }
    }

    // The search ends, at most four ports for each server from where it starts.
    method GetFreeGamePort() returns (port: int)
      requires exists i :: 0 <= i < |servers| && servers[i].IsDefault()
      ensures LeastFree(servers, SearchStart(servers), port) && port <= SearchStart(servers) + 4 * |servers|
      ensures !SomeUses(servers, port) && forall p :: SearchStart(servers) <= p < port ==> SomeUses(servers, p)
    {
      var d := GetDefaultServer();
      SearchStartIs(servers, d);
      ghost var start := servers[d].startRange;
      port := servers[d].startRange;
      while true
        invariant start <= port <= start + 4 * |servers| && forall p :: start <= p < port ==> p in PortsInUse(servers)
        decreases start + 4 * |servers| - port
      {
        var inUse := IsInUse(port);
        if !inUse {
          break;
        }
        InUseBound(servers, start, port + 1);
        port := port + 1;
      }
      LeastFreeIs(servers, start, port);
    }

    method IsInUse(port: int) returns (inUse: bool)
      ensures inUse == (port in PortsInUse(servers))
    {
      inUse := false;
      for i := 0 to |servers|
        invariant !inUse && forall j :: 0 <= j < i ==> port !in servers[j].Ports()
      {
        var s := servers[i];
        if s.game == port || s.auth == port || s.login == port || s.webUI == port {
          InUse(servers, i);
          return true;
        }
      }
      if port in PortsInUse(servers) {
        UsedBySome(servers, port);
      }
    }
  
    // A search by the last server, others being those before it
    method PortFor(ghost others: seq<Server>, c: Server) returns (port: int)
      requires servers == others + [c] && exists i :: 0 <= i < |others| && others[i].IsDefault()
      ensures LeastFree(others + [c], SearchStart(others), port) && port <= SearchStart(others) + 4 * |servers|
    {
      SearchStartOfMore(others, c);
      port := GetFreeGamePort();
    }

    // The port assignment of Server::Init, for the last server
    method AssignPorts(ghost others: seq<Server>, c: Server) returns (s: Server)
      requires servers == others + [c] && exists i :: 0 <= i < |others| && others[i].IsDefault()
      modifies this
      ensures servers == others + [s] && Assigned(others, SearchStart(others), c, s)
      ensures forall p :: p in s.Ports() ==> SearchStart(others) <= p <= SearchStart(others) + 4 * |servers|
    {
      hide LeastFree, SearchStart;
      var n := |servers| - 1;
      var game := PortFor(others, c);
      servers := servers[n := c.(game := game)];
      var webUI := PortFor(others, c.(game := game));
      servers := servers[n := c.(game := game, webUI := webUI)];
      var auth := PortFor(others, c.(game := game, webUI := webUI));
      servers := servers[n := c.(game := game, webUI := webUI, auth := auth)];
      var login := PortFor(others, c.(game := game, webUI := webUI, auth := auth));
      s := c.(game := game, webUI := webUI, auth := auth, login := login);
      servers := servers[n := s];
      LeastFrom(others + [c], SearchStart(others), game);
      LeastFrom(others + [c.(game := game)], SearchStart(others), webUI);
      LeastFrom(others + [c.(game := game, webUI := webUI)], SearchStart(others), auth);
      LeastFrom(others + [c.(game := game, webUI := webUI, auth := auth)], SearchStart(others), login);
    }

    // config: what Init loads or makes for the server.  A shard that starts is apart from every other
    // server; the default server takes the ports of its configuration, and is exactly when those are.
    method StartServer(config: Server, outcome: InitOutcome) returns (result: StartResult)
      modifies this
      ensures result == Failed ==> servers == old(servers) && outcome != Succeeds
      ensures result == NoDefaultServer <==>
              outcome != FailsBeforePorts && !config.IsDefault() && !exists i :: 0 <= i < old(|servers|) && old(servers[i]).IsDefault()
      ensures result == Started <==> outcome == Succeeds && result != NoDefaultServer
      ensures result == Started ==> servers != [] && servers == old(servers) + [servers[|servers| - 1]] && servers[|servers| - 1].id == config.id
      ensures result == Started && config.IsDefault() ==> servers == old(servers) + [config]
      ensures result == Started && !config.IsDefault() ==> servers != [] && Assigned(old(servers), SearchStart(old(servers)), config, servers[|servers| - 1])
      ensures !config.IsDefault() && result != NoDefaultServer ==> Step(old(servers), servers)
      ensures result == Started && old(Distinct(servers)) ==>
                (Distinct(servers) <==> !config.IsDefault() || forall i :: 0 <= i < old(|servers|) ==> Apart(old(servers[i]), config))
    {
      ghost var others := servers;
      servers := servers + [config];
      if outcome == FailsBeforePorts {
        servers := servers[..|servers| - 1];
        return Failed;
      }
      if !config.IsDefault() {
        var d := GetDefaultServer();
        if d == |servers| {
          assert forall i :: 0 <= i < |others| ==> servers[i] == others[i];
          return NoDefaultServer;
        }
        assert servers[d] == others[d];
        var s := AssignPorts(others, config);
        if Distinct(others) {
          AssignedDistinct(others, SearchStart(others), config, s);
        }
      } else if Distinct(others) {
        AddServer(others, config);
      }
      if outcome == FailsAfterPorts {
        servers := servers[..|servers| - 1];
        return Failed;
      }
      return Started;
    }

    // Stops every server with the id.  Success starts as true and only gets or-ed, so this never reports
    // the failure of a server's Term.
    method StopServer(id: string, terms: Server -> bool) returns (success: bool)
      modifies this
      ensures success && servers == Without(old(servers), id) && Step(old(servers), servers)
      ensures old(Distinct(servers)) ==> Distinct(servers)
    {
      success := true;
      ghost var before, done := servers, 0;
      assert StoppedTo(before, id, servers, 0, 0);
      var i := 0;
      hide *;
      while i < |servers|
        invariant success && StoppedTo(before, id, servers, i, done)
        decreases |before| - done
      {
        StopNext(before, id, servers, i, done);
        if servers[i].id == id {
          var ok := terms(servers[i]);
          success := success || ok;
          servers := servers[..i] + servers[i + 1..];
        } else {
          i := i + 1;
        }
        done := done + 1;
      }
      StopEnd(before, id, servers, i, done);
      StopIsStep(before, id);
      if Distinct(before) {
        WithoutDistinct(before, id);
      }
    }

    // idle(s): no activity for longer than the timeout
    method PruneOldServers(idle: Server -> bool, terms: Server -> bool)
      modifies this
      ensures servers == Pruned(old(servers), IdsToPrune(old(servers), idle)) && Step(old(servers), servers)
      ensures old(Distinct(servers)) ==> Distinct(servers)
    {
      var ids: seq<string> := [];
      ghost var before := servers;
      for i := 0 to |servers|
        invariant ids == IdsToPrune(before[..i], idle) && servers == before
      {
        assert before[..i + 1][..i] == before[..i];
        if !servers[i].IsDefault() && idle(servers[i]) {
          ids := ids + [servers[i].id];
        }
      }
      assert before[..|before|] == before;
      for i := 0 to |ids|
        invariant servers == Pruned(before, ids[..i])
        invariant Distinct(before) ==> Distinct(servers)
      {
        assert ids[..i + 1][..i] == ids[..i];
        var ok := StopServer(ids[i], terms);
      }
      assert ids[..|ids|] == ids;
    }
  }

  function IdsToPrune(servers: seq<Server>, idle: Server -> bool): seq<string> {
    if servers == [] then []
    else
      var s := servers[|servers| - 1];
      IdsToPrune(servers[..|servers| - 1], idle) + if !s.IsDefault() && idle(s) then [s.id] else []
  }

  function Pruned(servers: seq<Server>, ids: seq<string>): seq<Server>
    decreases |ids|
  {
    if ids == [] then servers else Without(Pruned(servers, ids[..|ids| - 1]), ids[|ids| - 1])
  }

  // Exactly the servers with the id go.
  lemma {:induction false} WithoutKeeps(servers: seq<Server>, id: string, s: Server)
    ensures s in Without(servers, id) <==> s in servers && s.id != id
  {
    if servers != [] {
      WithoutKeeps(servers[..|servers| - 1], id, s);
      InFront(servers, s);
    }
  }

  // A prune takes the idle shards, and every server that shares an id with one.
  lemma {:induction false} PrunedKeeps(servers: seq<Server>, ids: seq<string>, s: Server)
    ensures s in Pruned(servers, ids) <==> s in servers && s.id !in ids
    decreases |ids|
  {
    if ids != [] {
      PrunedKeeps(servers, ids[..|ids| - 1], s);
      WithoutKeeps(Pruned(servers, ids[..|ids| - 1]), ids[|ids| - 1], s);
      InFront(ids, s.id);
    }
  }

  // The ids of the idle shards
  lemma {:induction false} PruneIdsAre(servers: seq<Server>, idle: Server -> bool, id: string)
    ensures id in IdsToPrune(servers, idle) <==> exists i :: 0 <= i < |servers| && servers[i].id == id != "default" && idle(servers[i])
  {
    hide Server.IsDefault;
    if servers != [] {
      var n := |servers| - 1;
      var front, s := servers[..n], servers[n];
      PruneIdsAre(front, idle, id);
      IsDefaultId(s);
      assert forall i :: 0 <= i < n ==> front[i] == servers[i];
    }
  }

  lemma IsDefaultId(s: Server)
    ensures s.IsDefault() <==> s.id == "default"
  {
  }
}
