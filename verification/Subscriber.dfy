/** The event subscriber: keys are registered for groups of nodes, each node has at most one connection, and a
    connection that dies takes its subscriptions with it. */
module Subscriber {
  import opened Bytes

  type key = seq<byte>

  /** A connection and the keys subscribed on it: what the node at its far end will deliver. */
  datatype Connection = Connection(fd: nat, subs: set<key>)

  /** What the subscriber remembers of a node: the keys it believes subscribed there, and for each group
      whether the group's registrations are complete there. */
  datatype Monitor = Monitor(keys: set<key>, done: map<string, bool>)

  datatype StateEvent = StateEvent(node: string, group: string, up: bool)

  /** The keys registered for each group, and the nodes that make up a group.  The latter do not change. */
  datatype Registry = Registry(keys: map<string, seq<key>>, members: string -> seq<string>)
  {
    /** `node` is to deliver the keys of `group`. */
    predicate Serves(node: string, group: string) {
      group in keys && node in members(group)
    }

    ghost predicate InScope(node: string) {
      exists g :: Serves(node, g)
    }

    ghost predicate Wants(node: string, k: key) {
      exists g :: Serves(node, g) && k in keys[g]
    }

    function Add(group: string, k: key): Registry {
      this.(keys := keys[group := (if group in keys then keys[group] else []) + [k]])
    }
  }

  /** What holds of a node at all times: it is remembered as it is, nothing is subscribed there that nobody
      asked for, and a group is complete only if each of its keys is subscribed. */
  ghost predicate Sound(r: Registry, node: string, c: Option<Connection>, m: Monitor) {
    && m.keys == (if c.Some? then c.value.subs else {})
    && (forall k <- m.keys :: r.Wants(node, k))
    && (forall g <- m.done | m.done[g] :: c.Some? && r.Serves(node, g) && forall k <- r.keys[g] :: k in m.keys)
  }

  /** A new registration, once the group is no longer complete at its nodes. */
  lemma SoundAfterAdd(r: Registry, group: string, k: key, node: string, c: Option<Connection>, m: Monitor)
    requires Sound(r, node, c, m)
    ensures node in r.members(group) ==> Sound(r.Add(group, k), node, c, m.(done := m.done[group := false]))
    ensures node !in r.members(group) ==> Sound(r.Add(group, k), node, c, m)
  {
    var r' := r.Add(group, k);
    forall x <- m.keys ensures r'.Wants(node, x) {
      var g :| r.Serves(node, g) && x in r.keys[g];
      assert r'.Serves(node, g) && x in r'.keys[g];
    }
  }

  lemma SoundAfterSubscribe(r: Registry, node: string, c: Connection, m: Monitor, g: string, k: key)
    requires Sound(r, node, Some(c), m) && r.Serves(node, g) && k in r.keys[g]
    ensures Sound(r, node, Some(c.(subs := c.subs + {k})), m.(keys := m.keys + {k}))
  {
    assert r.Wants(node, k);
  }

  // ---- what the application is told ----

  /** Whether the last event about `node` said that it is connected. */
  function LastUp(events: seq<StateEvent>, node: string): bool {
    if events == [] then false
    else
      var e := events[|events| - 1];
      if e.node == node then e.up else LastUp(events[..|events| - 1], node)
  }

  ghost predicate Told(events: seq<StateEvent>, connections: map<string, Connection>) {
    forall n :: LastUp(events, n) <==> n in connections
  }

  lemma ToldNext(events: seq<StateEvent>, e: StateEvent, c: map<string, Connection>, c': map<string, Connection>)
    requires Told(events, c)
    requires forall n :: n in c' <==> if n == e.node then e.up else n in c
    ensures Told(events + [e], c')
  {
    forall n ensures LastUp(events + [e], n) <==> n in c' {
      assert (events + [e])[..|events|] == events;
      assert LastUp(events, n) <==> n in c;
    }
  }

  // ---- the network ----

  /** Connecting, checking a connection and subscribing may each fail at any time.  The nodes at which
      something failed are noted for the specification. */
  class Network {
    ghost var failed: set<string>

    method Connect(node: string) returns (fd: Option<nat>)
      modifies this
      ensures failed == old(failed) + if fd.None? then {node} else {}
    {
      fd := *;
      failed := failed + if fd.None? then {node} else {};
    }

    method Perform(node: string) returns (ok: bool)
      modifies this
      ensures failed == old(failed) + if ok then {} else {node}
    {
      ok := *;
      failed := failed + if ok then {} else {node};
    }
  }

  // ---- the subscriber ----

  ghost predicate AllSound(r: Registry, connections: map<string, Connection>, monitors: map<string, Monitor>) {
    && (forall n <- connections :: n in monitors)
    && (forall n <- monitors :: Sound(r, n, At(connections, n), monitors[n]))
  }

  function At(connections: map<string, Connection>, node: string): Option<Connection> {
    if node in connections then Some(connections[node]) else None
  }

  /** Exactly the descriptors of the connections are waited on, and the highest one is known. */
  ghost predicate Watching(connections: map<string, Connection>, watched: set<nat>, maxFd: int) {
    && watched == (set n | n in connections :: connections[n].fd)
    && (connections.Keys != {} ==> maxFd in watched && forall fd <- watched :: fd <= maxFd)
  }

  /** A node is dropped, or its connection and what is remembered of it change together. */
  lemma SoundWithout(r: Registry, c: map<string, Connection>, m: map<string, Monitor>, node: string)
    requires AllSound(r, c, m)
    ensures AllSound(r, c - {node}, m - {node})
  {
    hide Sound;
    forall n <- m - {node} ensures At(c - {node}, n) == At(c, n) {
    }
  }

  lemma SoundWith(r: Registry, c: map<string, Connection>, m: map<string, Monitor>, node: string,
                  con: Connection, mon: Monitor)
    requires AllSound(r, c, m) && Sound(r, node, Some(con), mon)
    ensures AllSound(r, c[node := con], m[node := mon])
  {
    hide Sound;
    forall n <- m[node := mon] ensures n != node ==> At(c[node := con], n) == At(c, n) {
    }
  }

  /** Part of the way through a registration: the nodes `seen` are as the new registry wants them, and the others
      are as they were. */
  ghost predicate Flagging(r: Registry, group: string, k: key, connections: map<string, Connection>,
                           was: map<string, Monitor>, now: map<string, Monitor>, seen: seq<string>)
  {
    && (forall n <- was :: n in now)
    && (forall n <- now | n in seen :: Sound(r.Add(group, k), n, At(connections, n), now[n]))
    && (forall n <- now | n !in seen :: n in was && now[n] == was[n])
  }

  lemma FlagOne(r: Registry, group: string, k: key, connections: map<string, Connection>,
                was: map<string, Monitor>, now: map<string, Monitor>, seen: seq<string>, node: string, m: Monitor)
    requires AllSound(r, connections, was) && Flagging(r, group, k, connections, was, now, seen)
    requires node in r.members(group)
    requires m == if node in now then now[node] else Monitor({}, map[])
    ensures Flagging(r, group, k, connections, was, now[node := m.(done := m.done[group := false])], seen + [node])
  {
    if node !in seen {
      SoundAfterAdd(r, group, k, node, At(connections, node), m);
    }
  }

  // ---- one maintenance pass ----

  /** Part of the way through a pass that began with the connections `was`.  A node that was visited is either
      connected, and then not about to be dropped, or something failed at it; a node that is connected is in
      scope or about to be dropped; and a node in scope at which nothing failed still has its connection. */
  ghost predicate Progress(r: Registry, was: map<string, Connection>, now: map<string, Connection>,
                           stale: set<string>, failed: set<string>, visited: set<string>)
  {
    && (forall n <- visited :: if n in now then n !in stale else n in failed)
    && (forall n <- now :: n in stale || r.InScope(n))
    && (forall n <- was | n !in failed && r.InScope(n) :: Same(was, now, n))
  }

  ghost predicate Same(was: map<string, Connection>, now: map<string, Connection>, n: string)
    requires n in was
  {
    n in now && now[n].fd == was[n].fd && was[n].subs <= now[n].subs
  }

  lemma Visit(r: Registry, was: map<string, Connection>, c: map<string, Connection>, c': map<string, Connection>,
              stale: set<string>, failed: set<string>, failed': set<string>, visited: set<string>, node: string)
    requires Progress(r, was, c, stale, failed, visited) && failed <= failed' && r.InScope(node)
    requires c' - {node} == c - {node}
    requires node !in c' ==> node in failed'
    requires node in c' && node !in failed' && node in c ==> Same(c, c', node)
    ensures Progress(r, was, c', if node in c' then stale - {node} else stale, failed', visited + {node})
  {
    forall n ensures n != node ==> (n in c' <==> n in c) && (n in c' ==> c'[n] == c[n]) {
      assert n != node ==> (n in c' - {node} <==> n in c - {node});
      assert n != node && n in c ==> (c' - {node})[n] == (c - {node})[n];
    }
  }

  lemma StartPass(r: Registry, c: map<string, Connection>)
    ensures Progress(r, c, c, c.Keys, {}, {})
  {
  }

  lemma DropStale(r: Registry, was: map<string, Connection>, c: map<string, Connection>, stale: set<string>,
                  failed: set<string>, visited: set<string>, node: string)
    requires Progress(r, was, c, stale, failed, visited) && node in stale
    requires r.InScope(node) ==> node in visited
    ensures Progress(r, was, c - {node}, stale - {node}, failed, visited)
  {
  }

  /** All nodes of the groups other than `rest` are visited. */
  ghost predicate VisitedBut(r: Registry, rest: set<string>, visited: set<string>) {
    forall g <- r.keys | g !in rest :: forall n <- r.members(g) :: n in visited
  }

  /** The group is complete at each of these nodes that has a connection. */
  ghost predicate DoneAt(c: map<string, Connection>, m: map<string, Monitor>, group: string, nodes: seq<string>) {
    forall n <- nodes | n in c :: Done(m, n, group)
  }

  predicate Done(m: map<string, Monitor>, node: string, group: string) {
    node in m && group in m[node].done && m[node].done[group]
  }

  /** No connection is new, and no group became incomplete where there still is a connection. */
  ghost predicate Grows(c: map<string, Connection>, m: map<string, Monitor>,
                        c': map<string, Connection>, m': map<string, Monitor>)
  {
    && (forall n <- c' :: n in c)
    && (forall n, g :: n in c' && Done(m, n, g) ==> Done(m', n, g))
  }

  lemma GrowsOne(c: map<string, Connection>, m: map<string, Monitor>,
                 c': map<string, Connection>, m': map<string, Monitor>, node: string)
    requires c' - {node} == c - {node} && m' - {node} == m - {node}
    requires node in c' ==> node in c
    requires forall g :: node in c' && Done(m, node, g) ==> Done(m', node, g)
    ensures Grows(c, m, c', m')
  {
    forall n <- c' ensures n in c {
      if n != node { assert n in c' - {node}; }
    }
    forall n, g | n in c' && Done(m, n, g) ensures Done(m', n, g) {
      if n != node { assert n in m - {node} && (m - {node})[n] == (m' - {node})[n]; }
    }
  }

  /** What a pass is for: each connection delivers exactly the keys that are wanted of its node. */
  ghost predicate Exactly(r: Registry, c: map<string, Connection>) {
    forall n <- c :: forall k :: k in c[n].subs <==> r.Wants(n, k)
  }

  lemma AllDoneExactly(r: Registry, c: map<string, Connection>, m: map<string, Monitor>)
    requires AllSound(r, c, m)
    requires forall g <- r.keys :: DoneAt(c, m, g, r.members(g))
    ensures Exactly(r, c)
  {
    forall n <- c, k ensures k in c[n].subs <==> r.Wants(n, k) {
      assert At(c, n) == Some(c[n]) && Sound(r, n, At(c, n), m[n]);
      if r.Wants(n, k) {
        var g :| r.Serves(n, g) && k in r.keys[g];
        assert Done(m, n, g);
      }
    }
  }

  lemma WatchingFds(c: map<string, Connection>, c': map<string, Connection>, watched: set<nat>, maxFd: int)
    requires Watching(c, watched, maxFd)
    requires c.Keys == c'.Keys && forall n <- c :: c[n].fd == c'[n].fd
    ensures Watching(c', watched, maxFd)
  {
    assert (set n | n in c :: c[n].fd) == (set n | n in c' :: c'[n].fd);
  }

  lemma NoneFlagged(r: Registry, group: string, k: key, connections: map<string, Connection>, was: map<string, Monitor>)
    ensures Flagging(r, group, k, connections, was, was, [])
  {
  }

  lemma AllFlagged(r: Registry, group: string, k: key, connections: map<string, Connection>,
                   was: map<string, Monitor>, now: map<string, Monitor>, nodes: seq<string>)
    requires AllSound(r, connections, was) && Flagging(r, group, k, connections, was, now, nodes)
    requires nodes == r.members(group)
    ensures AllSound(r.Add(group, k), connections, now)
  {
    hide Sound;
    forall n <- now ensures Sound(r.Add(group, k), n, At(connections, n), now[n]) {
      if n !in nodes {
        SoundAfterAdd(r, group, k, n, At(connections, n), now[n]);
      }
    }
  }

  class Handle {
    var registry: Registry
    var connections: map<string, Connection>
    var monitors: map<string, Monitor>
    var events: seq<StateEvent>
    var watched: set<nat>
    var maxFd: int

    ghost predicate Valid()
      reads this
    {
      AllSound(registry, connections, monitors) && Told(events, connections)
    }

    ghost predicate Watches()
      reads this
    {
      Watching(connections, watched, maxFd)
    }

    constructor (members: string -> seq<string>)
      ensures Valid() && Watches()
      ensures registry == Registry(map[], members) && connections == map[]
    {
      registry := Registry(map[], members);
      connections, monitors, events := map[], map[], [];
      watched, maxFd := {}, 0;
    }

    /** Node `node` alone may have changed. */
    twostate predicate OnlyNode(node: string)
      reads this
    {
      && registry == old(registry)
      && connections - {node} == old(connections) - {node}
      && monitors - {node} == old(monitors) - {node}
    }

    method UpdateConnectionSet()
      modifies this`watched, this`maxFd
      ensures Watches()
    {
      maxFd, watched := -1, {};
      var rest := connections.Keys;
      while rest != {}
        invariant rest <= connections.Keys
        invariant watched == set n | n in connections && n !in rest :: connections[n].fd
        invariant if rest == connections.Keys then maxFd == -1 else maxFd in watched
        invariant forall fd <- watched :: fd <= maxFd
      {
        var n :| n in rest;
        rest := rest - {n};
        watched := watched + {connections[n].fd};
        if maxFd < connections[n].fd {
          maxFd := connections[n].fd;
        }
      }
    }

    method DisconnectNode(node: string)
      requires Valid()
      modifies this
      ensures Valid() && Watches() && OnlyNode(node)
      ensures node !in connections && node !in monitors
    {
      hide AllSound, Watching, Told;
      ghost var was, told := connections, events;
      events := events + [StateEvent(node, "N/A", false)];
      SoundWithout(registry, connections, monitors, node);
      connections := connections - {node};
      monitors := monitors - {node};
      ToldNext(told, events[|events| - 1], was, connections);
      UpdateConnectionSet();
    }

    /** A new registration is refused only if it has no key.  Until the next pass the group counts as incomplete
        at each of its nodes. */
    method RegisterOne(group: string, k: key) returns (ok: bool)
      requires Valid()
      modifies this`registry, this`monitors
      ensures Valid()
      ensures ok <==> k != []
      ensures registry == if ok then old(registry).Add(group, k) else old(registry)
    {
      if k == [] {
        return false;
      }
      hide Flagging, AllSound;
      ghost var r, mon := registry, monitors;
      registry := registry.Add(group, k);
      var nodes := registry.members(group);
      var i := 0;
      NoneFlagged(r, group, k, connections, mon);
      while i < |nodes|
        invariant i <= |nodes| && registry == r.Add(group, k)
        invariant Flagging(r, group, k, connections, mon, monitors, nodes[..i])
      {
        var m := if nodes[i] in monitors then monitors[nodes[i]] else Monitor({}, map[]);
        FlagOne(r, group, k, connections, mon, monitors, nodes[..i], nodes[i], m);
        monitors := monitors[nodes[i] := m.(done := m.done[group := false])];
        assert nodes[..i + 1] == nodes[..i] + [nodes[i]];
        i := i + 1;
      }
      assert nodes[..i] == nodes;
      AllFlagged(r, group, k, connections, mon, monitors, nodes);
      return true;
    }

    /** A new connection, with nothing subscribed on it yet. */
    method Open(net: Network, group: string, node: string) returns (ok: bool)
      requires Valid() && node !in connections
      modifies this, net
      ensures Valid() && OnlyNode(node)
      ensures ok <==> node in connections
      ensures net.failed == old(net.failed) + if ok then {} else {node}
      ensures !ok ==> watched == old(watched) && maxFd == old(maxFd) && connections == old(connections)
    {
      hide AllSound, Told;
      var fd := net.Connect(node);
      if fd.None? { return false; }
      ghost var was, told := connections, events;
      SoundWith(registry, connections, monitors, node, Connection(fd.value, {}), Monitor({}, map[]));
      monitors := monitors[node := Monitor({}, map[])];
      connections := connections[node := Connection(fd.value, {})];
      events := events + [StateEvent(node, group, true)];
      ToldNext(told, events[|events| - 1], was, connections);
      return true;
    }

    /** A group that was never seen at the node is incomplete there. */
    method Note(group: string, node: string)
      requires Valid() && node in connections
      modifies this`monitors
      ensures Valid() && OnlyNode(node)
    {
      hide AllSound, Told;
      var m := MonitorOf(node);
      if group !in m.done {
        SoundWith(registry, connections, monitors, node, connections[node], m.(done := m.done[group := false]));
        monitors := monitors[node := m.(done := m.done[group := false])];
        assert connections[node := connections[node]] == connections;
      }
    }

    /** The visit of one node of a group: it gets a connection if it has none, and the connection may be checked. */
    method CheckNode(net: Network, group: string, node: string) returns (changed: bool, alive: bool)
      requires Valid() && registry.Serves(node, group)
      modifies this, net
      ensures Valid() && OnlyNode(node)
      ensures changed || (old(Watches()) ==> Watches())
      ensures alive <==> node in connections
      ensures alive || node in net.failed
      ensures old(net.failed) <= net.failed
      ensures alive && node in old(connections) ==> connections[node] == old(connections)[node]
    {
      hide AllSound, Watching, Told;
      changed := node !in connections;
      if changed {
        var ok := Open(net, group, node);
        if !ok { return false, false; }
      }
      var recent: bool := *;
      if recent {
        var ok := net.Perform(node);
        if !ok {
          DisconnectNode(node);
          return changed, false;
        }
      }
      Note(group, node);
      return changed, true;
    }

    function MonitorOf(node: string): (m: Monitor)
      requires Valid() && node in connections
      reads this
      ensures node in monitors && m == monitors[node]
      ensures Sound(registry, node, Some(connections[node]), m)
    {
      assert At(connections, node) == Some(connections[node]);
      monitors[node]
    }

    method CheckGroup(net: Network, group: string, stale: set<string>,
                      ghost was: map<string, Connection>, ghost visited: set<string>)
      returns (changed: bool, left: set<string>, ghost seen: set<string>)
      requires Valid() && group in registry.keys
      requires Progress(registry, was, connections, stale, net.failed, visited)
      modifies this, net
      ensures Valid() && registry == old(registry) && left <= stale
      ensures changed || (old(Watches()) ==> Watches())
      ensures visited <= seen && forall n <- registry.members(group) :: n in seen
      ensures Progress(registry, was, connections, left, net.failed, seen)
    {
      hide AllSound, Watching, Told, Progress;
      changed, left, seen := false, stale, visited;
      var nodes := registry.members(group);
      var i := 0;
      while i < |nodes|
        invariant i <= |nodes| && Valid() && registry == old(registry) && left <= stale
        invariant changed || (old(Watches()) ==> Watches())
        invariant visited <= seen && forall n <- nodes[..i] :: n in seen
        invariant Progress(registry, was, connections, left, net.failed, seen)
      {
        var node := nodes[i];
        ghost var c, failed := connections, net.failed;
        assert registry.Serves(node, group);
        var new_conn, alive := CheckNode(net, group, node);
        Visit(registry, was, c, connections, left, failed, net.failed, seen, node);
        changed := changed || new_conn;
        if alive {
          left := left - {node};
        }
        seen := seen + {node};
        i := i + 1;
      }
    }

    /** Every node in scope gets a connection; a connection whose node is in no group is dropped. */
    method CheckConnections(net: Network) returns (changed: bool, ghost visited: set<string>)
      requires Valid() && Watches() && net.failed == {}
      modifies this, net
      ensures Valid() && Watches() && registry == old(registry)
      ensures VisitedBut(registry, {}, visited)
      ensures Progress(registry, old(connections), connections, {}, net.failed, visited)
    {
      hide AllSound, Watching, Told, Progress;
      changed, visited := false, {};
      ghost var was := connections;
      var nodes := connections.Keys;
      StartPass(registry, connections);
      var rest := registry.keys.Keys;
      while rest != {}
        invariant Valid() && registry == old(registry) && rest <= registry.keys.Keys
        invariant changed || Watches()
        invariant VisitedBut(registry, rest, visited)
        invariant Progress(registry, was, connections, nodes, net.failed, visited)
      {
        var g :| g in rest;
        var new_conn;
        new_conn, nodes, visited := CheckGroup(net, g, nodes, was, visited);
        changed := changed || new_conn;
        rest := rest - {g};
      }
      changed := changed || nodes != {};
      while nodes != {}
        invariant Valid() && registry == old(registry)
        invariant changed || Watches()
        invariant VisitedBut(registry, {}, visited)
        invariant Progress(registry, was, connections, nodes, net.failed, visited)
      {
        var n :| n in nodes;
        ghost var c := connections;
        DropStale(registry, was, c, nodes, net.failed, visited, n);
        DisconnectNode(n);
        assert connections == connections - {n} == c - {n};
        nodes := nodes - {n};
      }
      if changed {
        UpdateConnectionSet();
      }
    }

    /** One key is subscribed at a node that lacks it; a failure costs the node its connection. */
    method SubscribeKey(net: Network, group: string, node: string, k: key) returns (ok: bool)
      requires Valid() && Watches() && node in connections
      requires registry.Serves(node, group) && k in registry.keys[group]
      modifies this, net
      ensures Valid() && Watches() && OnlyNode(node)
      ensures old(net.failed) <= net.failed
      ensures ok <==> node in connections
      ensures ok || node in net.failed
      ensures ok ==>
                && node in old(monitors) && node in monitors
                && monitors[node] == old(monitors)[node].(keys := monitors[node].keys)
                && monitors[node].keys == old(monitors)[node].keys + {k}
                && Same(old(connections), connections, node)
    {
      hide AllSound, Watching, Told;
      var m, c := MonitorOf(node), connections[node];
      assert m.keys == c.subs;
      if k in m.keys { return true; }
      ok := net.Perform(node);
      if !ok {
        DisconnectNode(node);
        return;
      }
      SoundAfterSubscribe(registry, node, c, m, group, k);
      ghost var was := connections;
      connections := connections[node := c.(subs := c.subs + {k})];
      SoundWith(registry, was, monitors, node, connections[node], m.(keys := m.keys + {k}));
      monitors := monitors[node := m.(keys := m.keys + {k})];
      WatchingFds(was, connections, watched, maxFd);
      SameKeysTold(events, was, connections);
    }

    /** The group is now complete at the node. */
    method MarkDone(group: string, node: string)
      requires Valid() && node in connections && registry.Serves(node, group)
      requires node in monitors && forall k <- registry.keys[group] :: k in monitors[node].keys
      modifies this`monitors
      ensures Valid() && OnlyNode(node)
      ensures node in monitors && monitors[node] == old(monitors)[node].(done := old(monitors)[node].done[group := true])
    {
      hide AllSound, Told;
      var m := MonitorOf(node);
      SoundWith(registry, connections, monitors, node, connections[node], m.(done := m.done[group := true]));
      monitors := monitors[node := m.(done := m.done[group := true])];
      assert connections[node := connections[node]] == connections;
    }

    /** All keys of a group are subscribed at one of its nodes. */
    method ResyncNode(net: Network, group: string, node: string)
      requires Valid() && Watches() && registry.Serves(node, group)
      modifies this, net
      ensures Valid() && Watches() && OnlyNode(node)
      ensures old(net.failed) <= net.failed
      ensures node in connections ==> node in old(connections) && Same(old(connections), connections, node)
      ensures node in old(connections) && node !in connections ==> node in net.failed
      ensures node !in old(connections) ==> connections == old(connections)
      ensures DoneAt(connections, monitors, group, [node])
      ensures Grows(old(connections), old(monitors), connections, monitors)
    {
      hide AllSound, Watching, Told, Grows;
      GrowsOne(connections, monitors, connections, monitors, node);
      if node !in connections { return; }
      ghost var c, m := connections, monitors;
      if group in MonitorOf(node).done && MonitorOf(node).done[group] { return; }
      var keys := registry.keys[group];
      var i := 0;
      while i < |keys|
        invariant i <= |keys| && Valid() && Watches() && OnlyNode(node)
        invariant old(net.failed) <= net.failed
        invariant node in connections && Same(c, connections, node)
        invariant node in m && node in monitors && monitors[node].done == m[node].done
        invariant forall k <- keys[..i] :: k in monitors[node].keys
      {
        var ok := SubscribeKey(net, group, node, keys[i]);
        if !ok {
          GrowsOne(c, m, connections, monitors, node);
          return;
        }
        i := i + 1;
      }
      assert keys[..i] == keys;
      MarkDone(group, node);
      GrowsOne(c, m, connections, monitors, node);
    }

    method ResyncGroup(net: Network, group: string, ghost was: map<string, Connection>, ghost visited: set<string>)
      requires Valid() && Watches() && group in registry.keys
      requires VisitedBut(registry, {}, visited)
      requires Progress(registry, was, connections, {}, net.failed, visited)
      modifies this, net
      ensures Valid() && Watches() && registry == old(registry)
      ensures DoneAt(connections, monitors, group, registry.members(group))
      ensures Grows(old(connections), old(monitors), connections, monitors)
      ensures Progress(registry, was, connections, {}, net.failed, visited)
    {
      hide AllSound, Watching, Told, Grows, Progress, DoneAt;
      var nodes := registry.members(group);
      var i := 0;
      GrowsTrans(connections, monitors, connections, monitors, connections, monitors);
      NoneDone(connections, monitors, group);
      while i < |nodes|
        invariant i <= |nodes| && Valid() && Watches() && registry == old(registry)
        invariant DoneAt(connections, monitors, group, nodes[..i])
        invariant Grows(old(connections), old(monitors), connections, monitors)
        invariant Progress(registry, was, connections, {}, net.failed, visited)
      {
        var node := nodes[i];
        ghost var c, m, failed := connections, monitors, net.failed;
        assert registry.Serves(node, group);
        MissingFailed(registry, was, c, failed, visited, node);
        ResyncNode(net, group, node);
        Visit(registry, was, c, connections, {}, failed, net.failed, visited, node);
        assert {} - {node} == {} && visited + {node} == visited;
        GrowsTrans(old(connections), old(monitors), c, m, connections, monitors);
        DoneGrows(c, m, connections, monitors, group, nodes[..i]);
        DoneJoin(connections, monitors, group, nodes[..i], node);
        assert nodes[..i + 1] == nodes[..i] + [node];
        i := i + 1;
      }
      assert nodes[..i] == nodes;
    }

    method ResyncRegs(net: Network, ghost was: map<string, Connection>, ghost visited: set<string>)
      requires Valid() && Watches()
      requires VisitedBut(registry, {}, visited)
      requires Progress(registry, was, connections, {}, net.failed, visited)
      modifies this, net
      ensures Valid() && Watches() && registry == old(registry)
      ensures Exactly(registry, connections)
      ensures Progress(registry, was, connections, {}, net.failed, visited)
    {
      hide AllSound, Watching, Told, Grows, Progress, DoneAt, Exactly, VisitedBut;
      var rest := registry.keys.Keys;
      while rest != {}
        invariant Valid() && Watches() && registry == old(registry) && rest <= registry.keys.Keys
        invariant forall g <- registry.keys | g !in rest :: DoneAt(connections, monitors, g, registry.members(g))
        invariant Progress(registry, was, connections, {}, net.failed, visited)
      {
        var group :| group in rest;
        ghost var c, m := connections, monitors;
        ResyncGroup(net, group, was, visited);
        forall g <- registry.keys | g !in rest
          ensures DoneAt(connections, monitors, g, registry.members(g))
        {
          DoneGrows(c, m, connections, monitors, g, registry.members(g));
        }
        rest := rest - {group};
      }
      AllDoneExactly(registry, connections, monitors);
    }

    /** A maintenance pass.  Whatever fails on the way, each connection it leaves delivers exactly the keys that
        are wanted of its node; only nodes in scope are connected, and all of them are but those at which
        something failed; and where nothing failed a connection is not replaced. */
    method Maintain(net: Network) returns (changed: bool)
      requires Valid() && Watches()
      modifies this, net
      ensures Valid() && Watches() && registry == old(registry)
      ensures Exactly(registry, connections)
      ensures forall n <- connections :: registry.InScope(n)
      ensures forall n | registry.InScope(n) :: n in connections || n in net.failed
      ensures forall n <- old(connections) | registry.InScope(n) && n !in net.failed ::
                Same(old(connections), connections, n)
    {
      hide AllSound, Watching, Told, Exactly;
      net.failed := {};
      ghost var visited;
      ghost var was := connections;
      changed, visited := CheckConnections(net);
      ResyncRegs(net, was, visited);
      assert forall n | registry.InScope(n) :: n in visited;
    }
  }

  lemma NoneDone(c: map<string, Connection>, m: map<string, Monitor>, group: string)
    ensures DoneAt(c, m, group, [])
  {
  }

  lemma DoneGrows(c: map<string, Connection>, m: map<string, Monitor>,
                  c': map<string, Connection>, m': map<string, Monitor>, group: string, nodes: seq<string>)
    requires DoneAt(c, m, group, nodes) && Grows(c, m, c', m')
    ensures DoneAt(c', m', group, nodes)
  {
    hide Done;
  }

  lemma DoneJoin(c: map<string, Connection>, m: map<string, Monitor>, group: string, nodes: seq<string>, node: string)
    requires DoneAt(c, m, group, nodes) && DoneAt(c, m, group, [node])
    ensures DoneAt(c, m, group, nodes + [node])
  {
    hide Done;
    assert node in [node];
  }

  lemma GrowsTrans(c: map<string, Connection>, m: map<string, Monitor>, c': map<string, Connection>,
                   m': map<string, Monitor>, c'': map<string, Connection>, m'': map<string, Monitor>)
    ensures Grows(c, m, c, m)
    ensures Grows(c, m, c', m') && Grows(c', m', c'', m'') ==> Grows(c, m, c'', m'')
  {
    hide Done;
  }

  /** A node in scope that has no connection by now failed. */
  lemma MissingFailed(r: Registry, was: map<string, Connection>, c: map<string, Connection>,
                      failed: set<string>, visited: set<string>, node: string)
    requires Progress(r, was, c, {}, failed, visited) && VisitedBut(r, {}, visited) && r.InScope(node)
    ensures node in visited && (node !in c ==> node in failed)
  {
  }

  lemma SameKeysTold(events: seq<StateEvent>, c: map<string, Connection>, c': map<string, Connection>)
    requires Told(events, c) && c.Keys == c'.Keys
    ensures Told(events, c')
  {
    forall n ensures LastUp(events, n) <==> n in c' {
      assert n in c.Keys <==> n in c'.Keys;
    }
  }
}
