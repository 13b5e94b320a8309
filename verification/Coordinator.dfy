/** How Praefect routes a request and what it does when the request is over
    (internal/praefect/router_per_repository.go, internal/praefect/coordinator.go).

    Answers of the database, the health checker, the random source and the transaction manager are
    parameters; None stands for a call that returned an error. */
module Coordinator {
  import opened Prelude
  import Voting

  /** A RouterNode; connection 0 stands for the nil connection. */
  datatype Node = Node(storage: string, connection: nat)

  const NO_NODE: Node := Node("", 0)

  datatype Route = Route(id: nat, primary: Node, secondaries: seq<Node>, targets: seq<string>)

  datatype RouteError =
    | VirtualStorageNotExist
    | NoConnection(storage: string)
    | NoHealthyNodes
    | NoSuitableNode
    | PrimaryNotHealthy
    | RepositoryReadOnly
    | PrimaryUnassigned
    | BackendError

  function Storages(nodes: seq<Node>): (names: seq<string>)
    ensures |names| == |nodes|
    ensures forall i :: 0 <= i < |nodes| ==> names[i] == nodes[i].storage
  {
    seq(|nodes|, i requires 0 <= i < |nodes| => nodes[i].storage)
  }

  // ---- routing --------------------------------------------------------------------------------

  method HealthyNodes(connections: Option<map<string, nat>>, healthy: seq<string>)
    returns (r: Result<seq<Node>, RouteError>)
    ensures r.Ok? <==> connections.Some? && healthy != [] && forall s :: s in healthy ==> s in connections.value
    ensures r.Ok? ==> Storages(r.value) == healthy
    ensures r.Ok? ==> forall n :: n in r.value ==> n.connection == connections.value[n.storage]
    ensures r.Err? && connections.None? ==> r.error == VirtualStorageNotExist
    ensures r.Err? && connections.Some? && healthy == [] ==> r.error == NoHealthyNodes
    ensures r.Err? && connections.Some? && healthy != [] ==>
              r.error.NoConnection? && r.error.storage in healthy && r.error.storage !in connections.value
  {
    if connections.None? { return Err(VirtualStorageNotExist); }
    var nodes: seq<Node> := [];
    for i := 0 to |healthy|
      invariant Storages(nodes) == healthy[..i]
      invariant forall s :: s in healthy[..i] ==> s in connections.value
      invariant forall n :: n in nodes ==> n.storage in connections.value && n.connection == connections.value[n.storage]
    {
      if healthy[i] !in connections.value { return Err(NoConnection(healthy[i])); }
      nodes := nodes + [Node(healthy[i], connections.value[healthy[i]])];
      assert healthy[..i + 1] == healthy[..i] + [healthy[i]];
    }
    if |nodes| == 0 { return Err(NoHealthyNodes); }
    r := Ok(nodes);
  }

  /** An accessor goes to a healthy node: the primary when that is forced, and otherwise one that is
      consistent; it fails exactly when there is no such node. `random` is the source's choice. */
  method RouteAccessor(nodes: seq<Node>, forcePrimary: bool, primary: Option<string>,
                       consistent: Option<set<string>>, random: nat)
    returns (r: Result<Node, RouteError>)
    ensures r.Ok? ==> r.value in nodes
    ensures forcePrimary && primary.None? ==> r == Err(BackendError)
    ensures forcePrimary && primary.Some? ==>
              if primary.value in Storages(nodes) then r.Ok? && r.value.storage == primary.value else r == Err(PrimaryNotHealthy)
    ensures !forcePrimary && consistent.None? ==> r == Err(BackendError)
    ensures !forcePrimary && consistent.Some? ==>
              if exists s :: s in Storages(nodes) && s in consistent.value then r.Ok? && r.value.storage in consistent.value
              else r == Err(NoSuitableNode)
  {
    if forcePrimary {
      if primary.None? { return Err(BackendError); }
      for i := 0 to |nodes|
        invariant primary.value !in Storages(nodes)[..i]
      {
        if nodes[i].storage == primary.value {
          assert Storages(nodes)[i] == primary.value;
          return Ok(nodes[i]);
        }
        assert Storages(nodes)[..i + 1] == Storages(nodes)[..i] + [nodes[i].storage];
      }
      return Err(PrimaryNotHealthy);
    }
    if consistent.None? { return Err(BackendError); }
    var usable: seq<Node> := [];
    for i := 0 to |nodes|
      invariant forall n :: n in usable ==> n in nodes && n.storage in consistent.value
      invariant forall k :: 0 <= k < i && nodes[k].storage in consistent.value ==> nodes[k] in usable
    {
      if nodes[i].storage in consistent.value {
        usable := usable + [nodes[i]];
      }
    }
    if |usable| == 0 { return Err(NoSuitableNode); }
    r := Ok(usable[random % |usable|]);
    assert r.value in usable && r.value in nodes;
    var k :| 0 <= k < |nodes| && nodes[k] == r.value;
    assert Storages(nodes)[k] in consistent.value;
  }

  /** The assigned storages other than the primary that can take part in a transaction. */
  function Participants(hosts: seq<string>, primary: string, usable: set<string>): seq<string> {
    if hosts == [] then [] else
      var rest, s := Participants(hosts[..|hosts| - 1], primary, usable), hosts[|hosts| - 1];
      if s != primary && s in usable then rest + [s] else rest
  }

  /** The assigned storages other than the primary that have to be replicated to. */
  function Targets(hosts: seq<string>, primary: string, usable: set<string>): seq<string> {
    if hosts == [] then [] else
      var rest, s := Targets(hosts[..|hosts| - 1], primary, usable), hosts[|hosts| - 1];
      if s != primary && s !in usable then rest + [s] else rest
  }

  /** A mutator needs a healthy, consistent and assigned primary. The healthy and consistent
      assigned storages take part; every other one is a replication target. */
  method RouteMutator(nodes: seq<Node>, primary: Option<string>, consistent: Option<set<string>>,
                      hosts: Option<seq<string>>, id: Option<nat>)
    returns (r: Result<Route, RouteError>)
    requires NO_NODE !in nodes
    ensures primary.Some? && primary.value !in Storages(nodes) ==> r == Err(PrimaryNotHealthy)
    ensures primary.Some? && primary.value in Storages(nodes) && consistent.Some? && primary.value !in consistent.value ==>
              r == Err(RepositoryReadOnly)
    ensures primary.Some? && primary.value in Storages(nodes) && consistent.Some? && primary.value in consistent.value &&
            hosts.Some? && id.Some? && primary.value !in hosts.value ==>
              r == Err(PrimaryUnassigned)
    ensures r.Ok? <==> primary.Some? && consistent.Some? && hosts.Some? && id.Some? && primary.value in Storages(nodes)
                       && primary.value in consistent.value && primary.value in hosts.value
    ensures r.Ok? ==>
              var usable := set s | s in Storages(nodes) && s in consistent.value;
              && r.value.id == id.value && r.value.primary.storage == primary.value && r.value.primary in nodes
              && (forall n :: n in r.value.secondaries ==> n in nodes)
              && Storages(r.value.secondaries) == Participants(hosts.value, primary.value, usable)
              && r.value.targets == Targets(hosts.value, primary.value, usable)
  {
    if primary.None? { return Err(BackendError); }
    var healthySet: map<string, Node> := map[];
    for i := 0 to |nodes|
      invariant forall s :: s in healthySet <==> s in Storages(nodes)[..i]
      invariant forall s :: s in healthySet ==> healthySet[s] in nodes && healthySet[s].storage == s
    {
      healthySet := healthySet[nodes[i].storage := nodes[i]];
      assert Storages(nodes)[..i + 1] == Storages(nodes)[..i] + [nodes[i].storage];
    }
    assert Storages(nodes)[..|nodes|] == Storages(nodes);
    if primary.value !in healthySet { return Err(PrimaryNotHealthy); }
    if consistent.None? { return Err(BackendError); }
    if primary.value !in consistent.value { return Err(RepositoryReadOnly); }
    if hosts.None? { return Err(BackendError); }
    if id.None? { return Err(BackendError); }

    ghost var usable := set s | s in Storages(nodes) && s in consistent.value;
    var all, p := hosts.value, primary.value;
    var route := Route(id.value, NO_NODE, [], []);
    for i := 0 to |all|
      invariant route.id == id.value && route.primary == if p in all[..i] then healthySet[p] else NO_NODE
      invariant forall n :: n in route.secondaries ==> n in nodes
      invariant Storages(route.secondaries) == Participants(all[..i], p, usable)
      invariant route.targets == Targets(all[..i], p, usable)
    {
      assert all[..i + 1][..i] == all[..i] && all[..i + 1] == all[..i] + [all[i]];
      var healthy := all[i] in healthySet;
      var node := if healthy then healthySet[all[i]] else NO_NODE;
      if all[i] == p {
        route := route.(primary := node);
      } else if node.storage !in consistent.value || !healthy {
        route := route.(targets := route.targets + [all[i]]);
      } else {
        assert Storages(route.secondaries + [node]) == Storages(route.secondaries) + [node.storage];
        route := route.(secondaries := route.secondaries + [node]);
      }
    }
    assert all[..|all|] == all;
    if route.primary == NO_NODE { return Err(PrimaryUnassigned); }
    r := Ok(route);
  }

  ghost predicate Distinct(s: seq<string>) {
    forall i, j :: 0 <= i < j < |s| ==> s[i] != s[j]
  }

  function Others(hosts: seq<string>, primary: string): seq<string> {
    if hosts == [] then [] else
      var rest, s := Others(hosts[..|hosts| - 1], primary), hosts[|hosts| - 1];
      if s != primary then rest + [s] else rest
  }

  /** The storages that a new repository is assigned to, besides its primary: a positive replication
      factor keeps all but one of that many, and zero keeps all of them. */
  function Assigned(order: seq<string>, primary: string, factor: int): seq<string>
    requires factor > 0 ==> factor - 1 <= |Others(order, primary)|
  {
    if factor > 0 then Others(order, primary)[..factor - 1] else Others(order, primary)
  }

  function Taken(healthy: seq<string>): set<string> {
    set s | s in healthy
  }

  lemma {:induction false} OthersLength(order: seq<string>, primary: string)
    requires Distinct(order)
    ensures |Others(order, primary)| == if primary in order then |order| - 1 else |order|
    ensures forall s :: s in Others(order, primary) ==> s in order && s != primary
  {
    if order != [] {
      var n := |order| - 1;
      OthersLength(order[..n], primary);
      assert order == order[..n] + [order[n]];
      assert primary == order[n] ==> primary !in order[..n];
    }
  }

  /** The other configured nodes, in the order in which they come out of the map and the shuffle. */
  method OtherNodes(connections: map<string, nat>, order: seq<string>, primary: string) returns (others: seq<Node>)
    requires forall s :: s in order ==> s in connections
    ensures Storages(others) == Others(order, primary)
    ensures forall n :: n in others ==> n.storage in connections && n.connection == connections[n.storage]
  {
    others := [];
    for i := 0 to |order|
      invariant Storages(others) == Others(order[..i], primary)
      invariant forall n :: n in others ==> n.storage in connections && n.connection == connections[n.storage]
    {
      assert order[..i + 1][..i] == order[..i];
      if order[i] == primary { continue; }
      others := others + [Node(order[i], connections[order[i]])];
    }
    assert order[..|order|] == order;
  }

  /** Healthy ones take part, and the others become replication targets. */
  method SplitByHealth(connections: map<string, nat>, nodes: seq<Node>, chosen: seq<Node>, primary: string)
    returns (secondaries: seq<Node>, targets: seq<string>)
    requires forall n :: n in nodes || n in chosen ==> n.storage in connections && n.connection == connections[n.storage]
    requires primary !in Storages(chosen)
    ensures Storages(secondaries) == Participants(Storages(chosen), primary, Taken(Storages(nodes)))
    ensures targets == Targets(Storages(chosen), primary, Taken(Storages(nodes)))
    ensures forall n :: n in secondaries ==> n in nodes
  {
    secondaries, targets := [], [];
    var names := Storages(chosen);
    for i := 0 to |chosen|
      invariant Storages(secondaries) == Participants(names[..i], primary, Taken(Storages(nodes)))
      invariant targets == Targets(names[..i], primary, Taken(Storages(nodes)))
      invariant forall n :: n in secondaries ==> n in nodes
    {
      assert names[..i + 1][..i] == names[..i] && names[i] == chosen[i].storage && names[i] in names;
      var isHealthy := false;
      for k := 0 to |nodes|
        invariant !isHealthy && chosen[i] !in nodes[..k]
      {
        if nodes[k] == chosen[i] {
          isHealthy := true;
          break;
        }
      }
      SameNode(connections, nodes, chosen[i]);
      if isHealthy {
        assert Storages(secondaries + [chosen[i]]) == Storages(secondaries) + [chosen[i].storage];
        secondaries := secondaries + [chosen[i]];
      } else {
        targets := targets + [chosen[i].storage];
      }
    }
    assert names[..|chosen|] == names;
  }

  /** Nodes are equal when their storages are: there is one connection for each. */
  lemma SameNode(connections: map<string, nat>, nodes: seq<Node>, x: Node)
    requires forall n :: n in nodes || n == x ==> n.storage in connections && n.connection == connections[n.storage]
    ensures x in nodes <==> x.storage in Taken(Storages(nodes))
  {
    if x.storage in Storages(nodes) {
      var i :| 0 <= i < |nodes| && Storages(nodes)[i] == x.storage;
      assert nodes[i] in nodes && nodes[i] == x;
    }
    if x in nodes {
      var i :| 0 <= i < |nodes| && nodes[i] == x;
      assert Storages(nodes)[i] == x.storage;
    }
  }

  /** A new repository goes to a random healthy primary and to as many other configured storages as the
      replication factor asks for. `order` is the order in which the configured storages come out of the
      map and the shuffle. Config.Validate refuses a factor above the number of storages. */
  method RouteCreation(connections: Option<map<string, nat>>, healthy: seq<string>, random: nat, id: Option<nat>,
                       order: seq<string>, factor: int)
    returns (r: Result<Route, RouteError>)
    requires connections.Some? ==> Distinct(order) && forall s :: s in order <==> s in connections.value
    requires connections.Some? ==> factor <= |order|
    ensures r.Ok? <==> connections.Some? && healthy != [] && (forall s :: s in healthy ==> s in connections.value) && id.Some?
    ensures r.Ok? ==>
              var primary := healthy[random % |healthy|];
              && r.value.id == id.value && r.value.primary == Node(primary, connections.value[primary])
              && (factor > 0 ==> factor - 1 <= |Others(order, primary)|)
              && Storages(r.value.secondaries) == Participants(Assigned(order, primary, factor), primary, Taken(healthy))
              && r.value.targets == Targets(Assigned(order, primary, factor), primary, Taken(healthy))
  {
    var routed := HealthyNodes(connections, healthy);
    if routed.Err? { return Err(routed.error); }
    var nodes := routed.value;
    var primary := nodes[random % |nodes|];
    assert Storages(nodes)[random % |nodes|] == primary.storage && primary.storage in healthy && primary in nodes;
    if id.None? { return Err(BackendError); }
    OthersLength(order, primary.storage);
    if factor == 1 {
      assert Assigned(order, primary.storage, factor) == [];
      return Ok(Route(id.value, primary, [], []));
    }
    var others := OtherNodes(connections.value, order, primary.storage);
    var chosen := if factor > 0 then others[..factor - 1] else others;
    assert Storages(chosen) == Assigned(order, primary.storage, factor);
    var secondaries, targets := SplitByHealth(connections.value, nodes, chosen, primary.storage);
    r := Ok(Route(id.value, primary, secondaries, targets));
  }

  // ---- after the request ----------------------------------------------------------------------

  type Error = nat

  /** What is known of a transaction when its request is over. */
  datatype Transaction = Transaction(subtransactions: nat, primaryVoted: bool, state: Option<map<string, Voting.Outcome>>)

  /** A missing key of a Go map reads as the zero value: undecided, or no error. */
  function StateOf(t: Transaction, storage: string): Voting.Outcome
    requires t.state.Some?
  {
    if storage in t.state.value then t.state.value[storage] else Voting.Undecided
  }

  function ErrorOf(errors: map<string, Error>, storage: string): Option<Error> {
    if storage in errors then Some(errors[storage]) else None
  }

  /** Whether the primary may have changed what it has on disk. */
  predicate Dirtied(t: Transaction, primary: string, errors: map<string, Error>) {
    !(t.subtransactions == 0 && primary in errors) && !(t.subtransactions == 1 && !t.primaryVoted)
  }

  predicate HasCommitted(states: map<string, Voting.Outcome>, storage: string) {
    storage in states && states[storage] == Voting.Committed
  }

  /** Whether `storage` did what the primary did: both committed, with the same error. */
  predicate Followed(t: Transaction, primary: string, errors: map<string, Error>, storage: string) {
    && t.subtransactions > 0 && t.state.Some? && HasCommitted(t.state.value, primary) && HasCommitted(t.state.value, storage)
    && (storage in errors <==> primary in errors) && (storage in errors ==> errors[storage] == errors[primary])
  }

  /** Those secondaries that followed the primary, or those that did not. */
  function Followers(t: Transaction, route: Route, errors: map<string, Error>, n: nat, followed: bool): seq<string>
    requires n <= |route.secondaries|
  {
    if n == 0 then [] else
      var rest, s := Followers(t, route, errors, n - 1, followed), route.secondaries[n - 1].storage;
      if Followed(t, route.primary.storage, errors, s) == followed then rest + [s] else rest
  }

  lemma {:induction false} NoFollowers(t: Transaction, route: Route, errors: map<string, Error>, n: nat)
    requires n <= |route.secondaries|
    requires forall s :: !Followed(t, route.primary.storage, errors, s)
    ensures Followers(t, route, errors, n, true) == []
    ensures Followers(t, route, errors, n, false) == Storages(route.secondaries)[..n]
  {
    if n > 0 { NoFollowers(t, route, errors, n - 1); }
  }

  /** getUpdatedAndOutdatedSecondaries. */
  method Classify(route: Route, t: Transaction, errors: map<string, Error>)
    returns (dirtied: bool, updated: seq<string>, outdated: seq<string>)
    ensures dirtied == Dirtied(t, route.primary.storage, errors)
    ensures !dirtied ==> updated == [] && outdated == []
    ensures dirtied ==> updated == Followers(t, route, errors, |route.secondaries|, true)
    ensures dirtied ==> outdated == route.targets + Followers(t, route, errors, |route.secondaries|, false)
  {
    var primary := route.primary.storage;
    updated, outdated := [], [];
    if t.subtransactions == 0 && primary in errors { return false, [], []; }
    if t.subtransactions == 1 && !t.primaryVoted { return false, [], []; }
    dirtied := true;
    outdated := route.targets;
    if t.subtransactions == 0 || t.state.None? || !StateOf(t, primary).Committed? {
      NoFollowers(t, route, errors, |route.secondaries|);
      assert Storages(route.secondaries)[..|route.secondaries|] == Storages(route.secondaries);
      outdated := outdated + Storages(route.secondaries);
      return;
    }
    for i := 0 to |route.secondaries|
      invariant updated == Followers(t, route, errors, i, true)
      invariant outdated == route.targets + Followers(t, route, errors, i, false)
    {
      var s := route.secondaries[i].storage;
      if ErrorOf(errors, s) != ErrorOf(errors, primary) {
        outdated := outdated + [s];
      } else if !StateOf(t, s).Committed? {
        outdated := outdated + [s];
      } else {
        updated := updated + [s];
      }
    }
  }

  datatype Change = UpdateRepo | RenameRepo | DeleteRepo | CreateRepo

  datatype Job = Job(change: Change, source: string, target: string)

  function JobsFor(jobs: seq<Job>, target: string): nat {
    if jobs == [] then 0
    else JobsFor(jobs[..|jobs| - 1], target) + (if jobs[|jobs| - 1].target == target then 1 else 0)
  }

  /** What a job makes of a change: replicas are created by an update, and every other change is
      passed on as it is. */
  predicate Replicates(j: Job, change: Change) {
    && !j.change.CreateRepo?
    && (j.change.DeleteRepo? <==> change.DeleteRepo?)
    && (j.change.RenameRepo? <==> change.RenameRepo?)
  }

  /** newRequestFinalizer's last part: one replication job for each outdated secondary, none when the
      store could not be updated. Enqueueing fails for the `refused` targets, and then so does the whole. */
  method QueueJobs(change: Change, primary: string, outdated: seq<string>, storeUpdated: bool, refused: set<string>)
    returns (jobs: seq<Job>, ok: bool)
    ensures ok <==> storeUpdated && forall s :: s in outdated ==> s !in refused
    ensures !storeUpdated ==> jobs == []
    ensures forall j :: j in jobs ==> j.source == primary && Replicates(j, change)
    ensures storeUpdated ==> forall s :: JobsFor(jobs, s) == if s in refused then 0 else multiset(outdated)[s]
  {
    jobs, ok := [], storeUpdated;
    if !storeUpdated { return; }
    for i := 0 to |outdated|
      invariant ok <==> forall s :: s in outdated[..i] ==> s !in refused
      invariant forall j :: j in jobs ==> j.source == primary && Replicates(j, change)
      invariant forall s :: JobsFor(jobs, s) == if s in refused then 0 else multiset(outdated[..i])[s]
    {
      assert outdated[..i + 1] == outdated[..i] + [outdated[i]];
      if outdated[i] in refused {
        ok := false;
      } else {
        var job := Job(if change.CreateRepo? then UpdateRepo else change, primary, outdated[i]);
        assert (jobs + [job])[..|jobs|] == jobs;
        jobs := jobs + [job];
      }
    }
    assert outdated[..|outdated|] == outdated;
  }

  // ---- conservation ---------------------------------------------------------------------------

  /** Routing loses no assigned storage and duplicates none. */
  lemma {:induction false} RoutingConserves(hosts: seq<string>, primary: string, usable: set<string>)
    ensures multiset(Participants(hosts, primary, usable)) + multiset(Targets(hosts, primary, usable)) == multiset(Others(hosts, primary))
  {
    if hosts != [] { RoutingConserves(hosts[..|hosts| - 1], primary, usable); }
  }

  lemma Appended<T>(a: seq<T>, b: seq<T>, all: seq<T>, s: T)
    requires multiset(a) + multiset(b) == multiset(all)
    ensures multiset(a + [s]) + multiset(b) == multiset(all + [s])
    ensures multiset(a) + multiset(b + [s]) == multiset(all + [s])
  {
    assert multiset(all + [s]) == multiset(all) + multiset{s};
    assert multiset(a + [s]) == multiset(a) + multiset{s} && multiset(b + [s]) == multiset(b) + multiset{s};
  }

  lemma FollowersStep(t: Transaction, route: Route, errors: map<string, Error>, n: nat, a: seq<string>, b: seq<string>)
    requires 0 < n <= |route.secondaries|
    requires a == Followers(t, route, errors, n - 1, true) && b == Followers(t, route, errors, n - 1, false)
    ensures var s := route.secondaries[n - 1].storage;
            || (Followers(t, route, errors, n, true) == a + [s] && Followers(t, route, errors, n, false) == b)
            || (Followers(t, route, errors, n, true) == a && Followers(t, route, errors, n, false) == b + [s])
  {}

  lemma {:induction false} FollowersConserve(t: Transaction, route: Route, errors: map<string, Error>, n: nat,
                                             up: seq<string>, down: seq<string>, all: seq<string>)
    requires n <= |route.secondaries| && all == Storages(route.secondaries)[..n]
    requires up == Followers(t, route, errors, n, true) && down == Followers(t, route, errors, n, false)
    ensures multiset(up) + multiset(down) == multiset(all)
  {
    if n > 0 {
      var a, b := Followers(t, route, errors, n - 1, true), Followers(t, route, errors, n - 1, false);
      FollowersStep(t, route, errors, n, a, b);
      assert all == all[..n - 1] + [all[n - 1]];
      FollowersConserve(t, route, errors, n - 1, a, b, all[..n - 1]);
      Appended(a, b, all[..n - 1], all[n - 1]);
    }
  }

  lemma {:induction false} FollowersFollow(t: Transaction, route: Route, errors: map<string, Error>, n: nat, f: bool, s: string)
    requires n <= |route.secondaries| && s in Followers(t, route, errors, n, f)
    ensures Followed(t, route.primary.storage, errors, s) == f
  {
    if s in Followers(t, route, errors, n - 1, f) { FollowersFollow(t, route, errors, n - 1, f, s); }
  }

  lemma {:induction false} OthersCount(hosts: seq<string>, primary: string, s: string)
    requires Distinct(hosts)
    ensures multiset(Others(hosts, primary))[s] == if s in hosts && s != primary then 1 else 0
  {
    if hosts != [] {
      var n := |hosts| - 1;
      OthersCount(hosts[..n], primary, s);
      assert hosts == hosts[..n] + [hosts[n]];
    }
  }

  /** Every assigned storage but the primary is in exactly one of the two lists, and nothing else
      is in either. */
  lemma Partition(hosts: seq<string>, usable: set<string>, route: Route, t: Transaction, errors: map<string, Error>, s: string)
    requires Distinct(hosts)
    requires Storages(route.secondaries) == Participants(hosts, route.primary.storage, usable)
    requires route.targets == Targets(hosts, route.primary.storage, usable)
    ensures var up := Followers(t, route, errors, |route.secondaries|, true);
            var down := route.targets + Followers(t, route, errors, |route.secondaries|, false);
            multiset(up)[s] + multiset(down)[s] == if s in hosts && s != route.primary.storage then 1 else 0
  {
    RoutingConserves(hosts, route.primary.storage, usable);
    var n := |route.secondaries|;
    assert Storages(route.secondaries)[..n] == Storages(route.secondaries);
    FollowersConserve(t, route, errors, n, Followers(t, route, errors, n, true), Followers(t, route, errors, n, false),
                      Storages(route.secondaries));
    OthersCount(hosts, route.primary.storage, s);
  }

  /** Without a transaction, every assigned storage but the primary is outdated. */
  lemma PartitionUntransacted(hosts: seq<string>, usable: set<string>, route: Route, s: string)
    requires Distinct(hosts)
    requires Storages(route.secondaries) == Participants(hosts, route.primary.storage, usable)
    requires route.targets == Targets(hosts, route.primary.storage, usable)
    ensures multiset(Storages(route.secondaries) + route.targets)[s] == if s in hosts && s != route.primary.storage then 1 else 0
  {
    RoutingConserves(hosts, route.primary.storage, usable);
    OthersCount(hosts, route.primary.storage, s);
  }

  lemma UpdatedFollowed(hosts: seq<string>, usable: set<string>, route: Route, t: Transaction, errors: map<string, Error>)
    requires Storages(route.secondaries) == Participants(hosts, route.primary.storage, usable)
    ensures forall s :: s in Followers(t, route, errors, |route.secondaries|, true) ==>
              Followed(t, route.primary.storage, errors, s) && s in usable
  {
    forall s | s in Followers(t, route, errors, |route.secondaries|, true)
      ensures Followed(t, route.primary.storage, errors, s) && s in usable
    {
      FollowersFollow(t, route, errors, |route.secondaries|, true, s);
      FollowersUsable(t, route, errors, |route.secondaries|, hosts, usable, s);
    }
  }

  /** What the finalizers of a routed request leave behind: who is up to date, the jobs, and whether the
      client hears of success. */
  datatype Aftermath = Aftermath(updated: seq<string>, jobs: seq<Job>, ok: bool)

  /** Each assigned storage other than the primary either followed the primary and gets no job, or did
      not and gets exactly one, sourced at the primary, unless enqueueing that one failed. Nobody else
      gets a job. */
  ghost predicate Conserved(hosts: seq<string>, primary: string, usable: set<string>, transaction: Option<Transaction>,
                            errors: map<string, Error>, change: Change, storeUpdated: bool, refused: set<string>, x: Aftermath) {
    && (x.ok ==> storeUpdated) && (!storeUpdated ==> x.jobs == [])
    && (forall j :: j in x.jobs ==> j.source == primary && Replicates(j, change))
    && (forall s :: s in x.updated ==> transaction.Some? && Followed(transaction.value, primary, errors, s) && s in usable)
    && (storeUpdated ==> forall s :: multiset(x.updated)[s] + JobsFor(x.jobs, s) <= 1 && (s in refused ==> JobsFor(x.jobs, s) == 0))
    && (storeUpdated ==> forall s :: (x.ok || s !in refused) ==>
          multiset(x.updated)[s] + JobsFor(x.jobs, s) == if s in hosts && s != primary then 1 else 0)
  }

  lemma Conservation(hosts: seq<string>, usable: set<string>, route: Route, transaction: Option<Transaction>,
                     errors: map<string, Error>, updated: seq<string>, outdated: seq<string>, s: string)
    requires Distinct(hosts)
    requires Storages(route.secondaries) == Participants(hosts, route.primary.storage, usable)
    requires route.targets == Targets(hosts, route.primary.storage, usable)
    requires var n := |route.secondaries|;
             if transaction.Some? then
               updated == Followers(transaction.value, route, errors, n, true) &&
               outdated == route.targets + Followers(transaction.value, route, errors, n, false)
             else updated == [] && outdated == Storages(route.secondaries) + route.targets
    ensures multiset(updated)[s] + multiset(outdated)[s] == if s in hosts && s != route.primary.storage then 1 else 0
  {
    if transaction.Some? {
      Partition(hosts, usable, route, transaction.value, errors, s);
    } else {
      PartitionUntransacted(hosts, usable, route, s);
    }
  }

  /** The finalizers of a request that was routed to the `usable` ones of `hosts`. */
  method Finalize(route: Route, ghost hosts: seq<string>, ghost usable: set<string>, transaction: Option<Transaction>,
                  errors: map<string, Error>, change: Change, storeUpdated: bool, refused: set<string>)
    returns (x: Aftermath)
    requires Distinct(hosts)
    requires Storages(route.secondaries) == Participants(hosts, route.primary.storage, usable)
    requires route.targets == Targets(hosts, route.primary.storage, usable)
    ensures transaction.Some? && !Dirtied(transaction.value, route.primary.storage, errors) ==> x == Aftermath([], [], true)
    ensures (transaction.Some? ==> Dirtied(transaction.value, route.primary.storage, errors)) ==>
              Conserved(hosts, route.primary.storage, usable, transaction, errors, change, storeUpdated, refused, x)
  {
    var updated, outdated := [], Storages(route.secondaries) + route.targets;
    if transaction.Some? {
      var dirtied;
      dirtied, updated, outdated := Classify(route, transaction.value, errors);
      if !dirtied { return Aftermath([], [], true); }
      UpdatedFollowed(hosts, usable, route, transaction.value, errors);
    }
    var jobs, ok := QueueJobs(change, route.primary.storage, outdated, storeUpdated, refused);
    forall s ensures multiset(updated)[s] + multiset(outdated)[s] == if s in hosts && s != route.primary.storage then 1 else 0 {
      Conservation(hosts, usable, route, transaction, errors, updated, outdated, s);
    }
    assert forall s :: multiset(outdated)[s] > 0 ==> s in outdated;
    x := Aftermath(updated, jobs, ok);
  }

  /** Conservation, end to end, for a mutator: whatever the health, the votes and the errors. */
  method Mutate(nodes: seq<Node>, primary: string, consistent: set<string>, hosts: seq<string>, id: nat,
                transaction: Option<Transaction>, errors: map<string, Error>, change: Change, storeUpdated: bool, refused: set<string>)
    returns (r: Result<Aftermath, RouteError>)
    requires Distinct(hosts) && NO_NODE !in nodes
    ensures r.Ok? <==> primary in Storages(nodes) && primary in consistent && primary in hosts
    ensures r.Ok? && transaction.Some? && !Dirtied(transaction.value, primary, errors) ==> r.value == Aftermath([], [], true)
    ensures r.Ok? && (transaction.Some? ==> Dirtied(transaction.value, primary, errors)) ==>
              var usable := set s | s in Storages(nodes) && s in consistent;
              Conserved(hosts, primary, usable, transaction, errors, change, storeUpdated, refused, r.value)
  {
    var routed := RouteMutator(nodes, Some(primary), Some(consistent), Some(hosts), Some(id));
    if routed.Err? { return Err(routed.error); }
    ghost var usable := set s | s in Storages(nodes) && s in consistent;
    var x := Finalize(routed.value, hosts, usable, transaction, errors, change, storeUpdated, refused);
    r := Ok(x);
  }

  lemma {:induction false} OthersDistinct(order: seq<string>, primary: string)
    requires Distinct(order)
    ensures Distinct(Others(order, primary))
  {
    if order != [] {
      var n := |order| - 1;
      OthersDistinct(order[..n], primary);
      OthersLength(order[..n], primary);
      assert order[n] !in Others(order[..n], primary);
    }
  }

  /** The same for the creation of a repository: every storage that it was assigned to besides its
      primary took part and followed the primary, or gets exactly one job. */
  method Create(connections: map<string, nat>, healthy: seq<string>, random: nat, id: nat, order: seq<string>, factor: int,
                transaction: Option<Transaction>, errors: map<string, Error>, storeUpdated: bool, refused: set<string>)
    returns (r: Result<(string, Aftermath), RouteError>)
    requires Distinct(order) && (forall s :: s in order <==> s in connections) && factor <= |order|
    ensures r.Ok? <==> healthy != [] && forall s :: s in healthy ==> s in connections
    ensures r.Ok? ==>
              var (primary, x) := r.value;
              && primary in healthy && (factor > 0 ==> factor - 1 <= |Others(order, primary)|)
              && (transaction.Some? && !Dirtied(transaction.value, primary, errors) ==> x == Aftermath([], [], true))
              && ((transaction.Some? ==> Dirtied(transaction.value, primary, errors)) ==>
                    Conserved(Assigned(order, primary, factor), primary, Taken(healthy), transaction, errors, CreateRepo, storeUpdated, refused, x))
  {
    var routed := RouteCreation(Some(connections), healthy, random, Some(id), order, factor);
    if routed.Err? { return Err(routed.error); }
    var primary := routed.value.primary.storage;
    ghost var hosts := Assigned(order, primary, factor);
    OthersDistinct(order, primary);
    var x := Finalize(routed.value, hosts, Taken(healthy), transaction, errors, CreateRepo, storeUpdated, refused);
    r := Ok((primary, x));
  }

  /** As many storages as the replication factor says, or all: none twice, and the primary not again. */
  lemma AssignedExactly(order: seq<string>, primary: string, factor: int)
    requires Distinct(order) && primary in order && factor <= |order|
    ensures factor > 0 ==> factor - 1 <= |Others(order, primary)|
    ensures var a := Assigned(order, primary, factor);
            && Distinct(a) && primary !in a && (forall s :: s in a ==> s in order)
            && |a| == (if factor > 0 then factor - 1 else |order| - 1)
            && (factor <= 0 ==> forall s :: s in order && s != primary ==> s in a)
  {
    OthersLength(order, primary);
    OthersDistinct(order, primary);
    forall s | s in order && s != primary ensures s in Others(order, primary) {
      OthersCount(order, primary, s);
      assert s in multiset(Others(order, primary));
    }
  }

  lemma {:induction false} ParticipantsUsable(hosts: seq<string>, primary: string, usable: set<string>, s: string)
    requires s in Participants(hosts, primary, usable)
    ensures s in usable
  {
    if s in Participants(hosts[..|hosts| - 1], primary, usable) { ParticipantsUsable(hosts[..|hosts| - 1], primary, usable, s); }
  }

  lemma FollowersUsable(t: Transaction, route: Route, errors: map<string, Error>, n: nat, hosts: seq<string>, usable: set<string>, s: string)
    requires n <= |route.secondaries| && s in Followers(t, route, errors, n, true)
    requires Storages(route.secondaries) == Participants(hosts, route.primary.storage, usable)
    ensures s in usable
  {
    var all := Storages(route.secondaries)[..n];
    FollowersConserve(t, route, errors, n, Followers(t, route, errors, n, true), Followers(t, route, errors, n, false), all);
    assert s in multiset(all);
    ParticipantsUsable(hosts, route.primary.storage, usable, s);
  }
}
