/** The routing registry: writers rebuild a complete snapshot from the entries and swap it in. */
module NodeRegistry {
  import opened Common

  datatype Health = Unknown | Healthy | Unhealthy

  datatype Node = Node(id: nat, name: string, baseURL: string, authHeader: string, timeout: int)

  /** A node and its runtime state.  `models` is `None` until discovered; `lastCheckedAt` is
      `None` until probed. */
  datatype Entry =
    Entry(node: Node, health: Health, models: Option<seq<string>>, lastError: string, lastCheckedAt: Option<int>)

  type Entries = map<nat, Entry>

  type Routes = map<string, seq<Node>>

  datatype Snapshot = Snapshot(nodes: seq<Entry>, models: Routes)

  datatype Probe = Probe(health: Health, models: Option<seq<string>>, lastError: string, lastCheckedAt: Option<int>)

  // ---- Sorting ------------------------------------------------------------------------------

  ghost predicate SortedBy<T(!new)>(xs: seq<T>, key: T -> nat) {
    forall i, j :: 0 <= i < j < |xs| ==> key(xs[i]) <= key(xs[j])
  }

  function Insert<T>(x: T, xs: seq<T>, key: T -> nat): seq<T> {
    if xs == [] || key(x) <= key(xs[0]) then [x] + xs else [xs[0]] + Insert(x, xs[1..], key)
  }

  function Sort<T>(xs: seq<T>, key: T -> nat): seq<T> {
    if xs == [] then [] else Insert(xs[0], Sort(xs[1..], key), key)
  }

  lemma {:induction false} InsertAdds<T>(x: T, xs: seq<T>, key: T -> nat)
    ensures multiset(Insert(x, xs, key)) == multiset{x} + multiset(xs)
  {
    if !(xs == [] || key(x) <= key(xs[0])) {
      assert xs == [xs[0]] + xs[1..];
      InsertAdds(x, xs[1..], key);
    }
  }

  lemma {:induction false} InsertSorts<T(!new)>(x: T, xs: seq<T>, key: T -> nat)
    requires SortedBy(xs, key)
    ensures SortedBy(Insert(x, xs, key), key)
    ensures forall y :: y in Insert(x, xs, key) ==> y == x || y in xs
  {
    if !(xs == [] || key(x) <= key(xs[0])) {
      InsertSorts(x, xs[1..], key);
      var rest := Insert(x, xs[1..], key);
      forall y | y in rest ensures key(xs[0]) <= key(y) {
        if y != x {
          var i :| 0 <= i < |xs[1..]| && xs[1..][i] == y;
          assert xs[1 + i] == y;
        }
      }
    }
  }

  lemma {:induction false} SortSorts<T(!new)>(xs: seq<T>, key: T -> nat)
    ensures SortedBy(Sort(xs, key), key) && multiset(Sort(xs, key)) == multiset(xs)
  {
    if xs != [] {
      SortSorts(xs[1..], key);
      InsertSorts(xs[0], Sort(xs[1..], key), key);
      InsertAdds(xs[0], Sort(xs[1..], key), key);
      assert xs == [xs[0]] + xs[1..];
    }
  }

  // ---- What a snapshot must be ----------------------------------------------------------------

  ghost predicate Keyed(es: Entries) {
    forall id :: id in es ==> es[id].node.id == id
  }

  predicate Routable(e: Entry) {
    e.health == Healthy && e.models.Some?
  }

  /** How often a routable entry lists the model. */
  function Lists(e: Entry, model: string): nat {
    if Routable(e) then multiset(e.models.value)[model] else 0
  }

  /** The node is healthy and lists the model. */
  predicate Offers(e: Entry, model: string) {
    e.health == Healthy && e.models.Some? && model in e.models.value
  }

  /** A node is among a model's candidates exactly if it offers it. */
  lemma ListsOffers(e: Entry, model: string)
    ensures Lists(e, model) > 0 <==> Offers(e, model)
    ensures Offers(e, model) ==> Lists(e, model) == multiset(e.models.value)[model]
  {
    if e.models.Some? { assert model in multiset(e.models.value) <==> model in e.models.value; }
  }

  function Candidates(routes: Routes, model: string): seq<Node> {
    if model in routes then routes[model] else []
  }

  /** How often `n` must appear among the model's candidates. */
  ghost function Occurrences(es: Entries, model: string, n: Node): nat {
    if n.id in es && es[n.id].node == n then Lists(es[n.id], model) else 0
  }

  const entryId := (e: Entry) => e.node.id
  const nodeId := (n: Node) => n.id

  ghost predicate NodesOf(es: Entries, nodes: seq<Entry>) {
    forall e :: multiset(nodes)[e] == if e.node.id in es && es[e.node.id] == e then 1 else 0
  }

  ghost predicate RoutesOf(es: Entries, routes: Routes) {
    && (forall m :: m in routes ==> routes[m] != [])
    && (forall m, n :: multiset(Candidates(routes, m))[n] == Occurrences(es, m, n))
  }

  ghost predicate RoutesSorted(routes: Routes) {
    forall m :: m in routes ==> SortedBy(routes[m], nodeId)
  }

  /** The nodes ascending by id; for every model its candidates ascending by id, holding each
      healthy node as often as that node lists the model, and nothing else. */
  ghost predicate Publishes(es: Entries, s: Snapshot) {
    NodesOf(es, s.nodes) && SortedBy(s.nodes, entryId) && RoutesOf(es, s.models) && RoutesSorted(s.models)
  }

  /** The first element of a sorted sequence has the least key of any sequence with the same
      elements. */
  lemma LeastFirst<T(!new)>(xs: seq<T>, ys: seq<T>, key: T -> nat)
    requires xs != [] && ys != [] && SortedBy(xs, key) && multiset(xs) == multiset(ys)
    ensures ys[0] in xs && key(xs[0]) <= key(ys[0])
  {
    assert ys[0] in multiset(ys);
    assert ys[0] in multiset(xs);
    var i :| 0 <= i < |xs| && xs[i] == ys[0];
  }

  /** Among these elements the key tells them apart. */
  ghost predicate KeyIdentifies<T(!new)>(xs: seq<T>, key: T -> nat) {
    forall x, y :: x in xs && y in xs && key(x) == key(y) ==> x == y
  }

  lemma Tail<T(!new)>(xs: seq<T>, key: T -> nat)
    requires xs != []
    ensures multiset(xs) == multiset{xs[0]} + multiset(xs[1..])
    ensures SortedBy(xs, key) ==> SortedBy(xs[1..], key)
    ensures KeyIdentifies(xs, key) ==> KeyIdentifies(xs[1..], key)
  {
    assert xs == [xs[0]] + xs[1..];
  }

  lemma SameFirst<T(!new)>(xs: seq<T>, ys: seq<T>, key: T -> nat)
    requires xs != [] && ys != [] && SortedBy(xs, key) && SortedBy(ys, key)
    requires multiset(xs) == multiset(ys) && KeyIdentifies(xs, key)
    ensures xs[0] == ys[0]
  {
    LeastFirst(xs, ys, key);
    LeastFirst(ys, xs, key);
  }

  lemma Cancel<T>(a: multiset<T>, b: multiset<T>, x: multiset<T>)
    requires x + a == x + b
    ensures a == b
  {
    assert a == x + a - x;
  }

  lemma SameLength<T>(xs: seq<T>, ys: seq<T>)
    requires multiset(xs) == multiset(ys)
    ensures |xs| == |ys|
  {
    assert |multiset(xs)| == |xs|;
  }

  lemma {:induction false} SortedUnique<T(!new)>(xs: seq<T>, ys: seq<T>, key: T -> nat)
    requires SortedBy(xs, key) && SortedBy(ys, key) && multiset(xs) == multiset(ys) && KeyIdentifies(xs, key)
    ensures xs == ys
  {
    hide SortedBy, KeyIdentifies;
    SameLength(xs, ys);
    if xs != [] {
      SameFirst(xs, ys, key);
      Tail(xs, key);
      Tail(ys, key);
      Cancel(multiset(xs[1..]), multiset(ys[1..]), multiset{xs[0]});
      SortedUnique(xs[1..], ys[1..], key);
    }
  }

  lemma OccurringNode(es: Entries, routes: Routes, m: string, n: Node)
    requires RoutesOf(es, routes) && n in Candidates(routes, m)
    ensures n.id in es && es[n.id].node == n
  {
    assert n in multiset(Candidates(routes, m));
    assert Occurrences(es, m, n) == multiset(Candidates(routes, m))[n];
  }

  lemma SameCandidates(es: Entries, a: Routes, b: Routes, m: string)
    requires RoutesOf(es, a) && RoutesOf(es, b) && RoutesSorted(a) && RoutesSorted(b)
    ensures Candidates(a, m) == Candidates(b, m)
  {
    var xs, ys := Candidates(a, m), Candidates(b, m);
    forall n ensures multiset(xs)[n] == multiset(ys)[n] {
      assert multiset(xs)[n] == Occurrences(es, m, n) == multiset(ys)[n];
    }
    assert multiset(xs) == multiset(ys);
    forall x, y | x in xs && y in xs && nodeId(x) == nodeId(y) ensures x == y {
      OccurringNode(es, a, m, x);
      OccurringNode(es, a, m, y);
    }
    SortedUnique(xs, ys, nodeId);
  }

  /** The entries determine the snapshot: whatever order the writer visits them in, it publishes
      the same nodes and the same candidates. */
  lemma SnapshotUnique(es: Entries, a: Snapshot, b: Snapshot)
    requires Publishes(es, a) && Publishes(es, b)
    ensures a == b
  {
    forall e ensures multiset(a.nodes)[e] == multiset(b.nodes)[e] {}
    assert multiset(a.nodes) == multiset(b.nodes);
    forall x, y | x in a.nodes && y in a.nodes && entryId(x) == entryId(y) ensures x == y {
      assert x in multiset(a.nodes) && y in multiset(a.nodes);
    }
    SortedUnique(a.nodes, b.nodes, entryId);
    forall m ensures (m in a.models <==> m in b.models) && Candidates(a.models, m) == Candidates(b.models, m) {
      SameCandidates(es, a.models, b.models, m);
    }
    forall m | m in a.models ensures a.models[m] == b.models[m] {
      assert Candidates(a.models, m) == Candidates(b.models, m);
    }
    assert a.models.Keys == b.models.Keys;
    assert a.models == b.models;
  }

  // ---- The registry ---------------------------------------------------------------------------

  /** A declared node: runtime state carries over while its base URL stays the same. */
  function Declared(es: Entries, n: Node): Entry {
    if n.id in es && es[n.id].node.baseURL == n.baseURL then es[n.id].(node := n)
    else Entry(n, Unknown, None, "", None)
  }

  /** The last declaration of an id wins. */
  function DeclareAll(es: Entries, nodes: seq<Node>): Entries {
    if nodes == [] then map[]
    else
      var n := nodes[|nodes| - 1];
      DeclareAll(es, nodes[..|nodes| - 1])[n.id := Declared(es, n)]
  }

  function ProbeSpec(es: Entries, id: nat, p: Probe): Entries {
    if id !in es then es
    else es[id := Entry(es[id].node, p.health, p.models, p.lastError, p.lastCheckedAt)]
  }

  function StateSpec(es: Entries, id: nat, health: Health, models: Option<seq<string>>): Entries {
    if id !in es then es else es[id := es[id].(health := health, models := models)]
  }

  /** A state update gives one known entry its health and models, and leaves its error, its check time and every
      other entry alone. */
  lemma StateSets(es: Entries, id: nat, health: Health, models: Option<seq<string>>, x: nat)
    ensures var after := StateSpec(es, id, health, models);
            (x in after <==> x in es) &&
            (x in es && x != id ==> after[x] == es[x]) &&
            (x in es && x == id ==>
               after[x] == Entry(es[x].node, health, models, es[x].lastError, es[x].lastCheckedAt))
  {}

  function Pruned(counters: map<string, nat>, routes: Routes): map<string, nat> {
    map m | m in counters && m in routes :: counters[m]
  }

  function CounterOf(counters: map<string, nat>, model: string): nat {
    if model in counters then counters[model] else 0
  }

  /** The candidate whose turn it is. */
  function Position(counters: map<string, nat>, routes: Routes, model: string): nat {
    var k := |Candidates(routes, model)|;
    if k > 1 then CounterOf(counters, model) % k else 0
  }

  /** The counters after a resolution: one moves on, and only where there is a choice. */
  function Turned(counters: map<string, nat>, routes: Routes, model: string): map<string, nat> {
    if |Candidates(routes, model)| > 1 then counters[model := CounterOf(counters, model) + 1] else counters
  }

  lemma {:induction false} DeclareAllKeyed(es: Entries, nodes: seq<Node>)
    ensures Keyed(DeclareAll(es, nodes))
    ensures forall id :: id in DeclareAll(es, nodes) <==> exists i :: 0 <= i < |nodes| && nodes[i].id == id
    ensures forall id :: id in DeclareAll(es, nodes) ==>
              DeclareAll(es, nodes)[id] == Declared(es, DeclareAll(es, nodes)[id].node)
  {
    if nodes != [] {
      DeclareAllKeyed(es, nodes[..|nodes| - 1]);
    }
  }

  /** One entry's contribution: the node is appended once per listing. */
  method AddCandidates(routes: Routes, n: Node, models: seq<string>) returns (r: Routes)
    requires forall m :: m in routes ==> routes[m] != []
    ensures forall m :: m in r ==> r[m] != []
    ensures forall m, k ::
              multiset(Candidates(r, m))[k] ==
              multiset(Candidates(routes, m))[k] + if k == n then multiset(models)[m] else 0
  {
    r := routes;
    for i := 0 to |models|
      invariant forall m :: m in r ==> r[m] != []
      invariant forall m, k ::
                  multiset(Candidates(r, m))[k] ==
                  multiset(Candidates(routes, m))[k] + if k == n then multiset(models[..i])[m] else 0
    {
      assert models[..i + 1] == models[..i] + [models[i]];
      r := r[models[i] := Candidates(r, models[i]) + [n]];
    }
    assert models[..|models|] == models;
  }

  /** Sorts every candidate list, visiting the models in any order. */
  method SortRoutes(routes: Routes) returns (r: Routes)
    ensures r.Keys == routes.Keys && RoutesSorted(r)
    ensures forall m :: m in routes ==> multiset(r[m]) == multiset(routes[m])
  {
    r := routes;
    var todo := routes.Keys;
    while todo != {}
      invariant r.Keys == routes.Keys && todo <= r.Keys
      invariant forall m :: m in routes ==> multiset(r[m]) == multiset(routes[m])
      invariant forall m :: m in routes && m !in todo ==> SortedBy(r[m], nodeId)
      decreases |todo|
    {
      var m :| m in todo;
      todo := todo - {m};
      SortSorts(r[m], nodeId);
      r := r[m := Sort(r[m], nodeId)];
    }
  }

  lemma NodeCollected(done: Entries, nodes: seq<Entry>, e: Entry)
    requires NodesOf(done, nodes) && e.node.id !in done
    ensures NodesOf(done[e.node.id := e], nodes + [e])
  {
    var after := done[e.node.id := e];
    forall x ensures multiset(nodes + [e])[x] == if x.node.id in after && after[x.node.id] == x then 1 else 0 {
      assert multiset(nodes)[x] == if x.node.id in done && done[x.node.id] == x then 1 else 0;
    }
  }

  lemma RoutesCollected(done: Entries, routes: Routes, after: Routes, e: Entry)
    requires RoutesOf(done, routes) && e.node.id !in done && (forall m :: m in after ==> after[m] != [])
    requires forall m, k ::
               multiset(Candidates(after, m))[k] ==
               multiset(Candidates(routes, m))[k] + if k == e.node then Lists(e, m) else 0
    ensures RoutesOf(done[e.node.id := e], after)
  {
    forall m, n ensures multiset(Candidates(after, m))[n] == Occurrences(done[e.node.id := e], m, n) {
      assert multiset(Candidates(routes, m))[n] == Occurrences(done, m, n);
    }
  }

  /** The entries already visited. */
  ghost function Visited(entries: Entries, todo: set<nat>): Entries {
    map id | id in entries && id !in todo :: entries[id]
  }

  lemma VisitOne(entries: Entries, todo: set<nat>, id: nat)
    requires id in todo && id in entries
    ensures id !in Visited(entries, todo) && Visited(entries, todo - {id}) == Visited(entries, todo)[id := entries[id]]
  {}

  lemma VisitNoneOrAll(entries: Entries)
    ensures Visited(entries, {}) == entries
    ensures NodesOf(Visited(entries, entries.Keys), []) && RoutesOf(Visited(entries, entries.Keys), map[])
  {}

  /** Collects the entries in any order. */
  method Collect(entries: Entries) returns (nodes: seq<Entry>, models: Routes)
    requires Keyed(entries)
    ensures NodesOf(entries, nodes) && RoutesOf(entries, models)
  {
    hide NodesOf, RoutesOf, Candidates, Visited;
    nodes, models := [], map[];
    var todo := entries.Keys;
    VisitNoneOrAll(entries);
    while todo != {}
      invariant todo <= entries.Keys
      invariant NodesOf(Visited(entries, todo), nodes) && RoutesOf(Visited(entries, todo), models)
      decreases |todo|
    {
      var id :| id in todo;
      var e := entries[id];
      ghost var done, prior := Visited(entries, todo), models;
      VisitOne(entries, todo, id);
      todo := todo - {id};
      NodeCollected(done, nodes, e);
      nodes := nodes + [e];
      RoutesNonEmpty(done, models);
      if Routable(e) {
        models := AddCandidates(models, e.node, e.models.value);
      }
      RoutesCollected(done, prior, models, e);
    }
  }

  lemma RoutesNonEmpty(es: Entries, routes: Routes)
    requires RoutesOf(es, routes)
    ensures forall m :: m in routes ==> routes[m] != []
  {}

  lemma SortedPublishes(es: Entries, nodes: seq<Entry>, models: Routes, sorted: Routes)
    requires NodesOf(es, nodes) && RoutesOf(es, models) && RoutesSorted(sorted)
    requires sorted.Keys == models.Keys && forall m :: m in models ==> multiset(sorted[m]) == multiset(models[m])
    ensures Publishes(es, Snapshot(Sort(nodes, entryId), sorted))
  {
    SortSorts(nodes, entryId);
    forall m ensures multiset(Candidates(sorted, m)) == multiset(Candidates(models, m)) {}
    forall m | m in sorted ensures sorted[m] != [] {
      SameLength(sorted[m], models[m]);
    }
  }

  lemma NobodyOffers(es: Entries, s: Snapshot, model: string)
    requires Keyed(es) && Publishes(es, s)
    ensures Candidates(s.models, model) == [] <==> forall id :: id in es ==> !Offers(es[id], model)
  {
    var xs := Candidates(s.models, model);
    forall id | id in es ensures Offers(es[id], model) <==> es[id].node in xs {
      ListsOffers(es[id], model);
      assert multiset(xs)[es[id].node] == Occurrences(es, model, es[id].node);
      assert es[id].node in multiset(xs) <==> es[id].node in xs;
    }
    if xs != [] { CandidateOffers(es, s, model, 0); }
  }

  lemma CandidateOffers(es: Entries, s: Snapshot, model: string, i: nat)
    requires Publishes(es, s) && i < |Candidates(s.models, model)|
    ensures var n := Candidates(s.models, model)[i]; n.id in es && es[n.id].node == n && Offers(es[n.id], model)
  {
    var n := Candidates(s.models, model)[i];
    assert n in multiset(Candidates(s.models, model));
    assert multiset(Candidates(s.models, model))[n] == Occurrences(es, model, n);
    ListsOffers(es[n.id], model);
  }

  class Registry {
    var entries: Entries
    var counters: map<string, nat>
    var snap: Snapshot

    /** The published snapshot is the one the entries call for, and only its models have
        round-robin counters. */
    ghost predicate Valid()
      reads this
    {
      Keyed(entries) && Publishes(entries, snap) && counters.Keys <= snap.models.Keys
    }

    constructor ()
      ensures Valid() && entries == map[]
    {
      entries, counters, snap := map[], map[], Snapshot([], map[]);
    }

    /** Visits the entries in any order. */
    method PublishLocked()
      requires Keyed(entries)
      modifies this`counters, this`snap
      ensures Valid() && counters == Pruned(old(counters), snap.models)
    {
      var nodes, models := Collect(entries);
      var sorted := SortRoutes(models);
      SortedPublishes(entries, nodes, models, sorted);
      counters := map m | m in counters && m in sorted :: counters[m];
      snap := Snapshot(Sort(nodes, entryId), sorted);
    }

    method SetNodes(nodes: seq<Node>)
      requires Valid()
      modifies this
      ensures Valid() && entries == DeclareAll(old(entries), nodes)
      ensures counters == Pruned(old(counters), snap.models)
    {
      var next: Entries := map[];
      for i := 0 to |nodes|
        invariant entries == old(entries) && counters == old(counters)
        invariant next == DeclareAll(entries, nodes[..i])
      {
        var n := nodes[i];
        var e := Entry(n, Unknown, None, "", None);
        if n.id in entries && entries[n.id].node.baseURL == n.baseURL {
          var prev := entries[n.id];
          e := e.(health := prev.health, models := prev.models, lastError := prev.lastError,
                  lastCheckedAt := prev.lastCheckedAt);
        }
        assert nodes[..i + 1][..i] == nodes[..i];
        next := next[n.id := e];
      }
      assert nodes[..|nodes|] == nodes;
      DeclareAllKeyed(entries, nodes);
      entries := next;
      PublishLocked();
    }

    method SetNodeState(id: nat, health: Health, models: Option<seq<string>>)
      requires Valid()
      modifies this
      ensures Valid() && entries == StateSpec(old(entries), id, health, models)
      ensures counters == if id in old(entries) then Pruned(old(counters), snap.models) else old(counters)
    {
      if id in entries {
        entries := entries[id := entries[id].(health := health, models := models)];
        PublishLocked();
      }
    }

    method SetNodeProbe(id: nat, p: Probe)
      requires Valid()
      modifies this
      ensures Valid() && entries == ProbeSpec(old(entries), id, p)
      ensures counters == if id in old(entries) then Pruned(old(counters), snap.models) else old(counters)
    {
      if id in entries {
        var e := entries[id];
        e := e.(health := p.health, models := p.models, lastError := p.lastError, lastCheckedAt := p.lastCheckedAt);
        entries := entries[id := e];
        PublishLocked();
      }
    }

    /** A healthy node that lists the model, in turn; `None` exactly when there is none. */
    method Resolve(model: string) returns (n: Option<Node>)
      requires Valid()
      modifies this`counters
      ensures Valid()
      ensures n.Some? ==>
                n.value.id in entries && entries[n.value.id].node == n.value && Offers(entries[n.value.id], model)
      ensures n.None? <==> forall id :: id in entries ==> !Offers(entries[id], model)
      ensures var xs, i := Candidates(snap.models, model), Position(old(counters), snap.models, model);
              n == if xs == [] then None else Some(xs[i])
      ensures counters == Turned(old(counters), snap.models, model)
    {
      var candidates := Candidates(snap.models, model);
      NobodyOffers(entries, snap, model);
      if |candidates| == 0 {
        return None;
      }
      var idx := 0;
      if |candidates| > 1 {
        var c := if model in counters then counters[model] else 0;
        counters := counters[model := c + 1];
        idx := c % |candidates|;
      }
      n := Some(candidates[idx]);
      CandidateOffers(entries, snap, model, idx);
    }
  }
}
