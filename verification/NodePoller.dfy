/** The poller: reconciles its per-node state machines with each loaded node set, runs them on
    probe outcomes, and publishes every result to the registry. */
module NodePoller {
  import opened Common
  import opened NodeRegistry

  /** The probing view of one enabled node.  `baseURL` is the parsed URL printed again. */
  datatype Spec = Spec(id: nat, name: string, baseURL: string, backendType: string, authHeader: string,
                       staticModels: Option<seq<string>>, healthPath: string, timeout: int)

  /** A stored row; `parses` says whether its base URL has a scheme and a host. */
  datatype Row = Row(spec: Spec, enabled: bool, parses: bool)

  const SEP := '\U{1F}'

  const FAILURE_THRESHOLD := 2

  function Join(parts: seq<string>): string {
    if parts == [] then "" else if |parts| == 1 then parts[0] else parts[0] + [SEP] + Join(parts[1..])
  }

  /** Every field that changes what a probe means. */
  function Identity(s: Spec): string {
    Field(s.baseURL, Field(s.backendType, Field(s.authHeader, Field(s.healthPath, ModelsPart(s)))))
  }

  function Field(field: string, rest: string): string {
    field + [SEP] + rest
  }

  function ModelsPart(s: Spec): string {
    match s.staticModels
    case None => "discovery"
    case Some(models) => "static" + [SEP] + Join(models)
  }

  datatype Runtime = Runtime(name: string, identity: string, health: Health, failures: nat,
                             models: Option<seq<string>>, lastProbe: Option<int>)

  type States = map<nat, Runtime>

  datatype Outcome = Success(models: seq<string>, at: int) | Failure(error: string, sweep: bool, at: int)

  const RESET := Probe(Unknown, None, "", None)

  function Fresh(s: Spec): Runtime {
    Runtime(s.name, Identity(s), Unknown, 0, None, None)
  }

  function ReconcileOne(sts: States, es: Entries, s: Spec): (States, Entries) {
    if s.id !in sts then (sts[s.id := Fresh(s)], es)
    else if sts[s.id].identity != Identity(s) then (sts[s.id := Fresh(s)], ProbeSpec(es, s.id, RESET))
    else (sts[s.id := sts[s.id].(name := s.name)], es)
  }

  function ReconcileAll(sts: States, es: Entries, specs: seq<Spec>): (States, Entries) {
    if specs == [] then (sts, es)
    else
      var (sts', es') := ReconcileAll(sts, es, specs[..|specs| - 1]);
      ReconcileOne(sts', es', specs[|specs| - 1])
  }

  function Ids(specs: seq<Spec>): set<nat> {
    set i | 0 <= i < |specs| :: specs[i].id
  }

  function Kept(sts: States, ids: set<nat>): States {
    map id | id in sts && id in ids :: sts[id]
  }

  function NodeFor(s: Spec): Node {
    Node(s.id, s.name, s.baseURL, s.authHeader, s.timeout)
  }

  function NodesFor(specs: seq<Spec>): seq<Node> {
    seq(|specs|, i requires 0 <= i < |specs| => NodeFor(specs[i]))
  }

  /** A load: the registry's node set is replaced, then the poller's state is reconciled. */
  function LoadSpec(sts: States, es: Entries, specs: seq<Spec>): (States, Entries) {
    var (sts', es') := ReconcileAll(sts, DeclareAll(es, NodesFor(specs)), specs);
    (Kept(sts', Ids(specs)), es')
  }

  function Advance(st: Runtime, o: Outcome): Runtime {
    match o
    case Success(models, at) => st.(failures := 0, health := Healthy, models := Some(models), lastProbe := Some(at))
    case Failure(_, sweep, at) =>
      st.(failures := st.failures + 1,
          health := if sweep || st.failures + 1 >= FAILURE_THRESHOLD then Unhealthy else st.health,
          lastProbe := Some(at))
  }

  function ErrorOf(o: Outcome): string {
    if o.Success? then "" else o.error
  }

  function ApplySpec(sts: States, es: Entries, id: nat, o: Outcome): (States, Entries) {
    if id !in sts then (sts, es)
    else
      var st := Advance(sts[id], o);
      (sts[id := st], ProbeSpec(es, id, Probe(st.health, st.models, ErrorOf(o), Some(o.at))))
  }

  function Enabled(rows: seq<Row>): seq<Spec> {
    if rows == [] then []
    else Enabled(rows[..|rows| - 1]) +
         (var r := rows[|rows| - 1]; if r.enabled && r.parses then [r.spec] else [])
  }

  class Poller {
    const reg: Registry
    var state: States
    var lastSpecs: seq<Spec>

    constructor (reg: Registry)
      ensures this.reg == reg && state == map[] && lastSpecs == []
    {
      this.reg := reg;
      state, lastSpecs := map[], [];
    }

    method Load(rows: seq<Row>) returns (specs: seq<Spec>)
      requires reg.Valid()
      modifies this, reg
      ensures reg.Valid() && specs == Enabled(rows) && lastSpecs == specs
      ensures (state, reg.entries) == LoadSpec(old(state), old(reg.entries), specs)
      ensures forall id :: (id in state <==> Serves(rows, id)) && (id in reg.entries <==> Serves(rows, id))
    {
      specs := [];
      var regNodes: seq<Node> := [];
      for i := 0 to |rows|
        invariant state == old(state) && reg.entries == old(reg.entries) && reg.Valid()
        invariant specs == Enabled(rows[..i]) && regNodes == NodesFor(specs)
      {
        assert rows[..i + 1][..i] == rows[..i];
        if rows[i].enabled && rows[i].parses {
          specs := specs + [rows[i].spec];
          regNodes := regNodes + [NodeFor(rows[i].spec)];
        }
      }
      assert rows[..|rows|] == rows;
      reg.SetNodes(regNodes);
      Reconcile(specs);
      forall id ensures (id in state <==> Serves(rows, id)) && (id in reg.entries <==> Serves(rows, id)) {
        LoadKnows(old(state), old(reg.entries), rows, id);
      }
    }

    method Reconcile(specs: seq<Spec>)
      requires reg.Valid()
      modifies this, reg
      ensures reg.Valid() && lastSpecs == specs
      ensures var (sts, es) := ReconcileAll(old(state), old(reg.entries), specs);
              state == Kept(sts, Ids(specs)) && reg.entries == es
    {
      for i := 0 to |specs|
        invariant reg.Valid()
        invariant (state, reg.entries) == ReconcileAll(old(state), old(reg.entries), specs[..i])
      {
        assert specs[..i + 1][..i] == specs[..i];
        ReconcileNode(specs[i]);
      }
      assert specs[..|specs|] == specs;
      DropAbsent(Ids(specs));
      lastSpecs := specs;
    }

    method ReconcileNode(s: Spec)
      requires reg.Valid()
      modifies this`state, reg
      ensures reg.Valid() && (state, reg.entries) == ReconcileOne(old(state), old(reg.entries), s)
    {
      if s.id !in state {
        state := state[s.id := Runtime(s.name, Identity(s), Unknown, 0, None, None)];
        return;
      }
      var st := state[s.id];
      if st.identity != Identity(s) {
        st := st.(identity := Identity(s), health := Unknown, failures := 0, models := None, lastProbe := None);
        reg.SetNodeProbe(s.id, RESET);
      }
      st := st.(name := s.name);
      state := state[s.id := st];
    }

    /** Visits the states in any order. */
    method DropAbsent(current: set<nat>)
      modifies this`state
      ensures state == Kept(old(state), current)
    {
      var todo := state.Keys;
      while todo != {}
        invariant todo <= old(state).Keys
        invariant forall id :: id in state <==> id in old(state) && (id in todo || id in current)
        invariant forall id :: id in state ==> state[id] == old(state)[id]
        decreases |todo|
      {
        var id :| id in todo;
        todo := todo - {id};
        if id !in current {
          state := state - {id};
        }
      }
    }

    method Apply(id: nat, o: Outcome)
      requires reg.Valid()
      modifies this`state, reg
      ensures reg.Valid() && (state, reg.entries) == ApplySpec(old(state), old(reg.entries), id, o)
    {
      if id !in state {
        return;
      }
      var st, lastErr := state[id], "";
      match o {
        case Success(models, _) =>
          st := st.(failures := 0, health := Healthy, models := Some(models));
        case Failure(error, sweep, _) =>
          lastErr := error;
          st := st.(failures := st.failures + 1);
          if sweep || st.failures >= FAILURE_THRESHOLD {
            st := st.(health := Unhealthy);
          }
      }
      st := st.(lastProbe := Some(o.at));
      state := state[id := st];
      reg.SetNodeProbe(id, Probe(st.health, st.models, lastErr, Some(o.at)));
    }
  }

  // ---- Health as a closed form of outcomes --------------------------------------------------

  function TrailingFailures(h: seq<Outcome>): nat {
    if h == [] || h[|h| - 1].Success? then 0 else 1 + TrailingFailures(h[..|h| - 1])
  }

  /** The node's health read off its outcomes since its last identity change. */
  ghost function ClosedHealth(h: seq<Outcome>): Health {
    var run := TrailingFailures(h);
    if h == [] then Unknown
    else if run == 0 then Healthy
    else if run >= 2 || h[|h| - 1].sweep then Unhealthy
    else if |h| == 1 then Unknown else Healthy
  }

  function LastModels(h: seq<Outcome>): Option<seq<string>> {
    if h == [] then None
    else if h[|h| - 1].Success? then Some(h[|h| - 1].models) else LastModels(h[..|h| - 1])
  }

  function LastAt(h: seq<Outcome>): Option<int> {
    if h == [] then None else Some(h[|h| - 1].at)
  }

  function LastError(h: seq<Outcome>): string {
    if h == [] then ""
    else match h[|h| - 1]
         case Success(_, _) => ""
         case Failure(error, _, _) => error
  }

  /** The whole system, with each node's outcomes since its last identity change. */
  datatype Net = Net(sts: States, es: Entries, history: map<nat, seq<Outcome>>)

  datatype Event = Loaded(rows: seq<Row>) | Probed(id: nat, outcome: Outcome)

  const START := Net(map[], map[], map[])

  function Step(n: Net, e: Event): Net {
    match e
    case Loaded(rows) =>
      var (sts, es) := LoadSpec(n.sts, n.es, Enabled(rows));
      Net(sts, es, map id | id in sts ::
            if id in n.sts && id in n.history && n.sts[id].identity == sts[id].identity then n.history[id] else [])
    case Probed(id, o) =>
      var (sts, es) := ApplySpec(n.sts, n.es, id, o);
      Net(sts, es, if id in n.sts && id in n.history then n.history[id := n.history[id] + [o]] else n.history)
  }

  function Run(n: Net, events: seq<Event>): Net {
    if events == [] then n else Step(Run(n, events[..|events| - 1]), events[|events| - 1])
  }

  /** Node ids are a primary key, and a printed URL escapes control characters. */
  ghost predicate GoodSpecs(specs: seq<Spec>) {
    && (forall i, j :: 0 <= i < j < |specs| ==> specs[i].id != specs[j].id)
    && (forall i :: 0 <= i < |specs| ==> SEP !in specs[i].baseURL)
  }

  /** The identity's first field. */
  function UrlOf(identity: string): string {
    if identity == [] || identity[0] == SEP then "" else [identity[0]] + UrlOf(identity[1..])
  }

  lemma {:induction false} UrlOfPrefix(url: string, rest: string)
    requires SEP !in url
    ensures UrlOf(Field(url, rest)) == url
  {
    var all := Field(url, rest);
    if url != "" {
      assert all[1..] == url[1..] + [SEP] + rest;
      UrlOfPrefix(url[1..], rest);
    }
  }

  lemma IdentityTellsUrl(s: Spec)
    requires SEP !in s.baseURL
    ensures UrlOf(Identity(s)) == s.baseURL
  {
    UrlOfPrefix(s.baseURL, Field(s.backendType, Field(s.authHeader, Field(s.healthPath, ModelsPart(s)))));
  }

  /** The four leading fields of an identity hold no separator: a printed URL, one of two backend
      names, and two validated printable strings. */
  ghost predicate Separable(s: Spec) {
    SEP !in s.baseURL && SEP !in s.backendType && SEP !in s.authHeader && SEP !in s.healthPath
  }

  lemma {:induction false} FieldsSplit(a: string, x: string, b: string, y: string)
    requires SEP !in a && SEP !in b && Field(a, x) == Field(b, y)
    ensures a == b && x == y
  {
    var l, r := Field(a, x), Field(b, y);
    if a == "" || b == "" {
      assert l[0] == r[0];
      assert l[|a|] == SEP && r[|b|] == SEP;
      assert a == b;
      assert l[1..] == x && r[1..] == y;
    } else {
      assert l[0] == r[0];
      assert l[1..] == Field(a[1..], x) && r[1..] == Field(b[1..], y);
      FieldsSplit(a[1..], x, b[1..], y);
      assert a == [a[0]] + a[1..] && b == [b[0]] + b[1..];
    }
  }

  lemma IdentityFields(s: Spec, t: Spec)
    requires Separable(s) && Separable(t) && Identity(s) == Identity(t)
    ensures s.baseURL == t.baseURL && s.backendType == t.backendType && s.authHeader == t.authHeader
    ensures s.healthPath == t.healthPath && ModelsPart(s) == ModelsPart(t)
  {
    hide Field, ModelsPart;
    var s4, t4 := Field(s.healthPath, ModelsPart(s)), Field(t.healthPath, ModelsPart(t));
    var s3, t3 := Field(s.authHeader, s4), Field(t.authHeader, t4);
    FieldsSplit(s.baseURL, Field(s.backendType, s3), t.baseURL, Field(t.backendType, t3));
    FieldsSplit(s.backendType, s3, t.backendType, t3);
    FieldsSplit(s.authHeader, s4, t.authHeader, t4);
    FieldsSplit(s.healthPath, ModelsPart(s), t.healthPath, ModelsPart(t));
  }

  /** Exactly when a reload resets a node: two specs have one identity if and only if they agree on
      the four leading fields and either both discover or pin lists that join to the same text. */
  lemma IdentityExact(s: Spec, t: Spec)
    requires Separable(s) && Separable(t)
    ensures Identity(s) == Identity(t) <==>
            && s.baseURL == t.baseURL && s.backendType == t.backendType && s.authHeader == t.authHeader
            && s.healthPath == t.healthPath && (s.staticModels.None? <==> t.staticModels.None?)
            && (s.staticModels.Some? && t.staticModels.Some? ==>
                  Join(s.staticModels.value) == Join(t.staticModels.value))
  {
    if Identity(s) == Identity(t) {
      IdentityFields(s, t);
      var p, q := ModelsPart(s), ModelsPart(t);
      assert s.staticModels.None? <==> p[0] == 'd';
      assert t.staticModels.None? <==> q[0] == 'd';
      if s.staticModels.Some? {
        assert p == "static" + [SEP] + Join(s.staticModels.value) && q == "static" + [SEP] + Join(t.staticModels.value);
        assert p[7..] == Join(s.staticModels.value) && q[7..] == Join(t.staticModels.value);
      }
    }
  }

  ghost predicate Plain(models: seq<string>) {
    forall i :: 0 <= i < |models| ==> SEP !in models[i]
  }

  lemma JoinHasSeparator(models: seq<string>)
    requires |models| >= 2
    ensures Join(models) == Field(models[0], Join(models[1..])) && SEP in Join(models)
  {
    assert Join(models)[|models[0]|] == SEP;
  }

  /** Lists of names without separator join to the same text only if they are equal or one is empty
      and the other holds one empty name. */
  lemma {:induction false} JoinExact(a: seq<string>, b: seq<string>)
    requires Plain(a) && Plain(b)
    ensures Join(a) == Join(b) <==> a == b || (a == [] && b == [""]) || (a == [""] && b == [])
    decreases |a|
  {
    if |a| >= 2 { JoinHasSeparator(a); }
    if |b| >= 2 { JoinHasSeparator(b); }
    if |a| >= 2 && |b| >= 2 {
      JoinExact(a[1..], b[1..]);
      if Join(a) == Join(b) {
        FieldsSplit(a[0], Join(a[1..]), b[0], Join(b[1..]));
        assert a == [a[0]] + a[1..] && b == [b[0]] + b[1..];
      }
    }
  }

  /** So pinning no model and pinning one nameless model are told apart by nothing. */
  lemma EmptyPinCollides(s: Spec)
    ensures Identity(s.(staticModels := Some([]))) == Identity(s.(staticModels := Some([""])))
  {
    assert Join([]) == Join([""]);
  }

  ghost predicate InClosedForm(st: Runtime, e: Entry, h: seq<Outcome>) {
    && st.health == ClosedHealth(h) && st.failures == TrailingFailures(h)
    && st.models == LastModels(h) && st.lastProbe == LastAt(h)
    && e.health == st.health && e.models == st.models && e.lastCheckedAt == st.lastProbe && e.lastError == LastError(h)
    && UrlOf(st.identity) == e.node.baseURL
  }

  ghost predicate Inv(n: Net) {
    && n.sts.Keys == n.es.Keys == n.history.Keys && Keyed(n.es)
    && forall id :: id in n.sts ==> InClosedForm(n.sts[id], n.es[id], n.history[id])
  }

  /** The hysteresis: one more outcome moves the machine along its closed form.  A sweep failure
      that is followed by more failures is already in a run of two. */
  lemma AdvanceIsClosedForm(st: Runtime, e: Entry, h: seq<Outcome>, o: Outcome)
    requires InClosedForm(st, e, h)
    ensures var st' := Advance(st, o);
            InClosedForm(st', Entry(e.node, st'.health, st'.models, ErrorOf(o), Some(o.at)), h + [o])
  {
    assert (h + [o])[..|h|] == h;
  }

  lemma {:induction false} DeclaredAt(es: Entries, specs: seq<Spec>, i: nat)
    requires GoodSpecs(specs) && i < |specs|
    ensures specs[i].id in DeclareAll(es, NodesFor(specs))
    ensures DeclareAll(es, NodesFor(specs))[specs[i].id] == Declared(es, NodeFor(specs[i]))
  {
    var front := specs[..|specs| - 1];
    assert NodesFor(specs)[..|specs| - 1] == NodesFor(front);
    if i < |front| {
      DeclaredAt(es, front, i);
    }
  }

  ghost predicate SameAt<V>(m: map<nat, V>, m': map<nat, V>, id: nat) {
    (id in m <==> id in m') && (id in m ==> m[id] == m'[id])
  }

  lemma ReconcileElsewhere(sts: States, es: Entries, s: Spec, id: nat)
    requires s.id != id
    ensures var (a, b) := ReconcileOne(sts, es, s); SameAt(a, sts, id) && SameAt(b, es, id)
  {}

  lemma {:induction false} ReconciledElsewhere(sts: States, es: Entries, specs: seq<Spec>, id: nat)
    requires forall i :: 0 <= i < |specs| ==> specs[i].id != id
    ensures var (sts', es') := ReconcileAll(sts, es, specs); SameAt(sts', sts, id) && SameAt(es', es, id)
  {
    hide ReconcileOne;
    if specs != [] {
      var front := specs[..|specs| - 1];
      ReconciledElsewhere(sts, es, front, id);
      var (sts', es') := ReconcileAll(sts, es, front);
      ReconcileElsewhere(sts', es', specs[|specs| - 1], id);
    }
  }

  /** Reconciling one spec reads and writes only its own id. */
  lemma ReconcileLocal(sts: States, es: Entries, sts': States, es': Entries, s: Spec)
    requires SameAt(sts, sts', s.id) && SameAt(es, es', s.id)
    ensures var (a, b) := ReconcileOne(sts, es, s);
            var (a', b') := ReconcileOne(sts', es', s);
            s.id in a && SameAt(a, a', s.id) && SameAt(b, b', s.id) && (s.id in b <==> s.id in es)
  {
    hide Identity;
  }

  lemma {:induction false} ReconciledAt(sts: States, es: Entries, specs: seq<Spec>, i: nat)
    requires GoodSpecs(specs) && i < |specs|
    ensures var (sts', es') := ReconcileAll(sts, es, specs);
            var (a, b) := ReconcileOne(sts, es, specs[i]);
            var id := specs[i].id;
            id in a && SameAt(sts', a, id) && SameAt(es', b, id) && (id in b <==> id in es)
  {
    hide ReconcileOne;
    var front, last := specs[..|specs| - 1], specs[|specs| - 1];
    var (sts', es') := ReconcileAll(sts, es, front);
    if i < |front| {
      ReconciledAt(sts, es, front, i);
      ReconcileElsewhere(sts', es', last, specs[i].id);
    } else {
      ReconciledElsewhere(sts, es, front, last.id);
      ReconcileLocal(sts, es, sts', es', last);
    }
  }

  lemma LoadedAt(n: Net, specs: seq<Spec>, i: nat)
    requires Inv(n) && GoodSpecs(specs) && i < |specs|
    ensures var (sts, es) := LoadSpec(n.sts, n.es, specs);
            var id, s := specs[i].id, specs[i];
            id in sts && id in es && sts[id].identity == Identity(s) && sts[id].name == s.name &&
            es[id].node == NodeFor(s) &&
            InClosedForm(sts[id], es[id],
                         if id in n.sts && n.sts[id].identity == Identity(s) then n.history[id] else [])
  {
    var s, id := specs[i], specs[i].id;
    DeclaredAt(n.es, specs, i);
    ReconciledAt(n.sts, DeclareAll(n.es, NodesFor(specs)), specs, i);
    IdentityTellsUrl(s);
    assert id in Ids(specs);
    assert id in n.sts ==> InClosedForm(n.sts[id], n.es[id], n.history[id]);
  }

  lemma UnloadedGone(n: Net, specs: seq<Spec>, id: nat)
    requires forall i :: 0 <= i < |specs| ==> specs[i].id != id
    ensures var (sts, es) := LoadSpec(n.sts, n.es, specs); id !in sts && id !in es
  {
    hide ReconcileOne, ReconcileAll, DeclareAll;
    var declared := DeclareAll(n.es, NodesFor(specs));
    DeclareAllKeyed(n.es, NodesFor(specs));
    ReconciledElsewhere(n.sts, declared, specs, id);
  }

  lemma LoadKeys(n: Net, specs: seq<Spec>)
    requires Inv(n) && GoodSpecs(specs)
    ensures var (sts, es) := LoadSpec(n.sts, n.es, specs); sts.Keys == Ids(specs) == es.Keys
  {
    var (sts, es) := LoadSpec(n.sts, n.es, specs);
    hide LoadSpec, InClosedForm, Inv, GoodSpecs;
    forall id ensures (id in sts <==> id in Ids(specs)) && (id in es <==> id in Ids(specs)) {
      if i :| 0 <= i < |specs| && specs[i].id == id {
        LoadedAt(n, specs, i);
      } else {
        UnloadedGone(n, specs, id);
      }
    }
  }

  /** Rows have distinct ids, a primary key, and a printed URL escapes control characters. */
  ghost predicate GoodRows(rows: seq<Row>) {
    (forall i, j :: 0 <= i < j < |rows| ==> rows[i].spec.id != rows[j].spec.id) &&
    (forall i :: 0 <= i < |rows| ==> SEP !in rows[i].spec.baseURL)
  }

  /** The specs are those of the rows at these places. */
  ghost predicate Picks(rows: seq<Row>, at: seq<nat>, specs: seq<Spec>) {
    && |at| == |specs|
    && (forall k :: 0 <= k < |at| ==>
          at[k] < |rows| && rows[at[k]].enabled && rows[at[k]].parses && specs[k] == rows[at[k]].spec)
    && (forall j, k :: 0 <= j < k < |at| ==> at[j] < at[k])
    && (forall i: nat :: i < |rows| && rows[i].enabled && rows[i].parses ==> i in at)
  }

  /** What is loaded, in row order, are the rows that are enabled and have a URL that parses, and no others. */
  lemma {:induction false} EnabledExactly(rows: seq<Row>) returns (at: seq<nat>)
    ensures Picks(rows, at, Enabled(rows))
  {
    if rows == [] {
      at := [];
    } else {
      var n := |rows| - 1;
      at := EnabledExactly(rows[..n]);
      var specs := Enabled(rows[..n]);
      hide Picks;
      if rows[n].enabled && rows[n].parses {
        at := PicksLast(rows, at, specs);
      } else {
        PicksSkip(rows, at, specs);
        assert specs + [] == specs;
      }
    }
  }

  lemma PicksSkip(rows: seq<Row>, at: seq<nat>, specs: seq<Spec>)
    requires rows != [] && Picks(rows[..|rows| - 1], at, specs)
    requires !(rows[|rows| - 1].enabled && rows[|rows| - 1].parses)
    ensures Picks(rows, at, specs)
  {
    var n: nat := |rows| - 1;
    forall i: nat | i < |rows| && rows[i].enabled && rows[i].parses ensures i in at {
      assert rows[..n][i] == rows[i];
    }
  }

  lemma PicksLast(rows: seq<Row>, at: seq<nat>, specs: seq<Spec>) returns (more: seq<nat>)
    requires rows != [] && Picks(rows[..|rows| - 1], at, specs)
    requires rows[|rows| - 1].enabled && rows[|rows| - 1].parses
    ensures Picks(rows, more, specs + [rows[|rows| - 1].spec])
  {
    var n: nat := |rows| - 1;
    more := at + [n];
    assert more[|at|] == n;
    forall i: nat | i < |rows| && rows[i].enabled && rows[i].parses ensures i in more {
      if i < n { assert rows[..n][i] == rows[i] && i in at; }
    }
  }

  lemma EnabledGood(rows: seq<Row>)
    requires GoodRows(rows)
    ensures GoodSpecs(Enabled(rows))
  {
    var at := EnabledExactly(rows);
    hide Enabled;
  }

  /** The rows let the node of this id be served. */
  ghost predicate Serves(rows: seq<Row>, id: nat) {
    exists i :: 0 <= i < |rows| && rows[i].spec.id == id && rows[i].enabled && rows[i].parses
  }

  lemma EnabledIds(rows: seq<Row>, id: nat)
    ensures id in Ids(Enabled(rows)) <==> Serves(rows, id)
  {
    var at := EnabledExactly(rows);
    var specs := Enabled(rows);
    hide Enabled;
    if Serves(rows, id) {
      var i: nat :| i < |rows| && rows[i].spec.id == id && rows[i].enabled && rows[i].parses;
      var k :| 0 <= k < |at| && at[k] == i;
      assert specs[k].id == id;
    }
  }

  lemma IdsLast(specs: seq<Spec>, id: nat)
    ensures specs == [] ==> id !in Ids(specs)
    ensures specs != [] ==> (id in Ids(specs) <==> id in Ids(specs[..|specs| - 1]) || id == specs[|specs| - 1].id)
  {}

  lemma {:induction false} ReconciledKeys(sts: States, es: Entries, specs: seq<Spec>, id: nat)
    ensures var (sts', es') := ReconcileAll(sts, es, specs);
            (id in sts' <==> id in sts || id in Ids(specs)) && (id in es' <==> id in es)
  {
    hide ReconcileOne, Ids;
    IdsLast(specs, id);
    if specs != [] {
      var front := specs[..|specs| - 1];
      ReconciledKeys(sts, es, front, id);
      var (sts', es') := ReconcileAll(sts, es, front);
      ReconcileKeys(sts', es', specs[|specs| - 1], id);
    }
  }

  lemma ReconcileKeys(sts: States, es: Entries, s: Spec, id: nat)
    ensures var (a, b) := ReconcileOne(sts, es, s); (id in a <==> id in sts || id == s.id) && (id in b <==> id in es)
  {}

  /** After a load, whatever was known before, poller and registry know exactly the nodes served. */
  lemma LoadKnows(sts: States, es: Entries, rows: seq<Row>, id: nat)
    ensures var (sts', es') := LoadSpec(sts, es, Enabled(rows));
            (id in sts' <==> Serves(rows, id)) && (id in es' <==> Serves(rows, id))
  {
    var specs := Enabled(rows);
    var declared := DeclareAll(es, NodesFor(specs));
    EnabledIds(rows, id);
    hide Enabled, Serves;
    DeclareAllKeyed(es, NodesFor(specs));
    ReconciledKeys(sts, declared, specs, id);
    NodesForIds(specs, id);
    hide ReconcileAll, DeclareAll;
  }

  lemma NodesForIds(specs: seq<Spec>, id: nat)
    ensures id in Ids(specs) <==> exists i :: 0 <= i < |NodesFor(specs)| && NodesFor(specs)[i].id == id
  {
    if id in Ids(specs) {
      var i :| 0 <= i < |specs| && specs[i].id == id;
      assert NodesFor(specs)[i].id == id;
    }
  }

  lemma LoadKeepsInv(n: Net, rows: seq<Row>)
    requires Inv(n) && GoodRows(rows)
    ensures Inv(Step(n, Loaded(rows)))
  {
    hide InClosedForm, LoadSpec, GoodSpecs, GoodRows, Enabled;
    var specs := Enabled(rows);
    EnabledGood(rows);
    var m := Step(n, Loaded(rows));
    LoadKeys(n, specs);
    forall id | id in m.sts ensures InClosedForm(m.sts[id], m.es[id], m.history[id]) && m.es[id].node.id == id {
      var i :| 0 <= i < |specs| && specs[i].id == id;
      LoadedAt(n, specs, i);
    }
  }

  lemma ProbeKeepsInv(n: Net, id: nat, o: Outcome)
    requires Inv(n)
    ensures Inv(Step(n, Probed(id, o)))
  {
    hide InClosedForm, Advance;
    if id in n.sts {
      AdvanceIsClosedForm(n.sts[id], n.es[id], n.history[id], o);
    }
  }

  /** After any loads and applied probes, each node's state and its registry entry are the closed
      form of its outcomes since its last identity change. */
  lemma {:induction false} HealthIsClosedForm(events: seq<Event>)
    requires forall i :: 0 <= i < |events| && events[i].Loaded? ==> GoodRows(events[i].rows)
    ensures Inv(Run(START, events))
  {
    if events != [] {
      HealthIsClosedForm(events[..|events| - 1]);
      var n, e := Run(START, events[..|events| - 1]), events[|events| - 1];
      match e
      case Loaded(rows) => LoadKeepsInv(n, rows);
      case Probed(id, o) => ProbeKeepsInv(n, id, o);
    }
  }

  /** So a model is routed to exactly the nodes whose outcomes say healthy and whose last success
      listed it, as often as that success did. */
  lemma RoutingFollowsOutcomes(events: seq<Event>, s: Snapshot, model: string, id: nat)
    requires forall i :: 0 <= i < |events| && events[i].Loaded? ==> GoodRows(events[i].rows)
    requires Publishes(Run(START, events).es, s) && id in Run(START, events).es
    ensures var n := Run(START, events);
            id in n.history &&
            multiset(Candidates(s.models, model))[n.es[id].node] ==
            if ClosedHealth(n.history[id]) == Healthy && LastModels(n.history[id]).Some?
            then multiset(LastModels(n.history[id]).value)[model] else 0
  {
    HealthIsClosedForm(events);
    var n := Run(START, events);
    assert InClosedForm(n.sts[id], n.es[id], n.history[id]);
    assert multiset(Candidates(s.models, model))[n.es[id].node] == Occurrences(n.es, model, n.es[id].node);
  }

  // ---- From the rows to the routes -----------------------------------------------------------------------

  /** The rows of the last load. */
  ghost function LastRows(events: seq<Event>): seq<Row> {
    if events == [] then []
    else if events[|events| - 1].Loaded? then events[|events| - 1].rows
    else LastRows(events[..|events| - 1])
  }

  lemma AdvanceKeepsNames(st: Runtime, o: Outcome)
    ensures Advance(st, o).name == st.name && Advance(st, o).identity == st.identity
  {}

  lemma ProbeKeepsNodes(n: Net, id: nat, o: Outcome, x: nat)
    ensures var m := Step(n, Probed(id, o));
            (x in m.es <==> x in n.es) && (x in m.es ==> m.es[x].node == n.es[x].node) && m.sts.Keys == n.sts.Keys &&
            (x in m.sts ==> m.sts[x].name == n.sts[x].name && m.sts[x].identity == n.sts[x].identity)
  {
    if id in n.sts { AdvanceKeepsNames(n.sts[id], o); }
    hide Advance;
  }

  /** At any time poller and registry know exactly the nodes that the last load found enabled and parsable. */
  lemma {:induction false} KnowsTheServed(events: seq<Event>, id: nat)
    ensures var n := Run(START, events);
            (id in n.sts <==> Serves(LastRows(events), id)) && (id in n.es <==> Serves(LastRows(events), id))
  {
    hide LoadSpec, Serves, ApplySpec;
    if events == [] {
      NothingServed(id);
    } else {
      var front, e := events[..|events| - 1], events[|events| - 1];
      KnowsTheServed(front, id);
      var n := Run(START, front);
      match e
      case Loaded(rows) => LoadKnows(n.sts, n.es, rows, id);
      case Probed(x, o) => ProbeKeepsNodes(n, x, o, id);
    }
  }

  lemma NothingServed(id: nat)
    ensures !Serves([], id)
  {}

  /** And each by the name, URL, credentials and timeout of its row. */
  lemma {:induction false} KnowsTheRow(events: seq<Event>, i: nat)
    requires forall k :: 0 <= k < |events| && events[k].Loaded? ==> GoodRows(events[k].rows)
    requires i < |LastRows(events)| && LastRows(events)[i].enabled && LastRows(events)[i].parses
    ensures var n, s := Run(START, events), LastRows(events)[i].spec;
            s.id in n.es && n.es[s.id].node == Node(s.id, s.name, s.baseURL, s.authHeader, s.timeout) &&
            s.id in n.sts && n.sts[s.id].name == s.name && n.sts[s.id].identity == Identity(s)
  {
    var front, e := events[..|events| - 1], events[|events| - 1];
    var n := Run(START, front);
    match e
    case Loaded(rows) =>
      HealthIsClosedForm(front);
      EnabledGood(rows);
      var at := EnabledExactly(rows);
      var k :| 0 <= k < |at| && at[k] == i;
      hide Enabled, LoadSpec, InClosedForm, Inv, GoodSpecs;
      LoadedAt(n, Enabled(rows), k);
    case Probed(id, o) =>
      KnowsTheRow(front, i);
      ProbeKeepsNodes(n, id, o, LastRows(events)[i].spec.id);
  }

  /** So no model is routed to a node that is disabled, unparsable or gone, until a later load finds it enabled
      again. */
  lemma DisabledNeverRouted(events: seq<Event>, s: Snapshot, model: string, n: Node)
    requires Publishes(Run(START, events).es, s) && n in Candidates(s.models, model)
    ensures Serves(LastRows(events), n.id)
  {
    OccurringNode(Run(START, events).es, s.models, model, n);
    KnowsTheServed(events, n.id);
  }
}
