/** Merging the declared nodes into the table. */
module NodeMerge {
  import opened Common
  import opened NodeStore
  import opened DeclaredNodes
  import EnvExpansion

  // ---- What the merge leaves --------------------------------------------------------------------

  /** The declaration of a name, if it is declared. */
  function Declaration(ns: seq<Node>, name: string): (d: Option<Node>)
    ensures d.Some? ==> d.value in ns && d.value.name == name
    ensures d.None? ==> forall i :: 0 <= i < |ns| ==> ns[i].name != name
  {
    if ns == [] then None
    else if ns[|ns| - 1].name == name then Some(ns[|ns| - 1])
    else Declaration(ns[..|ns| - 1], name)
  }

  function UpdatedRow(row: Row, ns: seq<Node>, now: int): Row {
    match Declaration(ns, row.node.name)
    case Some(d) => row.(node := d.(source := row.node.source), updated := now)
    case None => row
  }

  /** A declared row takes the declared fields; an undeclared enabled row of the configuration is
      disabled; any other row is left alone. */
  function MergedRow(row: Row, ns: seq<Node>, now: int): Row {
    if Declaration(ns, row.node.name).None? && row.node.source == Config && row.node.enabled then
      row.(node := row.node.(enabled := false), updated := now)
    else UpdatedRow(row, ns, now)
  }

  ghost predicate HasName(rows: seq<Row>, name: string) {
    exists i :: 0 <= i < |rows| && rows[i].node.name == name
  }

  /** Rows for the declared names that no row has yet, in the order declared, on consecutive ids. */
  ghost function NewRows(ns: seq<Node>, rows: seq<Row>, id: nat, now: int): seq<Row> {
    if ns == [] then []
    else
      var front := NewRows(ns[..|ns| - 1], rows, id, now);
      var n := ns[|ns| - 1];
      if HasName(rows, n.name) then front else front + [Row(id + |front|, n, now, now)]
  }

  /** Part-way through the merge: everything declared is written and the first `done` rows that were
      there have been considered for disabling. */
  function Midway(rows: seq<Row>, ns: seq<Node>, done: nat, now: int): seq<Row> {
    seq(|rows|, i requires 0 <= i < |rows| =>
      if i < done then MergedRow(rows[i], ns, now) else UpdatedRow(rows[i], ns, now))
  }

  ghost function Merged(rows: seq<Row>, ns: seq<Node>, id: nat, now: int): seq<Row> {
    Midway(rows, ns, |rows|, now) + NewRows(ns, rows, id, now)
  }

  /** A merge that got no further than writing ns. */
  ghost function Stopped(rows: seq<Row>, ns: seq<Node>, id: nat, now: int): seq<Row> {
    Midway(rows, ns, 0, now) + NewRows(ns, rows, id, now)
  }

  ghost predicate CollidesAt(rows: seq<Row>, n: Node, j: int) {
    0 <= j < |rows| && rows[j].node.name == n.name && rows[j].node.source == Api
  }

  /** A declared name belongs to a node registered through the API. */
  ghost predicate Collides(rows: seq<Row>, ns: seq<Node>) {
    exists i, j :: 0 <= i < |ns| && CollidesAt(rows, ns[i], j)
  }

  /** The error names the first such declaration and the row it collides with. */
  ghost predicate FirstCollision(rows: seq<Row>, ns: seq<Node>, error: Error) {
    exists i, j :: 0 <= i < |ns| && CollidesAt(rows, ns[i], j) && !Collides(rows, ns[..i]) &&
                   error == Collision(ns[i].name, rows[j].id)
  }

  // ---- The merge --------------------------------------------------------------------------------

  ghost predicate Indexed(byName: map<string, Row>, rows: seq<Row>) {
    (forall name :: name in byName <==> HasName(rows, name)) &&
    (forall name :: name in byName ==> byName[name] in rows && byName[name].node.name == name)
  }

  method IndexByName(rows: seq<Row>) returns (byName: map<string, Row>)
    ensures Indexed(byName, rows)
  {
    byName := map[];
    for i := 0 to |rows|
      invariant Indexed(byName, rows[..i])
    {
      HasOneMore(rows[..i], rows[i]);
      assert rows[..i + 1] == rows[..i] + [rows[i]];
      byName := byName[rows[i].node.name := rows[i]];
    }
    assert rows[..|rows|] == rows;
  }

  lemma HasOneMore(rows: seq<Row>, row: Row)
    ensures forall name :: HasName(rows + [row], name) <==> HasName(rows, name) || name == row.node.name
  {
    forall name ensures HasName(rows + [row], name) <==> HasName(rows, name) || name == row.node.name {
      if HasName(rows, name) {
        var i :| 0 <= i < |rows| && rows[i].node.name == name;
        assert (rows + [row])[i].node.name == name;
      }
      assert (rows + [row])[|rows|] == row;
    }
  }

  lemma NoCollision(rows: seq<Row>, byName: map<string, Row>, d: Node)
    requires Indexed(byName, rows) && DistinctNames(rows)
    requires d.name in byName ==> byName[d.name].node.source == Config
    ensures forall j :: !CollidesAt(rows, d, j)
  {}

  method FindCollision(rows: seq<Row>, byName: map<string, Row>, ns: seq<Node>) returns (r: Option<Error>)
    requires Indexed(byName, rows) && DistinctNames(rows)
    ensures r.None? <==> !Collides(rows, ns)
    ensures r.Some? ==> FirstCollision(rows, ns, r.value)
  {
    for i := 0 to |ns|
      invariant !Collides(rows, ns[..i])
    {
      var d := ns[i];
      if d.name in byName && byName[d.name].node.source != Config {
        var ex := byName[d.name];
        var j :| 0 <= j < |rows| && rows[j] == ex;
        assert CollidesAt(rows, ns[i], j);
        return Some(Collision(d.name, ex.id));
      }
      NoCollision(rows, byName, d);
    }
    assert ns[..|ns|] == ns;
    return None;
  }

  lemma UpdateStep(rows: seq<Row>, ms: seq<Node>, d: Node, k: nat, id: nat, now: int)
    requires DistinctNames(rows) && Declaration(ms, d.name).None?
    requires k < |rows| && rows[k].node.name == d.name
    ensures Midway(rows, ms + [d], 0, now) == Updated(Midway(rows, ms, 0, now), k, d, now)
    ensures NewRows(ms + [d], rows, id, now) == NewRows(ms, rows, id, now)
  {
    var ns := ms + [d];
    assert ns[..|ns| - 1] == ms;
    forall i | 0 <= i < |rows| ensures Midway(rows, ns, 0, now)[i] == Updated(Midway(rows, ms, 0, now), k, d, now)[i] {
      if i != k { NamesDiffer(rows, i, k); }
    }
  }

  lemma NamesDiffer(rows: seq<Row>, i: nat, k: nat)
    requires DistinctNames(rows) && i < |rows| && k < |rows| && i != k
    ensures rows[i].node.name != rows[k].node.name
  {}

  lemma CreateStep(rows: seq<Row>, ms: seq<Node>, d: Node, id: nat, now: int)
    requires !HasName(rows, d.name)
    ensures Midway(rows, ms + [d], 0, now) == Midway(rows, ms, 0, now)
    ensures var front := NewRows(ms, rows, id, now);
            NewRows(ms + [d], rows, id, now) == front + [Row(id + |front|, d, now, now)]
  {
    var ns := ms + [d];
    assert ns[..|ns| - 1] == ms;
    forall i | 0 <= i < |rows| ensures UpdatedRow(rows[i], ns, now) == UpdatedRow(rows[i], ms, now) {
      assert rows[i].node.name != d.name;
    }
  }

  lemma DisableStep(rows: seq<Row>, ns: seq<Node>, j: nat, now: int)
    requires j < |rows|
    ensures Midway(rows, ns, j + 1, now) ==
            if Declaration(ns, rows[j].node.name).None? && rows[j].node.source == Config && rows[j].node.enabled
            then Updated(Midway(rows, ns, j, now), j, rows[j].node.(enabled := false), now)
            else Midway(rows, ns, j, now)
  {}

  lemma MidwayRows(rows: seq<Row>, ns: seq<Node>, done: nat, now: int)
    ensures var p := Midway(rows, ns, done, now);
            |p| == |rows| &&
            forall i :: 0 <= i < |rows| ==> p[i].id == rows[i].id && p[i].node.name == rows[i].node.name
  {}

  lemma {:induction false} NewRowsDeclared(ns: seq<Node>, rows: seq<Row>, id: nat, now: int)
    ensures forall row <- NewRows(ns, rows, id, now) :: Declares(ns, row.node.name)
  {
    if ns != [] {
      var front := ns[..|ns| - 1];
      NewRowsDeclared(front, rows, id, now);
      assert ns == front + [ns[|ns| - 1]];
      forall name ensures Declares(ns, name) <==> Declares(front, name) || name == ns[|ns| - 1].name {
        DeclaresOneMore(front, ns[|ns| - 1], name);
      }
    }
  }

  lemma IndexOfRow(rows: seq<Row>, k: nat, nextId: nat)
    requires AscendingIds(rows, nextId) && k < |rows|
    ensures IndexOf(rows, rows[k].id) == k
  {
    assert forall i :: 0 <= i < k ==> rows[i].id < rows[k].id;
  }

  lemma OwnNameFree(rows: seq<Row>, k: nat)
    requires DistinctNames(rows) && k < |rows|
    ensures !Taken(rows, rows[k].node.name, k)
  {}

  lemma UpdatedPrefix(p: seq<Row>, added: seq<Row>, k: nat, d: Node, now: int)
    requires k < |p|
    ensures Updated(p + added, k, d, now) == Updated(p, k, d, now) + added
  {}

  lemma UpdateFits(rows: seq<Row>, ms: seq<Node>, added: seq<Row>, d: Node, k: nat, nextId: nat, done: nat, now: int)
    requires var all := Midway(rows, ms, done, now) + added; DistinctNames(all) && AscendingIds(all, nextId)
    requires k < |rows| && rows[k].node.name == d.name
    ensures var all := Midway(rows, ms, done, now) + added;
            |rows| <= |all| && IndexOf(all, rows[k].id) == k && !Taken(all, d.name, k) &&
            Updated(all, k, d, now) == Updated(Midway(rows, ms, done, now), k, d, now) + added
  {
    MidwayRows(rows, ms, done, now);
    var p := Midway(rows, ms, done, now);
    hide Midway, DistinctNames, AscendingIds, IndexOf, Taken, Updated;
    var all := p + added;
    assert all[k] == p[k];
    IndexOfRow(all, k, nextId);
    OwnNameFree(all, k);
    UpdatedPrefix(p, added, k, d, now);
  }

  lemma CreateFits(rows: seq<Row>, ms: seq<Node>, d: Node, id: nat, now: int)
    requires !HasName(rows, d.name) && !Declares(ms, d.name)
    ensures var all := Midway(rows, ms, 0, now) + NewRows(ms, rows, id, now); !Taken(all, d.name, |all|)
  {
    MidwayRows(rows, ms, 0, now);
    NewRowsDeclared(ms, rows, id, now);
    hide Midway, NewRows, Declares;
    var p: seq<Row>, added: seq<Row> := Midway(rows, ms, 0, now), NewRows(ms, rows, id, now);
    forall j | 0 <= j < |p + added| ensures (p + added)[j].node.name != d.name {
      if j < |p| {
        assert rows[j].node.name != d.name;
      } else {
        assert (p + added)[j] in added;
      }
    }
  }

  lemma StillUndeclared(ns: seq<Node>, i: nat)
    requires Distinct(ns) && i < |ns|
    ensures Declaration(ns[..i], ns[i].name).None? && !Declares(ns[..i], ns[i].name)
  {}

  lemma NothingWritten(rows: seq<Row>, id: nat, now: int)
    ensures Midway(rows, [], 0, now) == rows && NewRows([], rows, id, now) == []
  {}

  ghost predicate NamesOf(names: set<string>, ns: seq<Node>) {
    forall name :: name in names <==> Declares(ns, name)
  }

  lemma OneMoreName(names: set<string>, ns: seq<Node>, n: Node)
    requires NamesOf(names, ns)
    ensures NamesOf(names + {n.name}, ns + [n])
  {
    forall name ensures Declares(ns + [n], name) <==> Declares(ns, name) || name == n.name {
      DeclaresOneMore(ns, n, name);
    }
  }

  lemma StoredDistinct(ns: seq<Node>, urls: Urls)
    requires Distinct(ns)
    ensures Distinct(StoredAll(ns, urls))
  {}

  /** The rows that the store is to hold once ms is written. */
  ghost predicate Wrote(t: Table, existing: seq<Row>, ms: seq<Node>, id: nat, now: int)
    reads t
  {
    t.Ok() && t.rows == Stopped(existing, ms, id, now) && t.nextId == id + |NewRows(ms, existing, id, now)|
  }

  /** Writes one more declaration: under the id of the row of its name, or as a new row. */
  method UpsertOne(t: Table, existing: seq<Row>, byName: map<string, Row>, d: Node, now: int, urls: Urls,
                   ghost ms: seq<Node>, ghost id: nat)
    returns (failed: Option<Problem>)
    requires Wrote(t, existing, ms, id, now) && Indexed(byName, existing) && DistinctNames(existing)
    requires Ready(d, urls) && Declaration(ms, d.name).None? && !Declares(ms, d.name)
    modifies t
    ensures failed == if Accepted(d, urls) then None else Some(BadBaseUrl)
    ensures if failed.None? then Wrote(t, existing, ms + [Stored(d, urls)], id, now)
            else t.Ok() && t.rows == old(t.rows)
  {
    hide Midway, NewRows, Check, DistinctNames, AscendingIds, Taken, IndexOf, Updated, Declares;
    ghost var e := Stored(d, urls);
    if d.name in byName {
      var ex := byName[d.name];
      ghost var k :| 0 <= k < |existing| && existing[k] == ex;
      UpdateFits(existing, ms, NewRows(ms, existing, id, now), e, k, t.nextId, 0, now);
      UpdateStep(existing, ms, e, k, id, now);
      failed := t.UpdateNode(ex.id, d, now, urls);
    } else {
      CreateFits(existing, ms, e, id, now);
      CreateStep(existing, ms, e, id, now);
      failed := t.CreateNode(d, now, urls);
    }
  }

  /** Upserting by name. Only a base URL that is not accepted again can make a write fail; then
      everything declared before it has been written. */
  method Upsert(t: Table, existing: seq<Row>, byName: map<string, Row>, ns: seq<Node>, now: int, urls: Urls)
    returns (r: Option<Error>, declaredNames: set<string>)
    requires t.Ok() && t.rows == existing && Indexed(byName, existing)
    requires Distinct(ns) && AllReady(ns, urls)
    modifies t
    ensures t.Ok()
    ensures var k, ms := AcceptedCount(ns, urls), StoredAll(ns, urls);
            t.rows == Stopped(existing, ms[..k], old(t.nextId), now) &&
            (r == if k < |ns| then Some(WriteFailed(Some(BadBaseUrl))) else None) &&
            (r.None? ==> NamesOf(declaredNames, ms))
  {
    hide Midway, NewRows, DistinctNames, AscendingIds, Distinct, Declares, NamesOf, Ready, Indexed;
    ghost var id := t.nextId;
    ghost var ms := StoredAll(ns, urls);
    StoredDistinct(ns, urls);
    NothingWritten(existing, id, now);
    declaredNames := {};
    NoNames();
    for i := 0 to |ns|
      invariant i <= AcceptedCount(ns, urls)
      invariant Wrote(t, existing, ms[..i], id, now) && NamesOf(declaredNames, ms[..i])
    {
      var d := ns[i];
      assert ms[..i + 1] == ms[..i] + [ms[i]] && ms[i] == Stored(d, urls);
      StillUndeclared(ms, i);
      OneMoreName(declaredNames, ms[..i], ms[i]);
      declaredNames := declaredNames + {d.name};
      var failed := UpsertOne(t, existing, byName, d, now, urls, ms[..i], id);
      if failed.Some? {
        return Some(WriteFailed(failed)), {};
      }
    }
    assert ms[..|ns|] == ms;
    return None, declaredNames;
  }

  lemma NoNames()
    ensures NamesOf({}, [])
  {}

  lemma DisableFits(all: seq<Row>, rows: seq<Row>, ns: seq<Node>, added: seq<Row>, j: nat, nextId: nat, now: int)
    requires all == Midway(rows, ns, j, now) + added && AscendingIds(all, nextId)
    requires j < |rows| && Declaration(ns, rows[j].node.name).None?
    ensures |rows| <= |all| && IndexOf(all, rows[j].id) == j && all[j] == rows[j]
    ensures forall n :: Updated(all, j, n, now) == Updated(Midway(rows, ns, j, now), j, n, now) + added
  {
    assert all[j] == Midway(rows, ns, j, now)[j];
  }

  lemma UndeclaredName(names: set<string>, ns: seq<Node>, name: string)
    requires NamesOf(names, ns)
    ensures name in names <==> Declaration(ns, name).Some?
  {}

  /** Disabling what the configuration no longer declares. */
  method DisableUndeclared(t: Table, existing: seq<Row>, declaredNames: set<string>, now: int, ghost ns: seq<Node>,
                           ghost added: seq<Row>) returns (r: Option<Error>)
    requires t.Ok() && t.rows == Midway(existing, ns, 0, now) + added && NamesOf(declaredNames, ns)
    modifies t
    ensures t.Ok() && r == None && t.rows == Midway(existing, ns, |existing|, now) + added
  {
    hide Midway, DistinctNames, AscendingIds, IndexOf, Updated, NamesOf;
    for j := 0 to |existing|
      invariant t.Ok() && t.rows == Midway(existing, ns, j, now) + added
    {
      var ex := existing[j];
      UndeclaredName(declaredNames, ns, ex.node.name);
      DisableStep(existing, ns, j, now);
      if ex.node.source == Config && ex.node.enabled && ex.node.name !in declaredNames {
        DisableFits(t.rows, existing, ns, added, j, t.nextId, now);
        var failed := t.DisableNode(ex.id, now);
        if failed.Some? && failed != Some(NotFound) {
          return Some(WriteFailed(failed));
        }
      }
    }
    return None;
  }

  /** The table after a sync. */
  ghost function SyncRows(file: Option<seq<Entry>>, ollamaUrl: Option<string>, env: EnvExpansion.Env, urls: Urls,
                          rows: seq<Row>, id: nat, now: int): seq<Row>
  {
    match Declared(file, ollamaUrl, env, urls)
    case Err(_) => rows
    case Ok(ns) =>
      var k, ms := AcceptedCount(ns, urls), StoredAll(ns, urls);
      if Collides(rows, ns) then rows
      else if k < |ns| then Stopped(rows, ms[..k], id, now)
      else Merged(rows, ms, id, now)
  }

  /** A load error or a collision leaves the table untouched. Otherwise the merge is carried out in
      full, exactly if every loaded base URL is accepted once more; else it stops at the first that is
      not, with the declarations before it written and nothing disabled. */
  method SyncDeclaredNodes(t: Table, file: Option<seq<Entry>>, ollamaUrl: Option<string>, env: EnvExpansion.Env,
                           urls: Urls, now: int) returns (r: Option<Error>)
    requires t.Ok()
    modifies t
    ensures t.Ok()
    ensures t.rows == SyncRows(file, ollamaUrl, env, urls, old(t.rows), old(t.nextId), now)
    ensures match Declared(file, ollamaUrl, env, urls)
            case Err(e) => r == Some(e)
            case Ok(ns) =>
              if Collides(old(t.rows), ns) then r.Some? && FirstCollision(old(t.rows), ns, r.value)
              else r == if AcceptedCount(ns, urls) < |ns| then Some(WriteFailed(Some(BadBaseUrl))) else None
  {
    hide Declared, Midway, NewRows, Collides, FirstCollision, Indexed, NamesOf, DistinctNames, AscendingIds, StoredAll;
    var declared := LoadDeclared(file, ollamaUrl, env, urls);
    if declared.Err? {
      return Some(declared.error);
    }
    var ns := declared.value;
    LoadedIsReady(file, ollamaUrl, env, urls);
    var existing := t.rows;
    var byName := IndexByName(existing);
    r := FindCollision(existing, byName, ns);
    if r.Some? {
      return r;
    }
    ghost var ms := StoredAll(ns, urls);
    ghost var added := NewRows(ms, existing, t.nextId, now);
    var names: set<string>;
    StoredLength(ns, urls);
    assert ms[..|ns|] == ms;
    r, names := Upsert(t, existing, byName, ns, now, urls);
    if r.Some? {
      return r;
    }
    r := DisableUndeclared(t, existing, names, now, ms, added);
  }

  lemma StoredLength(ns: seq<Node>, urls: Urls)
    ensures |StoredAll(ns, urls)| == |ns|
  {}

  /** Whatever loads has distinct names, is enabled and owned by the configuration, and is valid to
      the store but for base URLs that are not accepted again. */
  lemma LoadedIsReady(file: Option<seq<Entry>>, ollamaUrl: Option<string>, env: EnvExpansion.Env, urls: Urls)
    requires Declared(file, ollamaUrl, env, urls).Ok?
    ensures var ns := Declared(file, ollamaUrl, env, urls).value; Distinct(ns) && AllReady(ns, urls)
  {
    hide FileNodes;
    if file.Some? {
      FileIsReady(file.value, env, urls);
    }
    if ollamaUrl.Some? {
      var base := urls.canonical(ollamaUrl.value);
      if base.Some? {
        DefaultIsReady(base.value, urls);
        hide Check, Ready;
        ReadyOneMore(Declared(file, None, env, urls).value, DefaultNode(base.value), urls);
      }
    }
  }

  lemma DefaultIsReady(base: string, urls: Urls)
    ensures Ready(DefaultNode(base), urls)
  {
    var s := "default";
    assert !IsSpace(s[0]) && !IsSpace(s[|s| - 1]);
  }

  lemma ReadyOneMore(ns: seq<Node>, n: Node, urls: Urls)
    requires Distinct(ns) && AllReady(ns, urls) && Ready(n, urls) && !Declares(ns, n.name)
    ensures Distinct(ns + [n]) && AllReady(ns + [n], urls)
  {
    DistinctOneMore(ns, n);
  }

  lemma {:induction false} FileIsReady(entries: seq<Entry>, env: EnvExpansion.Env, urls: Urls)
    requires FileNodes(entries, env, urls).Ok?
    ensures var ns := FileNodes(entries, env, urls).value; Distinct(ns) && AllReady(ns, urls)
  {
    hide Declares, NodeOf, Ready, Distinct;
    if entries != [] {
      var front := entries[..|entries| - 1];
      FileIsReady(front, env, urls);
      EntryIsReady(entries[|entries| - 1], env, urls);
      ReadyOneMore(FileNodes(front, env, urls).value, NodeOf(entries[|entries| - 1], env, urls).value, urls);
    } else {
      NothingIsReady(urls);
    }
  }

  lemma NothingIsReady(urls: Urls)
    ensures Distinct([]) && AllReady([], urls)
  {}

  lemma EntryIsReady(d: Entry, env: EnvExpansion.Env, urls: Urls)
    requires NodeOf(d, env, urls).Ok?
    ensures Ready(NodeOf(d, env, urls).value, urls)
  {
    hide Check, Expanded, ExpandedOption, ExpandedModels;
    var n := Node(Expanded(d.name, env).value, Expanded(d.baseUrl, env).value, Expanded(d.backend, env).value,
                  ExpandedOption(d.authHeader, env).value, ExpandedModels(d.staticModels, env).value,
                  ExpandedOption(d.healthPath, env).value, d.timeoutSeconds, true, Config);
    CheckAgain(n, urls);
  }
}
