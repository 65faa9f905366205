/** What a successful merge means. */
module MergeLaws {
  import opened Common
  import opened NodeStore
  import opened DeclaredNodes
  import opened NodeMerge

  ghost predicate AllDeclared(ns: seq<Node>) {
    forall i :: 0 <= i < |ns| ==> ns[i].enabled && ns[i].source == Config
  }

  /** An enabled node owned by the configuration. */
  predicate Live(n: Node) {
    n.enabled && n.source == Config
  }

  ghost predicate Holds(rows: seq<Row>, n: Node) {
    exists i :: 0 <= i < |rows| && rows[i].node == n
  }

  lemma DeclarationOf(ns: seq<Node>, n: Node)
    requires Distinct(ns) && n in ns
    ensures Declaration(ns, n.name) == Some(n)
  {}

  lemma {:induction false} NewRowsExact(ns: seq<Node>, rows: seq<Row>, id: nat, now: int, n: Node)
    ensures Holds(NewRows(ns, rows, id, now), n) <==> n in ns && !HasName(rows, n.name)
  {
    hide HasName;
    if ns != [] {
      var front, d := ns[..|ns| - 1], ns[|ns| - 1];
      NewRowsExact(front, rows, id, now, n);
      assert ns == front + [d];
      var before := NewRows(front, rows, id, now);
      HoldsOneMore(before, Row(id + |before|, d, now, now), n);
    }
  }

  lemma HoldsOneMore(rows: seq<Row>, row: Row, n: Node)
    ensures Holds(rows + [row], n) <==> Holds(rows, n) || row.node == n
  {
    HoldsEither(rows, [row], n);
    if row.node == n { assert [row][0].node == n; }
  }

  lemma HoldsEither(a: seq<Row>, b: seq<Row>, n: Node)
    ensures Holds(a + b, n) <==> Holds(a, n) || Holds(b, n)
  {
    if Holds(a, n) {
      var i :| 0 <= i < |a| && a[i].node == n;
      assert (a + b)[i].node == n;
    }
    if Holds(b, n) {
      var i :| 0 <= i < |b| && b[i].node == n;
      assert (a + b)[|a| + i].node == n;
    }
  }

  lemma SourceOf(rows: seq<Row>, ns: seq<Node>, i: nat)
    requires !Collides(rows, ns) && i < |rows| && Declaration(ns, rows[i].node.name).Some?
    ensures rows[i].node.source == Config
  {
    var d := Declaration(ns, rows[i].node.name).value;
    var k :| 0 <= k < |ns| && ns[k] == d;
    assert rows[i].node.source == Api ==> CollidesAt(rows, ns[k], i);
  }

  lemma OldRowsExact(rows: seq<Row>, ns: seq<Node>, now: int, n: Node)
    requires !Collides(rows, ns) && Distinct(ns) && AllDeclared(ns) && Live(n)
    ensures Holds(Midway(rows, ns, |rows|, now), n) <==> n in ns && HasName(rows, n.name)
  {
    hide Collides, Distinct;
    var p := Midway(rows, ns, |rows|, now);
    if Holds(p, n) {
      var i :| 0 <= i < |p| && p[i].node == n;
      assert p[i] == MergedRow(rows[i], ns, now);
      if Declaration(ns, rows[i].node.name).Some? { SourceOf(rows, ns, i); }
      assert rows[i].node.name == n.name;
    }
    if n in ns && HasName(rows, n.name) {
      var i :| 0 <= i < |rows| && rows[i].node.name == n.name;
      DeclarationOf(ns, n);
      SourceOf(rows, ns, i);
      assert p[i].node == n;
    }
  }

  /** After a successful merge the enabled configuration-owned nodes are exactly the declared ones. */
  lemma LeavesExactlyTheDeclared(rows: seq<Row>, ns: seq<Node>, id: nat, now: int, n: Node)
    requires !Collides(rows, ns) && Distinct(ns) && AllDeclared(ns) && Live(n)
    ensures Holds(Merged(rows, ns, id, now), n) <==> n in ns
  {
    hide Midway, NewRows, Collides, Distinct, AllDeclared, HasName, Holds;
    OldRowsExact(rows, ns, now, n);
    NewRowsExact(ns, rows, id, now, n);
    HoldsEither(Midway(rows, ns, |rows|, now), NewRows(ns, rows, id, now), n);
  }

  /** Every row that was there keeps its id, name, owner and creation time; one owned by the API is
      unchanged altogether; one that is not declared loses at most its enabled flag. */
  lemma KeepsExistingRows(rows: seq<Row>, ns: seq<Node>, id: nat, now: int, i: nat)
    requires !Collides(rows, ns) && i < |rows|
    ensures i < |Merged(rows, ns, id, now)|
    ensures var row := Merged(rows, ns, id, now)[i];
            row.id == rows[i].id && row.created == rows[i].created && row.node.name == rows[i].node.name &&
            row.node.source == rows[i].node.source &&
            (rows[i].node.source == Api ==> row == rows[i]) &&
            (!Declares(ns, rows[i].node.name) ==>
               row.(updated := rows[i].updated) == rows[i].(node := rows[i].node.(enabled := row.node.enabled)))
  {
    hide Collides, NewRows;
    assert Merged(rows, ns, id, now)[i] == MergedRow(rows[i], ns, now);
    if Declaration(ns, rows[i].node.name).Some? { SourceOf(rows, ns, i); }
  }

  // ---- From the configuration to the table ------------------------------------------------------

  /** What the store writes for loaded declarations has their names, so collides where they do, and is
      what was declared exactly if no base URL changes when it is canonicalised again. */
  lemma WrittenAsDeclared(file: Option<seq<Entry>>, ollamaUrl: Option<string>, env: EnvExpansion.Env, urls: Urls,
                          rows: seq<Row>)
    requires Declared(file, ollamaUrl, env, urls).Ok?
    ensures var ns := Declared(file, ollamaUrl, env, urls).value;
            var ms := StoredAll(ns, urls);
            Distinct(ms) && AllDeclared(ms) && (Collides(rows, ms) <==> Collides(rows, ns)) &&
            (ms == ns <==> forall i :: 0 <= i < |ns| && Accepted(ns[i], urls) ==>
                urls.canonical(ns[i].baseUrl).value == ns[i].baseUrl)
  {
    LoadedIsReady(file, ollamaUrl, env, urls);
    hide Declared;
    var ns := Declared(file, ollamaUrl, env, urls).value;
    var ms := StoredAll(ns, urls);
    StoredDistinct(ns, urls);
    forall i | 0 <= i < |ns| ensures ms[i].enabled && ms[i].source == Config && ms[i].name == ns[i].name {
      assert Ready(ns[i], urls);
    }
    SameDeclaredNames(rows, ns, ms);
    SameDeclaredNames(rows, ms, ns);
    StoredUnchanged(ns, urls);
  }

  lemma StoredUnchanged(ns: seq<Node>, urls: Urls)
    ensures StoredAll(ns, urls) == ns <==>
            forall i :: 0 <= i < |ns| && Accepted(ns[i], urls) ==> urls.canonical(ns[i].baseUrl).value == ns[i].baseUrl
  {
    var ms := StoredAll(ns, urls);
    if ms == ns {
      forall i | 0 <= i < |ns| && Accepted(ns[i], urls) ensures urls.canonical(ns[i].baseUrl).value == ns[i].baseUrl {
        assert ms[i] == Stored(ns[i], urls);
      }
    }
  }

  lemma SameDeclaredNames(rows: seq<Row>, ns: seq<Node>, ms: seq<Node>)
    requires |ns| == |ms| && forall i :: 0 <= i < |ns| ==> ns[i].name == ms[i].name
    ensures Collides(rows, ns) ==> Collides(rows, ms)
  {
    if Collides(rows, ns) {
      var i, j :| 0 <= i < |ns| && CollidesAt(rows, ns[i], j);
      assert CollidesAt(rows, ms[i], j);
    }
  }

  /** From the configuration: when a sync succeeds, the enabled configuration-owned nodes are exactly
      the loaded ones as the store wrote them. */
  lemma SyncLeavesExactlyTheLoaded(file: Option<seq<Entry>>, ollamaUrl: Option<string>, env: EnvExpansion.Env,
                                   urls: Urls, rows: seq<Row>, id: nat, now: int, n: Node)
    requires Declared(file, ollamaUrl, env, urls).Ok? && Live(n)
    requires !Collides(rows, Declared(file, ollamaUrl, env, urls).value)
    ensures var ms := StoredAll(Declared(file, ollamaUrl, env, urls).value, urls);
            Holds(Merged(rows, ms, id, now), n) <==> n in ms
  {
    hide Declared, StoredAll, Merged, Holds, Collides;
    WrittenAsDeclared(file, ollamaUrl, env, urls, rows);
    LeavesExactlyTheDeclared(rows, StoredAll(Declared(file, ollamaUrl, env, urls).value, urls), id, now, n);
  }

  /** What a merge that stopped short leaves: everything it got to is written, and every row it did not
      get to, declared or not, is as it was. */
  lemma StoppedIsHalfway(rows: seq<Row>, ns: seq<Node>, id: nat, now: int)
    requires !Collides(rows, ns) && Distinct(ns) && AllDeclared(ns)
    ensures var m := Stopped(rows, ns, id, now);
            |rows| <= |m| &&
            (forall i :: 0 <= i < |rows| && !Declares(ns, rows[i].node.name) ==> m[i] == rows[i]) &&
            (forall n :: n in ns ==> Holds(m, n))
  {
    hide Collides, Distinct, NewRows;
    var p, q := Midway(rows, ns, 0, now), NewRows(ns, rows, id, now);
    forall n | n in ns ensures Holds(p + q, n) {
      HoldsEither(p, q, n);
      if HasName(rows, n.name) {
        var i :| 0 <= i < |rows| && rows[i].node.name == n.name;
        DeclarationOf(ns, n);
        SourceOf(rows, ns, i);
        assert p[i].node == n;
      } else {
        NewRowsExact(ns, rows, id, now, n);
      }
    }
  }

  /** An entry whose URL is accepted but whose canonical form is not: the file loads, and the merge
      stops at that entry. A zoned IPv6 host is such a URL for the Go library: the escape in
      `http://[fe80::1%25eth0]:11434` is printed decoded, and the decoded form does not parse. */
  lemma UnstableUrlStopsMerge(entries: seq<Entry>, ns: seq<Node>, d: Entry, n: Node, env: EnvExpansion.Env, urls: Urls)
    requires Declared(Some(entries), None, env, urls) == DeclaredNodes.Ok(ns) && AcceptedCount(ns, urls) == |ns|
    requires NodeOf(d, env, urls) == DeclaredNodes.Ok(n) && !Declares(ns, n.name) && !Accepted(n, urls)
    ensures Declared(Some(entries + [d]), None, env, urls) == DeclaredNodes.Ok(ns + [n])
    ensures AcceptedCount(ns + [n], urls) == |ns| < |ns + [n]|
  {
    hide NodeOf, Declares, Accepted;
    var all := entries + [d];
    assert all[..|all| - 1] == entries;
    assert forall i :: 0 <= i < |ns| ==> (ns + [n])[i] == ns[i];
    assert (ns + [n])[|ns|] == n;
  }

  const ZONED := "http://[fe80::1%25eth0]:11434"
  const PRINTED := "http://[fe80::1%eth0]:11434"

  lemma LiteralExpands(s: string, env: EnvExpansion.Env)
    requires '$' !in s
    ensures Expanded(s, env) == DeclaredNodes.Ok(s)
  {
    assert EnvExpansion.OpenIndex(s) == |s|;
    EnvExpansion.Plain(s, env);
  }

  /** An entry of literals is validated as it stands. */
  lemma LiteralEntry(name: string, url: string, env: EnvExpansion.Env, urls: Urls)
    requires '$' !in name && '$' !in url
    ensures NodeOf(Entry(name, url, "", None, None, None, None), env, urls) ==
            match Check(Node(name, url, "", None, None, None, None, true, Config), urls)
            case Invalid(p) => DeclaredNodes.Err(InvalidEntry(p))
            case Valid(n) => DeclaredNodes.Ok(n)
  {
    LiteralExpands(name, env);
    LiteralExpands(url, env);
    LiteralExpands("", env);
    hide Expanded, Check;
  }

  /** The zoned host as an entry. */
  lemma ZonedHostLoads(env: EnvExpansion.Env, urls: Urls)
    requires urls.canonical(ZONED) == Some(PRINTED) && urls.canonical(PRINTED) == None
    ensures var d := NodeOf(Entry("zoned", ZONED, "", None, None, None, None), env, urls);
            d == DeclaredNodes.Ok(Node("zoned", PRINTED, "ollama", None, None, None, None, true, Config)) &&
            !Accepted(d.value, urls)
  {
    hide NodeOf;
    var s := "zoned";
    assert !IsSpace(s[0]) && !IsSpace(s[|s| - 1]);
    assert TrimSpace(s) == s;
    LiteralEntry(s, ZONED, env, urls);
  }

  // ---- Repeating it -----------------------------------------------------------------------------

  /** Equal but for the time of the last update. */
  ghost predicate Same(a: seq<Row>, b: seq<Row>) {
    |a| == |b| && forall i :: 0 <= i < |a| ==> a[i].(updated := b[i].updated) == b[i]
  }

  /** Every row is as merging ns would leave it, and every declared name has a row. */
  ghost predicate Settled(rows: seq<Row>, ns: seq<Node>) {
    (forall i :: 0 <= i < |rows| ==> MergedRow(rows[i], ns, rows[i].updated) == rows[i]) &&
    (forall i :: 0 <= i < |ns| ==> HasName(rows, ns[i].name)) &&
    !Collides(rows, ns)
  }

  lemma {:induction false} NothingNew(ns: seq<Node>, rows: seq<Row>, id: nat, now: int)
    requires forall i :: 0 <= i < |ns| ==> HasName(rows, ns[i].name)
    ensures NewRows(ns, rows, id, now) == []
  {
    hide HasName;
    if ns != [] {
      var front := ns[..|ns| - 1];
      forall i | 0 <= i < |front| ensures HasName(rows, front[i].name) {
        assert front[i] == ns[i];
      }
      NothingNew(front, rows, id, now);
    }
  }

  lemma MergedNames(rows: seq<Row>, ns: seq<Node>, id: nat, now: int, n: Node)
    requires HasName(rows, n.name) || n in ns
    ensures HasName(Merged(rows, ns, id, now), n.name)
  {
    var p, q := Midway(rows, ns, |rows|, now), NewRows(ns, rows, id, now);
    if HasName(rows, n.name) {
      var i :| 0 <= i < |rows| && rows[i].node.name == n.name;
      assert (p + q)[i] == MergedRow(rows[i], ns, now);
    } else {
      NewRowsExact(ns, rows, id, now, n);
      var i :| 0 <= i < |q| && q[i].node == n;
      assert (p + q)[|p| + i].node.name == n.name;
    }
  }

  lemma MergedRowSettled(rows: seq<Row>, ns: seq<Node>, id: nat, now: int, i: nat)
    requires !Collides(rows, ns) && Distinct(ns) && AllDeclared(ns) && i < |Merged(rows, ns, id, now)|
    ensures var row := Merged(rows, ns, id, now)[i];
            MergedRow(row, ns, row.updated) == row &&
            (Declaration(ns, row.node.name).Some? ==> row.node.source == Config)
  {
    hide Collides, Distinct, NewRows;
    var p, q := Midway(rows, ns, |rows|, now), NewRows(ns, rows, id, now);
    if i < |rows| {
      assert (p + q)[i] == MergedRow(rows[i], ns, now);
      if Declaration(ns, rows[i].node.name).Some? { SourceOf(rows, ns, i); }
    } else {
      var row := (p + q)[i];
      assert row == q[i - |p|];
      NewRowsExact(ns, rows, id, now, row.node);
      assert Holds(q, row.node);
      DeclarationOf(ns, row.node);
    }
  }

  /** A merge settles the table. */
  lemma MergeSettles(rows: seq<Row>, ns: seq<Node>, id: nat, now: int)
    requires !Collides(rows, ns) && Distinct(ns) && AllDeclared(ns)
    ensures Settled(Merged(rows, ns, id, now), ns)
  {
    hide MergedRow, NewRows, Merged, HasName, Distinct, AllDeclared;
    var m := Merged(rows, ns, id, now);
    forall i | 0 <= i < |m|
      ensures MergedRow(m[i], ns, m[i].updated) == m[i] &&
              (Declaration(ns, m[i].node.name).Some? ==> m[i].node.source == Config)
    {
      MergedRowSettled(rows, ns, id, now, i);
    }
    forall i | 0 <= i < |ns| ensures HasName(m, ns[i].name) {
      MergedNames(rows, ns, id, now, ns[i]);
    }
  }

  lemma RowComesBack(row: Row, ns: seq<Node>, ms: seq<Node>, now: int, later: int)
    requires MergedRow(row, ns, row.updated) == row
    requires Declaration(ns, row.node.name).None? ==> Declaration(ms, row.node.name).None?
    ensures var again := MergedRow(MergedRow(row, ms, now), ns, later); again.(updated := row.updated) == row
    ensures MergedRow(row, ms, now).node.name == row.node.name && MergedRow(row, ms, now).node.source == row.node.source
  {}

  lemma NoFewerCollide(rows: seq<Row>, ns: seq<Node>, ms: seq<Node>)
    requires !Collides(rows, ns) && forall i :: 0 <= i < |ms| ==> Declares(ns, ms[i].name)
    ensures !Collides(rows, ms)
  {
    if Collides(rows, ms) {
      var i, j :| 0 <= i < |ms| && CollidesAt(rows, ms[i], j);
      var k :| 0 <= k < |ns| && ns[k].name == ms[i].name;
      assert CollidesAt(rows, ns[k], j);
    }
  }

  lemma SameNamesCollide(rows: seq<Row>, others: seq<Row>, ns: seq<Node>)
    requires |rows| == |others| && !Collides(rows, ns)
    requires forall i :: 0 <= i < |rows| ==>
               rows[i].node.name == others[i].node.name && rows[i].node.source == others[i].node.source
    ensures !Collides(others, ns)
    ensures forall name :: HasName(rows, name) ==> HasName(others, name)
  {
    if Collides(others, ns) {
      var i, j :| 0 <= i < |ns| && CollidesAt(others, ns[i], j);
      assert CollidesAt(rows, ns[i], j);
    }
    forall name | HasName(rows, name) ensures HasName(others, name) {
      var i :| 0 <= i < |rows| && rows[i].node.name == name;
      assert others[i].node.name == name;
    }
  }

  lemma AllNamed(rows: seq<Row>, ns: seq<Node>, ms: seq<Node>, id: nat, now: int)
    requires forall i :: 0 <= i < |ns| ==> HasName(rows, ns[i].name)
    requires forall i :: 0 <= i < |ms| ==> Declares(ns, ms[i].name)
    ensures Merged(rows, ms, id, now) == Midway(rows, ms, |rows|, now)
  {
    forall i | 0 <= i < |ms| ensures HasName(rows, ms[i].name) {
      var k :| 0 <= k < |ns| && ns[k].name == ms[i].name;
    }
    NothingNew(ms, rows, id, now);
  }

  lemma NamesCarryOver(ns: seq<Node>, ms: seq<Node>, name: string)
    requires Declaration(ns, name).None? && forall i :: 0 <= i < |ms| ==> Declares(ns, ms[i].name)
    ensures Declaration(ms, name).None?
  {}

  lemma DeclaresItself(ns: seq<Node>)
    ensures forall i :: 0 <= i < |ns| ==> Declares(ns, ns[i].name)
  {}

  /** Merging declarations of some of the names into a settled table, and then all of them again,
      leads back to it: rows that were disabled in between are revived under their ids. */
  lemma DeclarationsComeBack(rows: seq<Row>, ns: seq<Node>, ms: seq<Node>, id: nat, now: int, id': nat, later: int)
    requires Settled(rows, ns)
    requires forall i :: 0 <= i < |ms| ==> Declares(ns, ms[i].name)
    ensures !Collides(rows, ms) && !Collides(Merged(rows, ms, id, now), ns)
    ensures Same(Merged(Merged(rows, ms, id, now), ns, id', later), rows)
  {
    hide Collides, NewRows, MergedRow, Merged, HasName, Declares;
    NoFewerCollide(rows, ns, ms);
    AllNamed(rows, ns, ms, id, now);
    var between := Midway(rows, ms, |rows|, now);
    forall i | 0 <= i < |rows|
      ensures between[i].node.name == rows[i].node.name && between[i].node.source == rows[i].node.source
      ensures MergedRow(between[i], ns, later).(updated := rows[i].updated) == rows[i]
    {
      if Declaration(ns, rows[i].node.name).None? { NamesCarryOver(ns, ms, rows[i].node.name); }
      RowComesBack(rows[i], ns, ms, now, later);
    }
    SameNamesCollide(rows, between, ns);
    DeclaresItself(ns);
    AllNamed(between, ns, ns, id', later);
  }

  /** Merging the same declarations twice changes nothing but update times. */
  lemma MergeTwice(rows: seq<Row>, ns: seq<Node>, id: nat, now: int, id': nat, later: int)
    requires !Collides(rows, ns) && Distinct(ns) && AllDeclared(ns)
    ensures var once := Merged(rows, ns, id, now);
            !Collides(once, ns) && Same(Merged(once, ns, id', later), once)
  {
    MergeSettles(rows, ns, id, now);
    SettledStays(Merged(rows, ns, id, now), ns, id', later);
  }

  lemma SettledStays(rows: seq<Row>, ns: seq<Node>, id: nat, now: int)
    requires Settled(rows, ns)
    ensures Same(Merged(rows, ns, id, now), rows)
  {
    hide Collides, MergedRow, Merged, HasName, Declares;
    DeclaresItself(ns);
    AllNamed(rows, ns, ns, id, now);
    forall i | 0 <= i < |rows| ensures MergedRow(rows[i], ns, now).(updated := rows[i].updated) == rows[i] {
      SettledRow(rows[i], ns, now);
    }
  }

  lemma SettledRow(row: Row, ns: seq<Node>, now: int)
    requires MergedRow(row, ns, row.updated) == row
    ensures MergedRow(row, ns, now).(updated := row.updated) == row
  {}

  lemma {:induction false} NewRowsOwned(ns: seq<Node>, rows: seq<Row>, id: nat, now: int)
    requires AllDeclared(ns)
    ensures forall row <- NewRows(ns, rows, id, now) :: row.node.source == Config
  {
    hide HasName;
    if ns != [] {
      var front := ns[..|ns| - 1];
      assert forall i :: 0 <= i < |front| ==> front[i] == ns[i];
      NewRowsOwned(front, rows, id, now);
    }
  }

  /** Merging does not bring about collisions, not even with declarations it has not got to. */
  lemma StillNoCollision(rows: seq<Row>, ns: seq<Node>, ms: seq<Node>, done: nat, id: nat, now: int)
    requires !Collides(rows, ns) && AllDeclared(ms)
    ensures !Collides(Midway(rows, ms, done, now) + NewRows(ms, rows, id, now), ns)
  {
    var p, q := Midway(rows, ms, done, now), NewRows(ms, rows, id, now);
    NewRowsOwned(ms, rows, id, now);
    hide NewRows;
    forall i, j | 0 <= i < |ns| && 0 <= j < |p + q| ensures !CollidesAt(p + q, ns[i], j) {
      if j < |rows| {
        assert !CollidesAt(rows, ns[i], j);
      } else {
        assert (p + q)[j] in q;
      }
    }
  }

  /** Every row is as writing ns would leave it, and every name written has a row. */
  ghost predicate Written(rows: seq<Row>, ns: seq<Node>) {
    (forall i :: 0 <= i < |rows| ==> UpdatedRow(rows[i], ns, rows[i].updated) == rows[i]) &&
    (forall i :: 0 <= i < |ns| ==> HasName(rows, ns[i].name))
  }

  lemma StoppedRowWritten(rows: seq<Row>, ns: seq<Node>, id: nat, now: int, i: nat)
    requires Distinct(ns) && AllDeclared(ns) && i < |Stopped(rows, ns, id, now)|
    ensures var row := Stopped(rows, ns, id, now)[i]; UpdatedRow(row, ns, row.updated) == row
  {
    hide Distinct, NewRows;
    var p, q := Midway(rows, ns, 0, now), NewRows(ns, rows, id, now);
    if i < |rows| {
      assert (p + q)[i] == UpdatedRow(rows[i], ns, now);
    } else {
      var row := (p + q)[i];
      assert row == q[i - |p|];
      assert Holds(q, row.node);
      NewRowsExact(ns, rows, id, now, row.node);
      DeclarationOf(ns, row.node);
    }
  }

  lemma StoppedNames(rows: seq<Row>, ns: seq<Node>, id: nat, now: int, n: Node)
    requires n in ns
    ensures HasName(Stopped(rows, ns, id, now), n.name)
  {
    hide NewRows;
    var p, q := Midway(rows, ns, 0, now), NewRows(ns, rows, id, now);
    if HasName(rows, n.name) {
      var i :| 0 <= i < |rows| && rows[i].node.name == n.name;
      assert (p + q)[i] == UpdatedRow(rows[i], ns, now);
    } else {
      NewRowsExact(ns, rows, id, now, n);
      var i :| 0 <= i < |q| && q[i].node == n;
      assert (p + q)[|p| + i].node.name == n.name;
    }
  }

  lemma StopWrites(rows: seq<Row>, ns: seq<Node>, id: nat, now: int)
    requires Distinct(ns) && AllDeclared(ns)
    ensures Written(Stopped(rows, ns, id, now), ns)
  {
    hide UpdatedRow, Stopped, HasName, Distinct, AllDeclared;
    var m := Stopped(rows, ns, id, now);
    forall i | 0 <= i < |m| ensures UpdatedRow(m[i], ns, m[i].updated) == m[i] {
      StoppedRowWritten(rows, ns, id, now, i);
    }
    forall i | 0 <= i < |ns| ensures HasName(m, ns[i].name) {
      StoppedNames(rows, ns, id, now, ns[i]);
    }
  }

  lemma WrittenStays(rows: seq<Row>, ns: seq<Node>, id: nat, now: int)
    requires Written(rows, ns)
    ensures Same(Stopped(rows, ns, id, now), rows)
  {
    hide HasName;
    NothingNew(ns, rows, id, now);
    hide NewRows;
    forall i | 0 <= i < |rows| ensures UpdatedRow(rows[i], ns, now).(updated := rows[i].updated) == rows[i] {
      assert UpdatedRow(rows[i], ns, rows[i].updated) == rows[i];
    }
  }

  /** A merge that stops before anything is written leaves the table as it is; one that got further
      touches it, at the latest in the time of the last update. */
  lemma StoppedTouches(rows: seq<Row>, ns: seq<Node>, id: nat, now: int)
    requires forall i :: 0 <= i < |rows| ==> rows[i].updated != now
    ensures Stopped(rows, ns, id, now) == rows <==> ns == []
  {
    if ns == [] {
      NothingWritten(rows, id, now);
    } else {
      var m, n := Stopped(rows, ns, id, now), ns[0];
      if HasName(rows, n.name) {
        var i :| 0 <= i < |rows| && rows[i].node.name == n.name;
        assert m[i] == UpdatedRow(rows[i], ns, now);
      } else {
        NewRowsExact(ns, rows, id, now, n);
      }
    }
  }

  lemma PrefixDeclared(ns: seq<Node>, k: nat)
    requires k <= |ns| && Distinct(ns) && AllDeclared(ns)
    ensures Distinct(ns[..k]) && AllDeclared(ns[..k])
  {}

  /** From configuration to table: a sync repeated with the same file, URL and environment comes to the
      same end, be it a load error, a collision, a stop or a full merge, and leaves the same rows up to
      the time of their last update. */
  lemma SyncTwice(file: Option<seq<Entry>>, ollamaUrl: Option<string>, env: EnvExpansion.Env, urls: Urls,
                  rows: seq<Row>, id: nat, now: int, id': nat, later: int)
    ensures var once := SyncRows(file, ollamaUrl, env, urls, rows, id, now);
            var twice := SyncRows(file, ollamaUrl, env, urls, once, id', later);
            Same(twice, once) &&
            (Declared(file, ollamaUrl, env, urls).Ok? ==>
               var ns := Declared(file, ollamaUrl, env, urls).value; Collides(once, ns) <==> Collides(rows, ns))
  {
    var declared := Declared(file, ollamaUrl, env, urls);
    if declared.Ok? && !Collides(rows, declared.value) {
      var ns := declared.value;
      var k, ms := AcceptedCount(ns, urls), StoredAll(ns, urls);
      WrittenAsDeclared(file, ollamaUrl, env, urls, rows);
      PrefixDeclared(ms, k);
      StillNoCollision(rows, ns, ms[..k], 0, id, now);
      StillNoCollision(rows, ns, ms, |rows|, id, now);
      hide Declared, StoredAll, Collides, NewRows, Midway, Distinct, AllDeclared, Same;
      if k < |ns| {
        StopWrites(rows, ms[..k], id, now);
        WrittenStays(Stopped(rows, ms[..k], id, now), ms[..k], id', later);
      } else {
        MergeTwice(rows, ms, id, now, id', later);
      }
    }
  }
}
