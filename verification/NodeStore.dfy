/** The table of inference nodes: validation, insert, update and disable. */
module NodeStore {
  import opened Common

  datatype Source = Api | Config

  datatype Node = Node(name: string, baseUrl: string, backend: string, authHeader: Option<string>,
                       staticModels: Option<seq<string>>, healthPath: Option<string>,
                       timeoutSeconds: Option<int>, enabled: bool, source: Source)

  /** A stored node. Timestamps are opaque values handed in with each write. */
  datatype Row = Row(id: nat, node: Node, created: int, updated: int)

  /** Parts of the URL library: the canonical form of a base URL, if it is acceptable, and whether
      a path parses as a bare path. */
  datatype Urls = Urls(canonical: string -> Option<string>, barePath: string -> bool)

  datatype Problem = NameRequired | BadBaseUrl | BadBackend(backend: string) | BadAuthHeader | BadHealthPath
                   | BadTimeout(seconds: int)
                   | NotFound | NameExists

  datatype Checked = Valid(node: Node) | Invalid(problem: Problem)

  predicate Printable(s: string, low: char) {
    forall i :: 0 <= i < |s| ==> low <= s[i] <= '~'
  }

  predicate ValidAuthHeader(v: string) {
    v != "" && Printable(v, ' ')
  }

  predicate ValidHealthPath(p: string, urls: Urls) {
    p != "" && p[0] == '/' && !("//" <= p) && Printable(p, '!') && urls.barePath(p)
  }

  /** validateNode: the normalised node, or the first thing wrong with it. */
  function Check(n: Node, urls: Urls): Checked {
    var name := TrimSpace(n.name);
    var base := urls.canonical(n.baseUrl);
    var backend := if n.backend == "" then "ollama" else n.backend;
    if name == "" then Invalid(NameRequired)
    else if base.None? then Invalid(BadBaseUrl)
    else if backend != "ollama" && backend != "openai_compat" then Invalid(BadBackend(backend))
    else if n.authHeader.Some? && !ValidAuthHeader(n.authHeader.value) then Invalid(BadAuthHeader)
    else if n.healthPath.Some? && !ValidHealthPath(n.healthPath.value, urls) then Invalid(BadHealthPath)
    else if n.timeoutSeconds.Some? && n.timeoutSeconds.value <= 0 then Invalid(BadTimeout(n.timeoutSeconds.value))
    else Valid(n.(name := name, baseUrl := base.value, backend := backend))
  }

  /** Validating a validated node again can only stumble over its base URL: the node passes exactly
      if its base is canonical to something, and unchanged exactly if it is canonical to itself. */
  lemma CheckAgain(n: Node, urls: Urls)
    requires Check(n, urls).Valid?
    ensures var v := Check(n, urls).node;
            v.enabled == n.enabled && v.source == n.source &&
            Check(v, urls) ==
            match urls.canonical(v.baseUrl)
            case None => Invalid(BadBaseUrl)
            case Some(base) => Valid(v.(baseUrl := base))
  {
    hide TrimLeft, TrimRight;
    TrimIsStable(n.name);
  }

  lemma {:induction false} TrimRightEnds(s: string)
    ensures var t := TrimRight(s); t == "" || (!IsSpace(t[|t| - 1]) && s != "" && t[0] == s[0])
  {
    if s != "" && IsSpace(s[|s| - 1]) { TrimRightEnds(s[..|s| - 1]); }
  }

  lemma {:induction false} TrimLeftStarts(s: string)
    ensures TrimLeft(s) == "" || !IsSpace(TrimLeft(s)[0])
  {
    if s != "" && IsSpace(s[0]) { TrimLeftStarts(s[1..]); }
  }

  /** Trimming leaves no white space at either end, so it is idempotent. */
  lemma TrimIsStable(s: string)
    ensures TrimSpace(TrimSpace(s)) == TrimSpace(s)
  {
    TrimLeftStarts(s);
    TrimRightEnds(TrimLeft(s));
  }

  /** Trimming takes white space off both ends and nothing else. */
  lemma TrimsExactly(s: string) returns (left: string, right: string)
    ensures s == left + TrimSpace(s) + right
    ensures (forall c <- left :: IsSpace(c)) && (forall c <- right :: IsSpace(c))
    ensures var t := TrimSpace(s); t == "" || (!IsSpace(t[0]) && !IsSpace(t[|t| - 1]))
  {
    left := LeftPart(s);
    right := RightPart(TrimLeft(s));
    TrimLeftStarts(s);
    TrimRightEnds(TrimLeft(s));
    hide TrimLeft, TrimRight;
    assert left + (TrimSpace(s) + right) == left + TrimSpace(s) + right;
  }

  lemma {:induction false} LeftPart(s: string) returns (left: string)
    ensures s == left + TrimLeft(s) && forall c <- left :: IsSpace(c)
  {
    left := "";
    if s != "" && IsSpace(s[0]) {
      var rest := LeftPart(s[1..]);
      left := [s[0]] + rest;
      assert [s[0]] + (rest + TrimLeft(s)) == left + TrimLeft(s);
    }
  }

  lemma {:induction false} RightPart(s: string) returns (right: string)
    ensures s == TrimRight(s) + right && forall c <- right :: IsSpace(c)
  {
    right := "";
    if s != "" && IsSpace(s[|s| - 1]) {
      var rest := RightPart(s[..|s| - 1]);
      right := rest + [s[|s| - 1]];
      assert (TrimRight(s) + rest) + [s[|s| - 1]] == TrimRight(s) + right;
    }
  }

  /** A node is valid exactly if it has a name besides white space, an acceptable URL, a known backend or none,
      a printable ASCII credential or none, a bare printable path or none, and a positive timeout or none. */
  lemma ValidExactly(n: Node, urls: Urls)
    ensures Check(n, urls).Valid? <==>
              TrimSpace(n.name) != "" && urls.canonical(n.baseUrl).Some? &&
              (n.backend == "" || n.backend == "ollama" || n.backend == "openai_compat") &&
              (n.authHeader.Some? ==>
                 n.authHeader.value != "" && forall c <- n.authHeader.value :: 0x20 <= c as int <= 0x7E) &&
              (n.healthPath.Some? ==>
                 var p := n.healthPath.value;
                 |p| >= 1 && p[0] == '/' && !(|p| >= 2 && p[1] == '/') && (forall c <- p :: 0x21 <= c as int <= 0x7E) &&
                 urls.barePath(p)) &&
              (n.timeoutSeconds.Some? ==> n.timeoutSeconds.value > 0)
  {
    hide TrimSpace;
    if n.authHeader.Some? { PrintableChars(n.authHeader.value, ' '); }
    if n.healthPath.Some? {
      PrintableChars(n.healthPath.value, '!');
      var p := n.healthPath.value;
      assert "//" <= p <==> |p| >= 2 && p[0] == '/' && p[1] == '/';
    }
    hide Printable;
  }

  lemma PrintableChars(s: string, low: char)
    ensures Printable(s, low) <==> forall c <- s :: low as int <= c as int <= 0x7E
  {
    if Printable(s, low) {
      forall c <- s ensures low as int <= c as int <= 0x7E {
        var i :| 0 <= i < |s| && s[i] == c;
      }
    }
    assert forall i :: 0 <= i < |s| ==> s[i] in s;
  }

  /** What makes it valid is kept: the name trimmed, the URL made canonical, the backend defaulted. */
  lemma ValidKeeps(n: Node, urls: Urls)
    requires Check(n, urls).Valid?
    ensures var v := Check(n, urls).node;
            v.name == TrimSpace(n.name) && Some(v.baseUrl) == urls.canonical(n.baseUrl) &&
            (n.backend == "" ==> v.backend == "ollama") && (n.backend != "" ==> v.backend == n.backend) &&
            v.authHeader == n.authHeader && v.healthPath == n.healthPath && v.timeoutSeconds == n.timeoutSeconds &&
            v.staticModels == n.staticModels && v.enabled == n.enabled && v.source == n.source
  {}

  /** The first thing wrong is the one reported. */
  lemma FirstFault(n: Node, urls: Urls)
    requires Check(n, urls).Invalid?
    ensures match Check(n, urls).problem
            case NameRequired => TrimSpace(n.name) == ""
            case BadBaseUrl => TrimSpace(n.name) != "" && urls.canonical(n.baseUrl) == None
            case BadBackend(b) =>
              b == n.backend && b != "" && b != "ollama" && b != "openai_compat" && urls.canonical(n.baseUrl).Some?
            case BadAuthHeader =>
              n.authHeader.Some? && (n.backend == "" || n.backend == "ollama" || n.backend == "openai_compat")
            case BadHealthPath => n.healthPath.Some?
            case BadTimeout(t) => n.timeoutSeconds == Some(t) && t <= 0
            case NotFound => false
            case NameExists => false
  {}

  ghost predicate DistinctNames(rows: seq<Row>) {
    forall i, j :: 0 <= i < j < |rows| ==> rows[i].node.name != rows[j].node.name
  }

  ghost predicate AscendingIds(rows: seq<Row>, nextId: nat) {
    (forall i :: 0 <= i < |rows| ==> rows[i].id < nextId) &&
    (forall i, j :: 0 <= i < j < |rows| ==> rows[i].id < rows[j].id)
  }

  /** Where the row of an id is, or the length if there is none. */
  function IndexOf(rows: seq<Row>, id: nat): (k: nat)
    ensures k <= |rows| && (k < |rows| ==> rows[k].id == id) && forall i :: 0 <= i < k ==> rows[i].id != id
  {
    if rows == [] || rows[0].id == id then 0 else 1 + IndexOf(rows[1..], id)
  }

  /** Whether a name is taken by another row than the one at k. */
  predicate Taken(rows: seq<Row>, name: string, k: nat) {
    exists j :: 0 <= j < |rows| && j != k && rows[j].node.name == name
  }

  function Updated(rows: seq<Row>, k: nat, n: Node, now: int): seq<Row>
    requires k < |rows|
  {
    rows[k := rows[k].(node := n.(source := rows[k].node.source), updated := now)]
  }

  class Table {
    /** In order of id. */
    var rows: seq<Row>
    var nextId: nat

    ghost predicate Ok()
      reads this
    {
      DistinctNames(rows) && AscendingIds(rows, nextId)
    }

    constructor ()
      ensures Ok() && rows == []
    {
      rows, nextId := [], 1;
    }

    /** New nodes are enabled. A failed insert still uses up an id. */
    method CreateNode(n: Node, now: int, urls: Urls) returns (r: Option<Problem>)
      requires Ok()
      modifies this
      ensures Ok()
      ensures match Check(n, urls)
              case Invalid(p) => r == Some(p) && rows == old(rows)
              case Valid(v) =>
                if Taken(old(rows), v.name, |old(rows)|) then r == Some(NameExists) && rows == old(rows)
                else r == None && nextId == old(nextId) + 1 &&
                     rows == old(rows) + [Row(old(nextId), v.(enabled := true), now, now)]
    {
      var checked := Check(n, urls);
      if checked.Invalid? {
        return Some(checked.problem);
      }
      var id := nextId;
      nextId := nextId + 1;
      if Taken(rows, checked.node.name, |rows|) {
        return Some(NameExists);
      }
      rows := rows + [Row(id, checked.node.(enabled := true), now, now)];
      return None;
    }

    /** The source of a node is fixed when it is created. */
    method UpdateNode(id: nat, n: Node, now: int, urls: Urls) returns (r: Option<Problem>)
      requires Ok()
      modifies this`rows
      ensures Ok()
      ensures var k := IndexOf(old(rows), id);
              match Check(n, urls)
              case Invalid(p) => r == Some(p) && rows == old(rows)
              case Valid(v) =>
                if k == |old(rows)| then r == Some(NotFound) && rows == old(rows)
                else if Taken(old(rows), v.name, k) then r == Some(NameExists) && rows == old(rows)
                else r == None && rows == Updated(old(rows), k, v, now)
    {
      var checked := Check(n, urls);
      if checked.Invalid? {
        return Some(checked.problem);
      }
      var k := IndexOf(rows, id);
      if k == |rows| {
        return Some(NotFound);
      }
      if Taken(rows, checked.node.name, k) {
        return Some(NameExists);
      }
      rows := Updated(rows, k, checked.node, now);
      return None;
    }

    method DisableNode(id: nat, now: int) returns (r: Option<Problem>)
      requires Ok()
      modifies this`rows
      ensures Ok()
      ensures var k := IndexOf(old(rows), id);
              if k == |old(rows)| then r == Some(NotFound) && rows == old(rows)
              else r == None && rows == Updated(old(rows), k, old(rows)[k].node.(enabled := false), now)
    {
      var k := IndexOf(rows, id);
      if k == |rows| {
        return Some(NotFound);
      }
      rows := Updated(rows, k, rows[k].node.(enabled := false), now);
      return None;
    }
  }
}
