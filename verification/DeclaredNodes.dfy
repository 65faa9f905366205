/** Loading the declared node set and merging it into the node table at startup. */
module DeclaredNodes {
  import opened Common
  import E = EnvExpansion
  import opened NodeStore

  /** An entry of the nodes file. */
  datatype Entry = Entry(name: string, baseUrl: string, backend: string, authHeader: Option<string>,
                         healthPath: Option<string>, timeoutSeconds: Option<int>, staticModels: Option<seq<string>>)

  datatype Error = Expansion(problem: E.Problem)
                 | InvalidEntry(reason: Problem)
                 | DuplicateName(name: string)
                 | InvalidOllamaUrl
                 | DefaultDeclaredTwice
                 | Collision(name: string, id: nat)
                 | WriteFailed(cause: Option<Problem>)

  datatype Result<+T> = Ok(value: T) | Err(error: Error) {
    predicate IsFailure() { Err? }
    function PropagateFailure<U>(): Result<U> requires Err? { Err(error) }
    function Extract(): T requires Ok? { value }
  }

  // ---- One entry --------------------------------------------------------------------------------

  ghost function Expanded(s: string, env: E.Env): Result<string> {
    match E.Expand(s, env)
    case Ok(v) => Ok(v)
    case Err(p) => Err(Expansion(p))
  }

  ghost function ExpandedOption(o: Option<string>, env: E.Env): Result<Option<string>> {
    if o.None? then Ok(None) else var v :- Expanded(o.value, env); Ok(Some(v))
  }

  ghost function ExpandedAll(ss: seq<string>, env: E.Env): Result<seq<string>> {
    if ss == [] then Ok([])
    else
      var front :- ExpandedAll(ss[..|ss| - 1], env);
      var last :- Expanded(ss[|ss| - 1], env);
      Ok(front + [last])
  }

  ghost function ExpandedModels(o: Option<seq<string>>, env: E.Env): Result<Option<seq<string>>> {
    if o.None? then Ok(None) else var v :- ExpandedAll(o.value, env); Ok(Some(v))
  }

  /** The node an entry declares: every string expanded, then the store's own validation. */
  ghost function NodeOf(d: Entry, env: E.Env, urls: Urls): Result<Node> {
    var name :- Expanded(d.name, env);
    var baseUrl :- Expanded(d.baseUrl, env);
    var backend :- Expanded(d.backend, env);
    var authHeader :- ExpandedOption(d.authHeader, env);
    var healthPath :- ExpandedOption(d.healthPath, env);
    var staticModels :- ExpandedModels(d.staticModels, env);
    var n := Node(name, baseUrl, backend, authHeader, staticModels, healthPath, d.timeoutSeconds, true, Config);
    match Check(n, urls)
    case Invalid(p) => Err(InvalidEntry(p))
    case Valid(n) => Ok(n)
  }

  method Expand(s: string, env: E.Env) returns (r: Result<string>)
    ensures r == Expanded(s, env)
  {
    var e := E.ExpandEnv(s, env);
    return if e.Ok? then Ok(e.value) else Err(Expansion(e.problem));
  }

  method ExpandOption(o: Option<string>, env: E.Env) returns (r: Result<Option<string>>)
    ensures r == ExpandedOption(o, env)
  {
    if o.None? {
      return Ok(None);
    }
    var v :- Expand(o.value, env);
    return Ok(Some(v));
  }

  lemma FailsEarly(ss: seq<string>, i: nat, env: E.Env)
    requires i <= |ss| && ExpandedAll(ss[..i], env).Err?
    ensures ExpandedAll(ss, env) == ExpandedAll(ss[..i], env)
  {
    if i < |ss| {
      assert ss[..|ss| - 1][..i] == ss[..i];
      FailsEarly(ss[..|ss| - 1], i, env);
    } else {
      assert ss[..i] == ss;
    }
  }

  lemma ExpandsOneMore(ss: seq<string>, i: nat, env: E.Env)
    requires i < |ss| && ExpandedAll(ss[..i], env).Ok?
    ensures var v := Expanded(ss[i], env);
            ExpandedAll(ss[..i + 1], env) ==
            if v.Err? then Err(v.error) else Ok(ExpandedAll(ss[..i], env).value + [v.value])
  {
    hide Expanded;
    assert ss[..i + 1][..i] == ss[..i];
  }

  method ExpandModels(o: Option<seq<string>>, env: E.Env) returns (r: Result<Option<seq<string>>>)
    ensures r == ExpandedModels(o, env)
  {
    if o.None? {
      return Ok(None);
    }
    hide Expanded;
    var models := o.value;
    var out := [];
    assert models[..0] == [];
    hide ExpandedAll;
    for i := 0 to |models|
      invariant ExpandedAll(models[..i], env) == Ok(out)
    {
      ExpandsOneMore(models, i, env);
      var v := Expand(models[i], env);
      if v.Err? {
        FailsEarly(models, i + 1, env);
        return Err(v.error);
      }
      out := out + [v.value];
    }
    assert models[..|models|] == models;
    return Ok(Some(out));
  }

  method ToNode(d: Entry, env: E.Env, urls: Urls) returns (r: Result<Node>)
    ensures r == NodeOf(d, env, urls)
  {
    hide Expanded, ExpandedOption, ExpandedModels, Check;
    var name :- Expand(d.name, env);
    var baseUrl :- Expand(d.baseUrl, env);
    var backend :- Expand(d.backend, env);
    var authHeader :- ExpandOption(d.authHeader, env);
    var healthPath :- ExpandOption(d.healthPath, env);
    var staticModels :- ExpandModels(d.staticModels, env);
    var checked :=
      Check(Node(name, baseUrl, backend, authHeader, staticModels, healthPath, d.timeoutSeconds, true, Config), urls);
    return match checked
           case Invalid(p) => Err(InvalidEntry(p))
           case Valid(n) => Ok(n);
  }

  // ---- The declared set -------------------------------------------------------------------------

  /** The store canonicalises a base URL once more when it writes the node; not every canonical URL
      need be accepted again. */
  predicate Accepted(n: Node, urls: Urls) {
    urls.canonical(n.baseUrl).Some?
  }

  function Stored(n: Node, urls: Urls): Node {
    if Accepted(n, urls) then n.(baseUrl := urls.canonical(n.baseUrl).value) else n
  }

  function StoredAll(ns: seq<Node>, urls: Urls): seq<Node> {
    seq(|ns|, i requires 0 <= i < |ns| => Stored(ns[i], urls))
  }

  /** How many declarations come before the first that the store will refuse. */
  function AcceptedCount(ns: seq<Node>, urls: Urls): (k: nat)
    ensures k <= |ns| && (k < |ns| ==> !Accepted(ns[k], urls)) && forall i :: 0 <= i < k ==> Accepted(ns[i], urls)
  {
    if ns == [] || !Accepted(ns[0], urls) then 0 else 1 + AcceptedCount(ns[1..], urls)
  }

  /** A node as loading leaves it: enabled, owned by the configuration, and valid to the store if its
      base URL is accepted again. */
  ghost predicate Ready(n: Node, urls: Urls) {
    n.enabled && n.source == Config &&
    Check(n, urls) == if Accepted(n, urls) then Valid(Stored(n, urls)) else Invalid(BadBaseUrl)
  }

  ghost predicate AllReady(ns: seq<Node>, urls: Urls) {
    forall i :: 0 <= i < |ns| ==> Ready(ns[i], urls)
  }

  ghost predicate Distinct(ns: seq<Node>) {
    forall i, j :: 0 <= i < j < |ns| ==> ns[i].name != ns[j].name
  }

  ghost predicate Declares(ns: seq<Node>, name: string) {
    exists i :: 0 <= i < |ns| && ns[i].name == name
  }

  ghost function FileNodes(entries: seq<Entry>, env: E.Env, urls: Urls): Result<seq<Node>> {
    if entries == [] then Ok([])
    else
      var front :- FileNodes(entries[..|entries| - 1], env, urls);
      var n :- NodeOf(entries[|entries| - 1], env, urls);
      if Declares(front, n.name) then Err(DuplicateName(n.name)) else Ok(front + [n])
  }

  /** The node synthesised from OLLAMA_URL. */
  function DefaultNode(base: string): Node {
    Node("default", base, "ollama", None, None, None, None, true, Config)
  }

  /** The nodes of the file, if one is configured, and the synthesised one, if its URL is set. */
  ghost function Declared(file: Option<seq<Entry>>, ollamaUrl: Option<string>, env: E.Env, urls: Urls)
    : Result<seq<Node>>
  {
    var nodes :- if file.None? then Ok([]) else FileNodes(file.value, env, urls);
    if ollamaUrl.None? then Ok(nodes)
    else if urls.canonical(ollamaUrl.value).None? then Err(InvalidOllamaUrl)
    else if Declares(nodes, "default") then Err(DefaultDeclaredTwice)
    else Ok(nodes + [DefaultNode(urls.canonical(ollamaUrl.value).value)])
  }

  lemma DeclaresOneMore(ns: seq<Node>, n: Node, name: string)
    ensures Declares(ns + [n], name) <==> Declares(ns, name) || name == n.name
  {
    if Declares(ns, name) {
      var i :| 0 <= i < |ns| && ns[i].name == name;
      assert (ns + [n])[i].name == name;
    }
    assert (ns + [n])[|ns|] == n;
  }

  lemma FailsEarlyInFile(entries: seq<Entry>, i: nat, env: E.Env, urls: Urls)
    requires i <= |entries| && FileNodes(entries[..i], env, urls).Err?
    ensures FileNodes(entries, env, urls) == FileNodes(entries[..i], env, urls)
  {
    hide NodeOf;
    if i < |entries| {
      assert entries[..|entries| - 1][..i] == entries[..i];
      FailsEarlyInFile(entries[..|entries| - 1], i, env, urls);
    } else {
      assert entries[..i] == entries;
    }
  }

  method LoadNodesFile(entries: seq<Entry>, env: E.Env, urls: Urls) returns (r: Result<seq<Node>>)
    ensures r == FileNodes(entries, env, urls)
  {
    hide NodeOf, Declares;
    var nodes: seq<Node> := [];
    var seen: set<string> := {};
    NoneDeclared();
    for i := 0 to |entries|
      invariant FileNodes(entries[..i], env, urls) == Ok(nodes)
      invariant forall name :: name in seen <==> Declares(nodes, name)
    {
      assert entries[..i + 1][..i] == entries[..i];
      var n := ToNode(entries[i], env, urls);
      if n.Err? {
        FailsEarlyInFile(entries, i + 1, env, urls);
        return Err(n.error);
      }
      if n.value.name in seen {
        FailsEarlyInFile(entries, i + 1, env, urls);
        return Err(DuplicateName(n.value.name));
      }
      forall name ensures Declares(nodes + [n.value], name) <==> Declares(nodes, name) || name == n.value.name {
        DeclaresOneMore(nodes, n.value, name);
      }
      seen := seen + {n.value.name};
      nodes := nodes + [n.value];
    }
    assert entries[..|entries|] == entries;
    return Ok(nodes);
  }

  lemma NoneDeclared()
    ensures forall name :: !Declares([], name)
  {}

  method LoadDeclared(file: Option<seq<Entry>>, ollamaUrl: Option<string>, env: E.Env, urls: Urls)
    returns (r: Result<seq<Node>>)
    ensures r == Declared(file, ollamaUrl, env, urls)
  {
    hide FileNodes, NodeOf;
    var declared: seq<Node> := [];
    if file.Some? {
      declared :- LoadNodesFile(file.value, env, urls);
    }
    if ollamaUrl.Some? {
      var base := urls.canonical(ollamaUrl.value);
      if base.None? {
        return Err(InvalidOllamaUrl);
      }
      for i := 0 to |declared|
        invariant forall k :: 0 <= k < i ==> declared[k].name != "default"
      {
        if declared[i].name == "default" {
          return Err(DefaultDeclaredTwice);
        }
      }
      declared := declared + [DefaultNode(base.value)];
    }
    return Ok(declared);
  }

  /** ns is the pointwise reading of the entries. */
  ghost predicate Reads(ns: seq<Node>, entries: seq<Entry>, env: E.Env, urls: Urls) {
    |ns| == |entries| && forall i :: 0 <= i < |ns| ==> NodeOf(entries[i], env, urls) == Ok(ns[i])
  }

  lemma DistinctOneMore(ns: seq<Node>, n: Node)
    ensures Distinct(ns + [n]) <==> Distinct(ns) && !Declares(ns, n.name)
  {
    var ms := ns + [n];
    if Distinct(ms) {
      forall i, j | 0 <= i < j < |ns| ensures ns[i].name != ns[j].name {
        assert ms[i].name != ms[j].name;
      }
      forall i | 0 <= i < |ns| ensures ns[i].name != n.name {
        assert ms[i].name != ms[|ns|].name;
      }
    }
  }

  lemma ReadsOneMore(ns: seq<Node>, n: Node, entries: seq<Entry>, d: Entry, env: E.Env, urls: Urls)
    ensures Reads(ns + [n], entries + [d], env, urls) <==>
              Reads(ns, entries, env, urls) && NodeOf(d, env, urls) == Ok(n)
  {
    hide NodeOf;
    var ms, es := ns + [n], entries + [d];
    if Reads(ms, es, env, urls) {
      assert ms[|ns|] == n && es[|ns|] == d;
      assert forall i :: 0 <= i < |ns| ==> ms[i] == ns[i] && es[i] == entries[i];
    }
  }

  lemma ReadsLengths(ns: seq<Node>, entries: seq<Entry>, env: E.Env, urls: Urls)
    ensures Reads(ns, entries, env, urls) ==> |ns| == |entries|
    ensures Reads([], [], env, urls) && Distinct([])
  {}

  /** A file loads as ns exactly when ns reads its entries one by one and no name occurs twice. */
  lemma {:induction false} LoadsExactly(entries: seq<Entry>, ns: seq<Node>, env: E.Env, urls: Urls)
    ensures FileNodes(entries, env, urls) == Ok(ns) <==> Reads(ns, entries, env, urls) && Distinct(ns)
  {
    hide NodeOf, Declares, Reads, Distinct;
    ReadsLengths(ns, entries, env, urls);
    if entries != [] {
      var front, d := entries[..|entries| - 1], entries[|entries| - 1];
      assert entries == front + [d];
      var r := FileNodes(front, env, urls);
      if r.Ok? {
        LoadsExactly(front, r.value, env, urls);
        var n := NodeOf(d, env, urls);
        if n.Ok? {
          DistinctOneMore(r.value, n.value);
          ReadsOneMore(r.value, n.value, front, d, env, urls);
        }
      }
      if ns != [] {
        var init, n := ns[..|ns| - 1], ns[|ns| - 1];
        assert ns == init + [n];
        LoadsExactly(front, init, env, urls);
        DistinctOneMore(init, n);
        ReadsOneMore(init, n, front, d, env, urls);
      }
    }
  }

  // ---- What a declaration says ------------------------------------------------------------------------------

  /** Every field of a declared node is the expansion of the entry's field of that name; the name is trimmed
      besides, the URL canonical and the backend defaulted. */
  lemma FieldsExpanded(d: Entry, env: E.Env, urls: Urls)
    requires NodeOf(d, env, urls).Ok?
    ensures var n := NodeOf(d, env, urls).value;
            && E.Expand(d.name, env).Ok? && n.name == TrimSpace(E.Expand(d.name, env).value)
            && E.Expand(d.baseUrl, env).Ok? && urls.canonical(E.Expand(d.baseUrl, env).value) == Some(n.baseUrl)
            && E.Expand(d.backend, env).Ok?
            && n.backend == (if E.Expand(d.backend, env).value == "" then "ollama" else E.Expand(d.backend, env).value)
            && (d.authHeader.None? <==> n.authHeader.None?)
            && (d.authHeader.Some? ==> E.Expand(d.authHeader.value, env) == E.Ok(n.authHeader.value))
            && (d.healthPath.None? <==> n.healthPath.None?)
            && (d.healthPath.Some? ==> E.Expand(d.healthPath.value, env) == E.Ok(n.healthPath.value))
            && n.timeoutSeconds == d.timeoutSeconds && n.enabled && n.source == Config
  {
    hide E.Expand, ExpandedAll;
  }

  /** So is each pinned model, in order. */
  lemma ModelsExpanded(d: Entry, env: E.Env, urls: Urls)
    requires NodeOf(d, env, urls).Ok?
    ensures var n := NodeOf(d, env, urls).value;
            (d.staticModels.None? <==> n.staticModels.None?) &&
            (d.staticModels.Some? ==>
               |n.staticModels.value| == |d.staticModels.value| &&
               forall i :: 0 <= i < |d.staticModels.value| ==>
                 E.Expand(d.staticModels.value[i], env) == E.Ok(n.staticModels.value[i]))
  {
    hide E.Expand;
    if d.staticModels.Some? {
      AllExpanded(d.staticModels.value, env);
    }
    hide ExpandedAll;
  }

  lemma {:induction false} AllExpanded(ss: seq<string>, env: E.Env)
    ensures var r := ExpandedAll(ss, env);
            r.Ok? ==> |r.value| == |ss| && forall i :: 0 <= i < |ss| ==> E.Expand(ss[i], env) == E.Ok(r.value[i])
  {
    hide E.Expand;
    if ss != [] { AllExpanded(ss[..|ss| - 1], env); }
  }

  /** What loads is the file's nodes, if there is a file, and then, if OLLAMA_URL is set, one named "default" at
      its canonical form, which must exist, while the file must not declare one of that name. */
  lemma DeclaredExactly(file: Option<seq<Entry>>, ollamaUrl: Option<string>, env: E.Env, urls: Urls, ns: seq<Node>)
    ensures Declared(file, ollamaUrl, env, urls) == Ok(ns) <==>
              exists fs: seq<Node> ::
                (if file.None? then fs == [] else Reads(fs, file.value, env, urls) && Distinct(fs)) &&
                if ollamaUrl.None? then ns == fs
                else
                  |ns| == |fs| + 1 && ns[..|fs|] == fs && (forall f <- fs :: f.name != "default") &&
                  urls.canonical(ollamaUrl.value) == Some(ns[|fs|].baseUrl) &&
                  ns[|fs|] == Node("default", ns[|fs|].baseUrl, "ollama", None, None, None, None, true, Config)
  {
    hide FileNodes, Reads, Distinct;
    if Declared(file, ollamaUrl, env, urls) == Ok(ns) {
      var fs := if file.None? then [] else FileNodes(file.value, env, urls).value;
      if file.Some? { LoadsExactly(file.value, fs, env, urls); }
      if ollamaUrl.Some? {
        assert ns == fs + [DefaultNode(urls.canonical(ollamaUrl.value).value)];
        forall f <- fs ensures f.name != "default" {
          var i :| 0 <= i < |fs| && fs[i] == f;
        }
      }
    }
    forall fs: seq<Node> |
      (if file.None? then fs == [] else Reads(fs, file.value, env, urls) && Distinct(fs)) &&
      if ollamaUrl.None? then ns == fs
      else
        |ns| == |fs| + 1 && ns[..|fs|] == fs && (forall f <- fs :: f.name != "default") &&
        urls.canonical(ollamaUrl.value) == Some(ns[|fs|].baseUrl) &&
        ns[|fs|] == Node("default", ns[|fs|].baseUrl, "ollama", None, None, None, None, true, Config)
      ensures Declared(file, ollamaUrl, env, urls) == Ok(ns)
    {
      if file.Some? { LoadsExactly(file.value, fs, env, urls); }
      if ollamaUrl.Some? { assert ns == fs + [ns[|fs|]]; }
    }
  }
}
