/** Expanding `${VAR}` references in declared node fields. */
module EnvExpansion {
  type Env = map<string, string>

  datatype Problem = Unterminated | InvalidName(name: string) | Undefined(name: string)

  datatype Result = Ok(value: string) | Err(problem: Problem)

  predicate NameStart(c: char) {
    c == '_' || 'A' <= c <= 'Z' || 'a' <= c <= 'z'
  }

  predicate NameChar(c: char) {
    NameStart(c) || '0' <= c <= '9'
  }

  /** POSIX-style: [A-Za-z_][A-Za-z0-9_]*. */
  ghost predicate IsEnvName(name: string) {
    name != "" && NameStart(name[0]) && forall i :: 0 <= i < |name| ==> NameChar(name[i])
  }

  /** By code: letters, digits and underscores, and no digit first. */
  lemma EnvNameCodes(name: string)
    ensures IsEnvName(name) <==>
              name != "" && !(48 <= name[0] as int <= 57) &&
              forall i :: 0 <= i < |name| ==>
                var u := name[i] as int; 65 <= u <= 90 || 97 <= u <= 122 || u == 95 || 48 <= u <= 57
  {}

  method ValidEnvName(name: string) returns (ok: bool)
    ensures ok <==> IsEnvName(name)
  {
    if name == "" {
      return false;
    }
    for i := 0 to |name|
      invariant i > 0 ==> NameStart(name[0])
      invariant forall k :: 0 <= k < i ==> NameChar(name[k])
    {
      var c := name[i];
      if c == '_' || 'A' <= c <= 'Z' || 'a' <= c <= 'z' {
      } else if '0' <= c <= '9' {
        if i == 0 {
          return false;
        }
      } else {
        return false;
      }
    }
    return true;
  }

  const OPEN := "${"

  predicate OpensAt(s: string, i: nat) {
    i + 2 <= |s| && s[i] == '$' && s[i + 1] == '{'
  }

  /** Where the first `${` starts, or the length if there is none. */
  function OpenIndex(s: string): (j: nat)
    ensures j <= |s| && (j < |s| ==> OpensAt(s, j)) && forall k :: 0 <= k < j ==> !OpensAt(s, k)
  {
    if s == "" || OpensAt(s, 0) then 0
    else
      assert forall k :: 1 <= k < |s| ==> OpensAt(s, k) == OpensAt(s[1..], k - 1);
      1 + OpenIndex(s[1..])
  }

  /** Where the first `}` is, or the length if there is none. */
  function CloseIndex(s: string): (j: nat)
    ensures j <= |s| && (j < |s| ==> s[j] == '}') && forall k :: 0 <= k < j ==> s[k] != '}'
  {
    if s == "" || s[0] == '}' then 0 else 1 + CloseIndex(s[1..])
  }

  function Prepend(b: string, r: Result): Result {
    if r.Err? then r else Ok(b + r.value)
  }

  /** One turn of the scan over what is left of the input: it ends, or it yields the literal before
      the next reference, the reference's value, and how much of the input that used up. */
  datatype Turn = Last(result: Result) | Piece(lit: string, value: string, used: nat)

  ghost function TurnOf(t: string, env: Env): (turn: Turn)
    ensures turn.Piece? ==> 0 < turn.used <= |t|
  {
    var j := OpenIndex(t);
    if j == |t| then Last(Ok(t))
    else
      var rest := t[j + 2..];
      var k := CloseIndex(rest);
      if k == |rest| then Last(Err(Unterminated))
      else if !IsEnvName(rest[..k]) then Last(Err(InvalidName(rest[..k])))
      else if rest[..k] !in env then Last(Err(Undefined(rest[..k])))
      else Piece(t[..j], env[rest[..k]], j + 2 + k + 1)
  }

  ghost function Expand(t: string, env: Env): Result
    decreases |t|
  {
    var turn := TurnOf(t, env);
    if turn.Last? then turn.result else Prepend(turn.lit + turn.value, Expand(t[turn.used..], env))
  }

  method ReadTurn(t: string, env: Env) returns (turn: Turn)
    ensures turn == TurnOf(t, env)
  {
    var j := OpenIndex(t);
    if j == |t| {
      return Last(Ok(t));
    }
    var rest := t[j + 2..];
    var k := CloseIndex(rest);
    if k == |rest| {
      return Last(Err(Unterminated));
    }
    var name := rest[..k];
    var valid := ValidEnvName(name);
    if !valid {
      return Last(Err(InvalidName(name)));
    }
    if name !in env {
      return Last(Err(Undefined(name)));
    }
    return Piece(t[..j], env[name], j + 2 + k + 1);
  }

  lemma Appended(b: string, lit: string, value: string, r: Result)
    ensures Prepend(b, Prepend(lit + value, r)) == Prepend(b + lit + value, r)
  {
    if r.Ok? { assert b + (lit + value + r.value) == b + lit + value + r.value; }
  }

  lemma NothingLeft(b: string, env: Env)
    ensures Prepend(b, Expand("", env)) == Ok(b)
  {
    assert b + "" == b;
  }

  lemma Plain(s: string, env: Env)
    requires OpenIndex(s) == |s|
    ensures Expand(s, env) == Ok(s)
  {}

  /** The scan: it only ever moves forward over the input, so it ends on every string and never
      looks at a value it has substituted. */
  method ExpandEnv(s: string, env: Env) returns (r: Result)
    ensures r == Expand(s, env)
  {
    hide TurnOf, OpenIndex;
    if OpenIndex(s) == |s| {
      Plain(s, env);
      return Ok(s);
    }
    var b := "";
    var i := 0;
    assert s[0..] == s && Prepend("", Expand(s, env)) == Expand(s, env);
    while i < |s|
      invariant 0 <= i <= |s|
      invariant Expand(s, env) == Prepend(b, Expand(s[i..], env))
      decreases |s| - i
    {
      var t := s[i..];
      var turn := ReadTurn(t, env);
      if turn.Last? {
        return Prepend(b, turn.result);
      }
      Appended(b, turn.lit, turn.value, Expand(t[turn.used..], env));
      Suffix(s, i, turn.used);
      b := b + turn.lit + turn.value;
      i := i + turn.used;
    }
    NothingLeft(b, env);
    assert s[i..] == "";
    return Ok(b);
  }

  lemma Suffix(s: string, i: nat, n: nat)
    requires i + n <= |s|
    ensures s[i..][n..] == s[i + n..]
  {}

  // ---- Templates --------------------------------------------------------------------------------

  /** Literals alternating with variables. */
  datatype Template = End(lit: string) | Ref(lit: string, name: string, rest: Template)

  /** Literals hold no `${` and variables are valid names. */
  ghost predicate WellFormed(t: Template) {
    OpenIndex(t.lit) == |t.lit| && (t.Ref? ==> IsEnvName(t.name) && WellFormed(t.rest))
  }

  ghost predicate Defined(t: Template, env: Env) {
    t.Ref? ==> t.name in env && Defined(t.rest, env)
  }

  function Printed(t: Template): string {
    match t
    case End(lit) => lit
    case Ref(lit, name, rest) => lit + (OPEN + (name + ("}" + Printed(rest))))
  }

  function Value(t: Template, env: Env): string {
    match t
    case End(lit) => lit
    case Ref(lit, name, rest) => lit + (if name in env then env[name] else "") + Value(rest, env)
  }

  /** The first undefined variable of a template, reading left to right. */
  ghost function FirstUndefined(t: Template, env: Env): string
    requires !Defined(t, env)
  {
    if t.name !in env then t.name else FirstUndefined(t.rest, env)
  }

  lemma OpenIsFirst(s: string, j: nat)
    requires OpensAt(s, j) && forall k :: 0 <= k < j ==> !OpensAt(s, k)
    ensures OpenIndex(s) == j
  {}

  lemma CloseIsFirst(s: string, j: nat)
    requires j < |s| && s[j] == '}' && forall k :: 0 <= k < j ==> s[k] != '}'
    ensures CloseIndex(s) == j
  {}

  lemma OpensBehind(lit: string, rest: string)
    requires forall k :: 0 <= k < |lit| ==> !OpensAt(lit, k)
    ensures OpensAt(lit + (OPEN + rest), |lit|) && forall k :: 0 <= k < |lit| ==> !OpensAt(lit + (OPEN + rest), k)
  {
    var s := lit + (OPEN + rest);
    assert s[|lit|] == '$' && s[|lit| + 1] == '{';
    forall k | 0 <= k < |lit| ensures !OpensAt(s, k) {
      assert !OpensAt(lit, k) && s[k] == lit[k];
      assert k + 1 < |lit| ==> s[k + 1] == lit[k + 1];
    }
  }

  lemma Halves(lit: string, rest: string)
    ensures var s := lit + (OPEN + rest); s[..|lit|] == lit && s[|lit| + 2..] == rest
  {
    var s := lit + (OPEN + rest);
    assert s[|lit|..] == OPEN + rest;
    Suffix(s, |lit|, 2);
  }

  lemma OpenFound(lit: string, rest: string)
    requires OpenIndex(lit) == |lit|
    ensures var s := lit + (OPEN + rest); OpenIndex(s) == |lit| && s[..|lit|] == lit && s[|lit| + 2..] == rest
  {
    hide OpensAt;
    OpensBehind(lit, rest);
    OpenIsFirst(lit + (OPEN + rest), |lit|);
    Halves(lit, rest);
  }

  lemma CloseFound(name: string, tail: string)
    requires IsEnvName(name)
    ensures var rest := name + ("}" + tail);
            CloseIndex(rest) == |name| && rest[..|name|] == name && rest[|name| + 1..] == tail
  {
    var rest := name + ("}" + tail);
    forall k | 0 <= k < |name| ensures rest[k] != '}' {
      assert rest[k] == name[k] && NameChar(name[k]);
    }
    CloseIsFirst(rest, |name|);
  }

  lemma TurnOfReference(lit: string, name: string, tail: string, env: Env)
    requires OpenIndex(lit) == |lit| && IsEnvName(name)
    ensures var s := lit + (OPEN + (name + ("}" + tail)));
            var used := |lit| + 2 + |name| + 1;
            TurnOf(s, env) == (if name in env then Piece(lit, env[name], used) else Last(Err(Undefined(name)))) &&
            used <= |s| && s[used..] == tail
  {
    var rest := name + ("}" + tail);
    var s := lit + (OPEN + rest);
    OpenFound(lit, rest);
    CloseFound(name, tail);
    hide OpenIndex, CloseIndex, IsEnvName;
    Suffix(s, |lit| + 2, |name| + 1);
  }

  lemma ExpandFrom(s: string, lit: string, name: string, used: nat, tail: string, env: Env)
    requires TurnOf(s, env) == if name in env then Piece(lit, env[name], used) else Last(Err(Undefined(name)))
    requires used <= |s| && s[used..] == tail
    ensures Expand(s, env) == if name !in env then Err(Undefined(name)) else Prepend(lit + env[name], Expand(tail, env))
  {
    hide TurnOf, Prepend;
  }

  lemma ExpandReference(lit: string, name: string, tail: string, env: Env)
    requires OpenIndex(lit) == |lit| && IsEnvName(name)
    ensures Expand(lit + (OPEN + (name + ("}" + tail))), env) ==
            if name !in env then Err(Undefined(name)) else Prepend(lit + env[name], Expand(tail, env))
  {
    TurnOfReference(lit, name, tail, env);
    hide *;
    ExpandFrom(lit + (OPEN + (name + ("}" + tail))), lit, name, |lit| + 2 + |name| + 1, tail, env);
  }

  /** Expanding the printed form of a template gives the literals and values in order when every
      variable is defined, values never being re-expanded; otherwise it names the first undefined
      variable. */
  lemma {:induction false} ExpandsTemplates(t: Template, env: Env)
    requires WellFormed(t)
    ensures Expand(Printed(t), env) ==
            if Defined(t, env) then Ok(Value(t, env)) else Err(Undefined(FirstUndefined(t, env)))
  {
    match t
    case End(lit) =>
    case Ref(lit, name, rest) =>
      ExpandReference(lit, name, Printed(rest), env);
      ExpandsTemplates(rest, env);
  }

  lemma LiteralIsPlain(s: string)
    ensures OpenIndex(s[..OpenIndex(s)]) == OpenIndex(s)
  {
    var j := OpenIndex(s);
    var m := OpenIndex(s[..j]);
    assert OpensAt(s[..j], m) ==> OpensAt(s, m);
  }

  /** The first `used` characters of s are a literal and a reference. */
  ghost predicate StartsWith(s: string, lit: string, name: string, used: nat) {
    0 < used <= |s| && s == lit + (OPEN + (name + ("}" + s[used..])))
  }

  lemma Reassembled(s: string, j: nat, k: nat)
    requires OpensAt(s, j) && k < |s[j + 2..]| && s[j + 2..][k] == '}'
    ensures StartsWith(s, s[..j], s[j + 2..][..k], j + 2 + k + 1)
  {
    var rest := s[j + 2..];
    assert rest[k + 1..] == s[j + 2 + k + 1..];
    assert rest == rest[..k] + ("}" + rest[k + 1..]);
    assert s == s[..j] + (OPEN + rest);
  }

  /** What a turn that goes on has read. */
  lemma PieceRead(s: string, env: Env) returns (lit: string, name: string, used: nat)
    requires TurnOf(s, env).Piece?
    ensures IsEnvName(name) && name in env && OpenIndex(lit) == |lit|
    ensures TurnOf(s, env) == Piece(lit, env[name], used)
    ensures StartsWith(s, lit, name, used)
  {
    hide *;
    var j, k := PieceShape(s, env);
    lit, name, used := s[..j], s[j + 2..][..k], j + 2 + k + 1;
    Reassembled(s, j, k);
  }

  lemma PieceShape(s: string, env: Env) returns (j: nat, k: nat)
    requires TurnOf(s, env).Piece?
    ensures OpensAt(s, j) && j + 2 <= |s| && k < |s[j + 2..]| && s[j + 2..][k] == '}'
    ensures var name := s[j + 2..][..k];
            IsEnvName(name) && name in env && TurnOf(s, env) == Piece(s[..j], env[name], j + 2 + k + 1) &&
            OpenIndex(s[..j]) == j
  {
    j := OpenIndex(s);
    LiteralIsPlain(s);
    hide OpenIndex, CloseIndex, IsEnvName;
    k := CloseIndex(s[j + 2..]);
  }

  /** Conversely, a string that expands is the printed form of a template of defined variables. */
  lemma {:induction false} ExpandedIsTemplate(s: string, env: Env) returns (t: Template)
    requires Expand(s, env).Ok?
    ensures WellFormed(t) && Defined(t, env) && Printed(t) == s
    decreases |s|
  {
    var turn := TurnOf(s, env);
    if turn.Last? {
      t := End(s);
    } else {
      hide TurnOf, IsEnvName, OpenIndex;
      var lit, name, used := PieceRead(s, env);
      var rest := ExpandedIsTemplate(s[used..], env);
      t := Ref(lit, name, rest);
    }
  }

  /** So a string expands exactly when it is the printed form of such a template. */
  lemma ExpandsExactlyTemplates(s: string, env: Env)
    ensures Expand(s, env).Ok? <==> exists t :: WellFormed(t) && Defined(t, env) && Printed(t) == s
  {
    if Expand(s, env).Ok? {
      var t := ExpandedIsTemplate(s, env);
    }
    forall t | WellFormed(t) && Defined(t, env) && Printed(t) == s ensures Expand(s, env).Ok? {
      ExpandsTemplates(t, env);
    }
  }

  // ---- Errors ------------------------------------------------------------------------------------------------

  /** The template with its text ended by something else. */
  function PrintedBefore(t: Template, tail: string): string {
    match t
    case End(lit) => lit + tail
    case Ref(lit, name, rest) => lit + (OPEN + (name + ("}" + PrintedBefore(rest, tail))))
  }

  /** Behind a template of defined variables, a reference that cannot be followed fails as it does alone. */
  lemma {:induction false} FailsBehind(t: Template, rest: string, env: Env)
    requires WellFormed(t) && Defined(t, env) && TurnOf(OPEN + rest, env).Last?
    ensures Expand(PrintedBefore(t, OPEN + rest), env) == TurnOf(OPEN + rest, env).result
  {
    hide IsEnvName, OpenIndex, TurnOf, Expand;
    match t
    case End(lit) =>
      FailsBehindLiteral(lit, rest, env);
    case Ref(lit, name, more) =>
      ExpandReference(lit, name, PrintedBefore(more, OPEN + rest), env);
      FailsBehind(more, rest, env);
      AlwaysFails(rest, env);
  }

  lemma AlwaysFails(rest: string, env: Env)
    ensures TurnOf(OPEN + rest, env).Last? ==> TurnOf(OPEN + rest, env).result.Err?
  {
    LiteralTurn("", rest, env);
    assert "" + (OPEN + rest) == OPEN + rest;
    hide TurnOf, CloseIndex, IsEnvName;
  }

  lemma FailsBehindLiteral(lit: string, rest: string, env: Env)
    requires OpenIndex(lit) == |lit| && TurnOf(OPEN + rest, env).Last?
    ensures Expand(lit + (OPEN + rest), env) == TurnOf(OPEN + rest, env).result
  {
    LiteralTurn(lit, rest, env);
    LiteralTurn("", rest, env);
    assert "" + (OPEN + rest) == OPEN + rest;
    hide TurnOf, CloseIndex, IsEnvName, OpenIndex;
  }

  /** A turn is the same but for the literal in front. */
  lemma LiteralTurn(lit: string, rest: string, env: Env)
    requires OpenIndex(lit) == |lit|
    ensures var k := CloseIndex(rest);
            TurnOf(lit + (OPEN + rest), env) ==
            (if k == |rest| then Last(Err(Unterminated))
             else if !IsEnvName(rest[..k]) then Last(Err(InvalidName(rest[..k])))
             else if rest[..k] !in env then Last(Err(Undefined(rest[..k])))
             else Piece(lit, env[rest[..k]], |lit| + 2 + k + 1)) &&
            (k < |rest| ==>
               |lit| + 2 + k + 1 <= |lit + (OPEN + rest)| &&
               (lit + (OPEN + rest))[|lit| + 2 + k + 1..] == rest[k + 1..])
  {
    OpenFound(lit, rest);
    hide OpenIndex, CloseIndex, IsEnvName;
    var k := CloseIndex(rest);
    if k < |rest| { Suffix(lit + (OPEN + rest), |lit| + 2, k + 1); }
  }

  /** Which error: a string that starts as a template of defined variables and goes on with `${` is reported as
      unterminated if no `}` follows, and otherwise by the name before the first `}`, as invalid if it is no
      variable name and as undefined if it is one that is not set. */
  lemma ErrorsNamed(t: Template, rest: string, env: Env)
    requires WellFormed(t) && Defined(t, env)
    ensures '}' !in rest ==> Expand(PrintedBefore(t, OPEN + rest), env) == Err(Unterminated)
    ensures forall k :: 0 <= k < |rest| && rest[k] == '}' && '}' !in rest[..k] ==>
              (!IsEnvName(rest[..k]) ==> Expand(PrintedBefore(t, OPEN + rest), env) == Err(InvalidName(rest[..k]))) &&
              (IsEnvName(rest[..k]) && rest[..k] !in env ==>
                 Expand(PrintedBefore(t, OPEN + rest), env) == Err(Undefined(rest[..k])))
  {
    var tail := OPEN + rest;
    assert "" + tail == tail;
    LiteralTurn("", rest, env);
    forall k | 0 <= k < |rest| && rest[k] == '}' && '}' !in rest[..k] ensures CloseIndex(rest) == k {
      forall i | 0 <= i < k ensures rest[i] != '}' { assert rest[..k][i] == rest[i]; }
      CloseIsFirst(rest, k);
    }
    hide TurnOf, IsEnvName, PrintedBefore;
    if TurnOf(tail, env).Last? { FailsBehind(t, rest, env); }
  }
}
