/** Asking the backend for a final usage chunk without disturbing the rest of the request. */
module UsageInjection {

  /** A decoded value as far as the rewrite looks into it. */
  datatype Json = Null | True | Object(fields: map<string, Json>) | Other(raw: string)

  const OPTIONS := "stream_options"
  const INCLUDE := "include_usage"

  /** The request's options as a map, when they have that shape. */
  predicate Extensible(body: Json)
    requires body.Object?
  {
    OPTIONS !in body.fields || body.fields[OPTIONS].Null? || body.fields[OPTIONS].Object?
  }

  /** `body` is the object the handler has already read a model name from. */
  function Inject(body: Json): (r: (Json, bool))
    requires body.Object?
    ensures r.1 <==> Extensible(body)
    ensures !r.1 ==> r.0 == body
    ensures r.1 ==> r.0.Object? && r.0.fields - {OPTIONS} == body.fields - {OPTIONS}
    ensures r.1 ==> OPTIONS in r.0.fields && r.0.fields[OPTIONS].Object? && WantsUsage(r.0)
    ensures r.1 && OPTIONS in body.fields && body.fields[OPTIONS].Object? ==>
              r.0.fields[OPTIONS].fields - {INCLUDE} == body.fields[OPTIONS].fields - {INCLUDE}
    ensures r.1 && (OPTIONS !in body.fields || body.fields[OPTIONS].Null?) ==>
              r.0.fields[OPTIONS].fields.Keys == {INCLUDE}
  {
    var so: map<string, Json> :=
      if OPTIONS in body.fields && body.fields[OPTIONS].Object? then body.fields[OPTIONS].fields else map[];
    if OPTIONS in body.fields && !body.fields[OPTIONS].Null? && !body.fields[OPTIONS].Object? then (body, false)
    else (Object(body.fields[OPTIONS := Object(so[INCLUDE := True])]), true)
  }

  /** The request itself asks for the usage chunk. */
  predicate WantsUsage(body: Json)
    requires body.Object?
  {
    OPTIONS in body.fields && body.fields[OPTIONS].Object? && INCLUDE in body.fields[OPTIONS].fields &&
    body.fields[OPTIONS].fields[INCLUDE] == True
  }

  /** Injection changes exactly the requests that did not ask, and asking again changes nothing. */
  lemma InjectionFixesRequests(body: Json)
    requires body.Object?
    ensures WantsUsage(body) ==> Inject(body) == (body, true)
    ensures Inject(body).1 ==> Inject(Inject(body).0) == (Inject(body).0, true)
    ensures Inject(body).1 && Inject(body).0 == body ==> WantsUsage(body)
  {
    if WantsUsage(body) {
      InjectAgain(body);
    }
    if Inject(body).1 {
      InjectAgain(Inject(body).0);
    }
  }

  lemma InjectAgain(body: Json)
    requires body.Object? && WantsUsage(body)
    ensures Inject(body) == (body, true)
  {
    var so := body.fields[OPTIONS].fields;
    assert so[INCLUDE := True] == so;
    assert body.fields[OPTIONS := Object(so)] == body.fields;
  }
}
