/** The Access-Control headers of the echo route, and which requests they answer. */
module Cors {
  import opened Headers

  /** `all` when every origin is allowed; otherwise the listed ones are. */
  datatype Policy = Policy(all: bool, origins: seq<string>, credentials: bool, methods: string, headers: string)

  /** What a request says: whether it is an OPTIONS request, its origin, and what it asks leave for. */
  datatype Asked = Asked(options: bool, origin: string, verb: string, headers: string)

  const ALLOW_ORIGIN := "Access-Control-Allow-Origin"
  const ALLOW_CREDENTIALS := "Access-Control-Allow-Credentials"
  const ALLOW_METHODS := "Access-Control-Allow-Methods"
  const ALLOW_HEADERS := "Access-Control-Allow-Headers"
  const VARY := "Vary"
  const DEFAULT_METHODS := "GET, POST, PUT, PATCH, DELETE, HEAD, OPTIONS"

  predicate Active(p: Policy) {
    p.all || p.origins != []
  }

  predicate Preflight(a: Asked) {
    a.options && a.verb != ""
  }

  predicate Listed(p: Policy, a: Asked) {
    !p.all && a.origin != "" && a.origin in p.origins
  }

  function MethodsFor(p: Policy): string {
    if p.methods == "" then DEFAULT_METHODS else p.methods
  }

  function HeadersFor(p: Policy, a: Asked): string {
    if p.headers == "" then a.headers else p.headers
  }

  /** The header values that one request gets under one policy, name by name. */
  function Granted(p: Policy, a: Asked, name: string): seq<string> {
    var allowed := if p.all then ["*"] else if Listed(p, a) then [a.origin] else [];
    if name == ALLOW_ORIGIN then allowed
    else if name == ALLOW_CREDENTIALS then (if allowed != [] && p.credentials then ["true"] else [])
    else if name == VARY then (if Listed(p, a) then ["Origin"] else [])
    else if name == ALLOW_METHODS then (if Preflight(a) then [MethodsFor(p)] else [])
    else if name == ALLOW_HEADERS then (if Preflight(a) && HeadersFor(p, a) != "" then [HeadersFor(p, a)] else [])
    else []
  }

  /** h holds exactly the granted headers. */
  ghost predicate Grants(p: Policy, a: Asked, h: Header) {
    forall name :: Values(h, name) == Granted(p, a, name) && (name in h <==> Granted(p, a, name) != [])
  }

  lemma GrantsDetermine(p: Policy, a: Asked, h: Header, h': Header)
    requires Grants(p, a, h) && Grants(p, a, h')
    ensures h == h'
  {
    forall name ensures name in h <==> name in h' {
      assert Values(h, name) == Values(h', name);
    }
    forall name | name in h ensures h[name] == h'[name] {
      assert Values(h, name) == Values(h', name);
    }
  }

  /** The origin part of applyCORS, on an empty header set. */
  method GrantOrigin(p: Policy, a: Asked) returns (h: Header)
    ensures Grants(p, a.(options := false), h)
  {
    h := map[];
    var allowed := "";
    if p.all {
      allowed := "*";
    } else if a.origin != "" {
      for i := 0 to |p.origins|
        invariant allowed == "" && h == map[] && a.origin !in p.origins[..i]
      {
        assert p.origins[..i + 1] == p.origins[..i] + [p.origins[i]];
        if p.origins[i] == a.origin {
          allowed := a.origin;
          h := Add(h, VARY, "Origin");
          break;
        }
      }
      assert p.origins[..|p.origins|] == p.origins;
    }
    if allowed != "" {
      h := Set(h, ALLOW_ORIGIN, allowed);
      if p.credentials {
        h := Set(h, ALLOW_CREDENTIALS, "true");
      }
    }
  }

  /** Setting one header changes the values of that name only. */
  lemma SetValues(h: Header, name: string, value: string, n: string)
    ensures Values(Set(h, name, value), n) == if n == name then [value] else Values(h, n)
    ensures n in Set(h, name, value) <==> n == name || n in h
  {
  }

  /** Whether a preflight is answered matters to two headers only. */
  lemma PreflightMatters(p: Policy, a: Asked, name: string)
    requires Preflight(a)
    ensures Granted(p, a, name)
         == if name == ALLOW_METHODS then [MethodsFor(p)]
            else if name == ALLOW_HEADERS then (if HeadersFor(p, a) == "" then [] else [HeadersFor(p, a)])
            else Granted(p, a.(options := false), name)
    ensures Granted(p, a.(options := false), ALLOW_METHODS) == []
    ensures Granted(p, a.(options := false), ALLOW_HEADERS) == []
    ensures ALLOW_METHODS != ALLOW_HEADERS
  {
    assert ALLOW_METHODS[21] == 'M' && ALLOW_HEADERS[21] == 'H';
  }

  /** applyCORS on an empty header set: `answered` for a preflight. */
  method Apply(p: Policy, a: Asked) returns (h: Header, answered: bool)
    ensures Grants(p, a, h) && answered == Preflight(a)
  {
    var granted := GrantOrigin(p, a);
    h := granted;
    answered := a.options && a.verb != "";
    if answered {
      h := GrantPreflight(p, a, granted);
    }
  }

  /** The preflight part of applyCORS. */
  method GrantPreflight(p: Policy, a: Asked, granted: Header) returns (h: Header)
    requires Preflight(a) && Grants(p, a.(options := false), granted)
    ensures Grants(p, a, h)
  {
    var methods := if p.methods == "" then DEFAULT_METHODS else p.methods;
    var headers := if p.headers == "" then a.headers else p.headers;
    h := Set(granted, ALLOW_METHODS, methods);
    if headers != "" {
      h := Set(h, ALLOW_HEADERS, headers);
    }
    forall name ensures Values(h, name) == Granted(p, a, name) && (name in h <==> Granted(p, a, name) != []) {
      PreflightMatters(p, a, name);
      SetValues(granted, ALLOW_METHODS, methods, name);
      SetValues(Set(granted, ALLOW_METHODS, methods), ALLOW_HEADERS, headers, name);
      assert Values(granted, name) == Granted(p, a.(options := false), name);
    }
  }

  /** The names are all different. */
  lemma NamesDiffer()
    ensures |ALLOW_ORIGIN| == 27 && |ALLOW_CREDENTIALS| == 32 && |ALLOW_METHODS| == 28 && |ALLOW_HEADERS| == 28
    ensures |VARY| == 4 && ALLOW_METHODS != ALLOW_HEADERS
  {
    assert ALLOW_METHODS[21] == 'M' && ALLOW_HEADERS[21] == 'H';
  }

  /** An origin is allowed only if all are or it is listed, and credentials only together with an origin. */
  lemma OriginIsAllowedIff(p: Policy, a: Asked, h: Header)
    requires Grants(p, a, h)
    ensures "Access-Control-Allow-Origin" in h <==> p.all || (a.origin != "" && a.origin in p.origins)
    ensures "Access-Control-Allow-Origin" in h ==> h["Access-Control-Allow-Origin"] == [if p.all then "*" else a.origin]
    ensures "Access-Control-Allow-Credentials" in h <==> p.credentials && "Access-Control-Allow-Origin" in h
    ensures "Access-Control-Allow-Credentials" in h ==> h["Access-Control-Allow-Credentials"] == ["true"]
    ensures "Vary" in h <==> !p.all && "Access-Control-Allow-Origin" in h
    ensures "Vary" in h ==> h["Vary"] == ["Origin"]
  {
    NamesDiffer();
    assert Values(h, ALLOW_ORIGIN) == Granted(p, a, ALLOW_ORIGIN);
    assert Values(h, ALLOW_CREDENTIALS) == Granted(p, a, ALLOW_CREDENTIALS);
    assert Values(h, VARY) == Granted(p, a, VARY);
  }

  /**
   * Methods and headers are granted to preflights only: the configured ones, or
   * all usual methods and what was asked.
   */
  lemma PreflightIsGranted(p: Policy, a: Asked, h: Header)
    requires Grants(p, a, h)
    ensures "Access-Control-Allow-Methods" in h <==> a.options && a.verb != ""
    ensures "Access-Control-Allow-Methods" in h ==>
              h["Access-Control-Allow-Methods"]
              == [if p.methods != "" then p.methods else "GET, POST, PUT, PATCH, DELETE, HEAD, OPTIONS"]
    ensures "Access-Control-Allow-Headers" in h <==> a.options && a.verb != "" && (p.headers != "" || a.headers != "")
    ensures "Access-Control-Allow-Headers" in h ==>
              h["Access-Control-Allow-Headers"] == [if p.headers != "" then p.headers else a.headers]
  {
    NamesDiffer();
    assert Values(h, ALLOW_METHODS) == Granted(p, a, ALLOW_METHODS);
    assert Values(h, ALLOW_HEADERS) == Granted(p, a, ALLOW_HEADERS);
  }
}
