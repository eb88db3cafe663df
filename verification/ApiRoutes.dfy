/** The server's route table, and that the order of its registrations does not matter. */
module ApiRoutes {
  import opened Text
  import opened Routers

  datatype Endpoint =
    | Token | JwksSet | Discovery | Health | OpenApiYaml | OpenApiJson | Docs | DocsCss | DocsScript
    | RegisterClient | ListClients | DeleteClient | SetGrants | RotateKeys | Revoke | ListRevocations | AuditLog

  /** In registration order. */
  const ENDPOINTS := [
    Token, JwksSet, Discovery, Health, OpenApiYaml, OpenApiJson, Docs, DocsCss, DocsScript,
    RegisterClient, ListClients, DeleteClient, SetGrants, RotateKeys, Revoke, ListRevocations, AuditLog]

  function MethodOf(e: Endpoint): string {
    match e
    case Token | RegisterClient | RotateKeys | Revoke => "POST"
    case DeleteClient => "DELETE"
    case SetGrants => "PUT"
    case _ => "GET"
  }

  /** The pattern's segments; the registered pattern is a slash and these joined by slashes. */
  function SegmentsOf(e: Endpoint): seq<string> {
    match e
    case Token => ["oauth", "token"]
    case JwksSet => [".well-known", "jwks.json"]
    case Discovery => [".well-known", "idp-configuration"]
    case Health => ["health"]
    case OpenApiYaml => ["openapi.yaml"]
    case OpenApiJson => ["openapi.json"]
    case Docs => ["docs"]
    case DocsCss => ["docs", "swagger-ui.css"]
    case DocsScript => ["docs", "swagger-ui-bundle.js"]
    case RegisterClient => ["admin", "clients"]
    case ListClients => ["admin", "clients"]
    case DeleteClient => ["admin", "clients", "{id}"]
    case SetGrants => ["admin", "clients", "{id}", "grants"]
    case RotateKeys => ["admin", "keys", "rotate"]
    case Revoke => ["admin", "revocations"]
    case ListRevocations => ["admin", "revocations"]
    case AuditLog => ["admin", "audit"]
  }

  function PatternOf(e: Endpoint): string { "/" + Join(SegmentsOf(e), "/") }

  function RouteOf(e: Endpoint): Route<Endpoint> { Route(MethodOf(e), SegmentsOf(e), e) }

  function Table(endpoints: seq<Endpoint>): (routes: seq<Route<Endpoint>>)
    ensures |routes| == |endpoints|
  {
    seq(|endpoints|, i requires 0 <= i < |endpoints| => RouteOf(endpoints[i]))
  }

  lemma SplitPattern(e: Endpoint)
    ensures SplitPath(PatternOf(e)) == SegmentsOf(e)
  {
    var parts := SegmentsOf(e);
    SegmentsHaveNoSlash(e);
    SplitJoined(parts);
  }

  lemma SegmentsHaveNoSlash(e: Endpoint)
    ensures SegmentsOf(e) != [] && AllFree(SegmentsOf(e), '/')
  {
    match e
    case RegisterClient | ListClients | DeleteClient | SetGrants | RotateKeys | Revoke | ListRevocations | AuditLog =>
      AdminSegmentsHaveNoSlash(e);
    case _ =>
  }

  lemma AdminSegmentsHaveNoSlash(e: Endpoint)
    requires SegmentsOf(e)[0] == "admin"
    ensures AllFree(SegmentsOf(e), '/')
  {
  }

  lemma SplitJoined(parts: seq<string>)
    requires parts != [] && AllFree(parts, '/')
    ensures SplitPath("/" + Join(parts, "/")) == parts
  {
    assert ("/" + Join(parts, "/"))[1..] == Join(parts, "/");
    SplitJoin(parts, '/');
  }

  /** `ApiHandlers.router`: every endpoint registered under its pattern, in order. */
  method BuildRouter() returns (router: Router<Endpoint>)
    ensures fresh(router) && router.routes == Table(ENDPOINTS)
  {
    router := new Router();
    RegisterAll(router, ENDPOINTS);
  }

  method RegisterAll(router: Router<Endpoint>, endpoints: seq<Endpoint>)
    requires router.routes == []
    modifies router
    ensures router.routes == Table(endpoints)
  {
    for i := 0 to |endpoints|
      invariant router.routes == Table(endpoints[..i])
    {
      var e := endpoints[i];
      SplitPattern(e);
      router.AddRoute(MethodOf(e), PatternOf(e), e);
      assert endpoints[..i + 1] == endpoints[..i] + [e];
    }
    assert endpoints[..|endpoints|] == endpoints;
  }

  // ---- What the server answers, path by path ----

  function Only(wanted: string, e: Endpoint, httpMethod: string): Dispatched<Endpoint> {
    if httpMethod == wanted then Ran(e, map[]) else MethodNotAllowed
  }

  function OneOfTwo(post: Endpoint, get: Endpoint, httpMethod: string): Dispatched<Endpoint> {
    if httpMethod == "POST" then Ran(post, map[]) else if httpMethod == "GET" then Ran(get, map[]) else MethodNotAllowed
  }

  /** The answer to a request of one or two segments. */
  function ShortAnswer(httpMethod: string, s: seq<string>): Dispatched<Endpoint> {
    if s == ["health"] then Only("GET", Health, httpMethod)
    else if s == ["openapi.yaml"] then Only("GET", OpenApiYaml, httpMethod)
    else if s == ["openapi.json"] then Only("GET", OpenApiJson, httpMethod)
    else if s == ["docs"] then Only("GET", Docs, httpMethod)
    else if s == ["oauth", "token"] then Only("POST", Token, httpMethod)
    else if s == [".well-known", "jwks.json"] then Only("GET", JwksSet, httpMethod)
    else if s == [".well-known", "idp-configuration"] then Only("GET", Discovery, httpMethod)
    else if s == ["docs", "swagger-ui.css"] then Only("GET", DocsCss, httpMethod)
    else if s == ["docs", "swagger-ui-bundle.js"] then Only("GET", DocsScript, httpMethod)
    else if s == ["admin", "clients"] then OneOfTwo(RegisterClient, ListClients, httpMethod)
    else if s == ["admin", "revocations"] then OneOfTwo(Revoke, ListRevocations, httpMethod)
    else if s == ["admin", "audit"] then Only("GET", AuditLog, httpMethod)
    else NotFound
  }

  /** The answer to any request, with the client's id where the path has one. */
  function Answer(httpMethod: string, s: seq<string>): Dispatched<Endpoint> {
    if |s| <= 2 then ShortAnswer(httpMethod, s)
    else if |s| == 3 && s[..2] == ["admin", "clients"] then
      if httpMethod == "DELETE" then Ran(DeleteClient, map["id" := s[2]]) else MethodNotAllowed
    else if |s| == 4 && s[..2] == ["admin", "clients"] && s[3] == "grants" then
      if httpMethod == "PUT" then Ran(SetGrants, map["id" := s[2]]) else MethodNotAllowed
    else if s == ["admin", "keys", "rotate"] then Only("POST", RotateKeys, httpMethod)
    else NotFound
  }

  /** The route of an endpoint is met by exactly its own path. */
  lemma MatchesExactly(e: Endpoint, s: seq<string>)
    ensures Matches(SegmentsOf(e), s) <==>
      match e
      case DeleteClient => |s| == 3 && s[..2] == ["admin", "clients"]
      case SetGrants => |s| == 4 && s[..2] == ["admin", "clients"] && s[3] == "grants"
      case _ => s == SegmentsOf(e)
  {
    NoVariables(e);
  }

  lemma NoVariables(e: Endpoint)
    ensures forall i :: 0 <= i < |SegmentsOf(e)| ==>
      (IsVariable(SegmentsOf(e)[i]) <==> i == 2 && (e.DeleteClient? || e.SetGrants?))
  {
  }

  lemma {:induction false} BindNothing(pattern: seq<string>, actual: seq<string>)
    requires |pattern| <= |actual| && forall i :: 0 <= i < |pattern| ==> !IsVariable(pattern[i])
    ensures Bind(pattern, actual) == map[]
  {
    if pattern != [] {
      BindNothing(pattern[..|pattern| - 1], actual);
    }
  }

  lemma BindId(pattern: seq<string>, actual: seq<string>)
    requires 3 <= |pattern| <= 4 && |pattern| == |actual| && pattern[2] == "{id}"
    requires forall i :: 0 <= i < |pattern| && i != 2 ==> !IsVariable(pattern[i])
    ensures Bind(pattern, actual) == map["id" := actual[2]]
  {
    BindNothing(pattern[..3][..2], actual);
    assert pattern[2][1..3] == "id";
    assert Bind(pattern[..3], actual) == map["id" := actual[2]];
    assert |pattern| == 3 ==> pattern[..3] == pattern;
  }

  /** The answer of one endpoint to a request whose path is its own. */
  function OwnAnswer(e: Endpoint, httpMethod: string, s: seq<string>): Dispatched<Endpoint>
    requires |s| >= |SegmentsOf(e)|
  {
    if httpMethod == MethodOf(e) then Ran(e, Bind(SegmentsOf(e), s)) else MethodNotAllowed
  }

  lemma BindIs(e: Endpoint, s: seq<string>)
    requires |s| == |SegmentsOf(e)|
    ensures Bind(SegmentsOf(e), s) == if e.DeleteClient? || e.SetGrants? then map["id" := s[2]] else map[]
  {
    NoVariables(e);
    if e.DeleteClient? || e.SetGrants? {
      BindId(SegmentsOf(e), s);
    } else {
      BindNothing(SegmentsOf(e), s);
    }
  }

  predicate SharesPath(e: Endpoint) { e in {RegisterClient, ListClients, Revoke, ListRevocations} }

  lemma ShortPathAnswers(e: Endpoint, httpMethod: string)
    requires |SegmentsOf(e)| <= 2 && !SharesPath(e)
    ensures ShortAnswer(httpMethod, SegmentsOf(e)) == Only(MethodOf(e), e, httpMethod)
  {
  }

  lemma SharedPathAnswers(httpMethod: string)
    ensures ShortAnswer(httpMethod, ["admin", "clients"]) == OneOfTwo(RegisterClient, ListClients, httpMethod)
    ensures ShortAnswer(httpMethod, ["admin", "revocations"]) == OneOfTwo(Revoke, ListRevocations, httpMethod)
  {
  }

  lemma LongPathAnswers(e: Endpoint, httpMethod: string, s: seq<string>)
    requires |SegmentsOf(e)| > 2 && Matches(SegmentsOf(e), s)
    ensures Answer(httpMethod, s) == OwnAnswer(e, httpMethod, s)
  {
    MatchesExactly(e, s);
    BindIs(e, s);
  }

  function SharedAnswer(e: Endpoint, httpMethod: string): Dispatched<Endpoint>
    requires SharesPath(e)
  {
    if e.RegisterClient? || e.ListClients? then OneOfTwo(RegisterClient, ListClients, httpMethod)
    else OneOfTwo(Revoke, ListRevocations, httpMethod)
  }

  /** A path that meets the route of an endpoint is answered for it, or for the two that share it. */
  lemma MetPathAnswers(e: Endpoint, httpMethod: string, s: seq<string>)
    requires Matches(SegmentsOf(e), s)
    ensures Answer(httpMethod, s) == if SharesPath(e) then SharedAnswer(e, httpMethod) else OwnAnswer(e, httpMethod, s)
  {
    if |SegmentsOf(e)| > 2 {
      LongPathAnswers(e, httpMethod, s);
    } else {
      MatchesExactly(e, s);
      BindIs(e, s);
      if SharesPath(e) {
        SharedPathAnswers(httpMethod);
      } else {
        ShortPathAnswers(e, httpMethod);
      }
    }
  }

  /** An endpoint whose path this is. */
  lemma KnownPath(httpMethod: string, s: seq<string>) returns (e: Endpoint)
    requires Answer(httpMethod, s) != NotFound
    ensures Matches(SegmentsOf(e), s)
  {
    e := if |s| > 2 then if s == ["admin", "keys", "rotate"] then RotateKeys
                         else if |s| == 3 then DeleteClient else SetGrants
         else if s == ["health"] then Health
         else if s == ["openapi.yaml"] then OpenApiYaml
         else if s == ["openapi.json"] then OpenApiJson
         else if s == ["docs"] then Docs
         else if s == ["oauth", "token"] then Token
         else if s == [".well-known", "jwks.json"] then JwksSet
         else if s == [".well-known", "idp-configuration"] then Discovery
         else if s == ["docs", "swagger-ui.css"] then DocsCss
         else if s == ["docs", "swagger-ui-bundle.js"] then DocsScript
         else if s == ["admin", "clients"] then ListClients
         else if s == ["admin", "revocations"] then ListRevocations
         else AuditLog;
    MatchesExactly(e, s);
  }

  function Place(e: Endpoint): (place: nat)
    ensures place < |ENDPOINTS| && ENDPOINTS[place] == e
  {
    match e
    case Token => 0
    case JwksSet => 1
    case Discovery => 2
    case Health => 3
    case OpenApiYaml => 4
    case OpenApiJson => 5
    case Docs => 6
    case DocsCss => 7
    case DocsScript => 8
    case RegisterClient => 9
    case ListClients => 10
    case DeleteClient => 11
    case SetGrants => 12
    case RotateKeys => 13
    case Revoke => 14
    case ListRevocations => 15
    case AuditLog => 16
  }

  lemma PlaceIsOnly(i: nat)
    requires i < |ENDPOINTS|
    ensures Place(ENDPOINTS[i]) == i
  {
  }

  /** What runs, runs the endpoint of this method and path, with the id the path has. */
  lemma RunFits(httpMethod: string, s: seq<string>)
    requires Answer(httpMethod, s).Ran?
    ensures var d := Answer(httpMethod, s);
      Fits(RouteOf(d.handler), httpMethod, s) && d.params == Bind(SegmentsOf(d.handler), s)
  {
    var e := KnownPath(httpMethod, s);
    MetPathAnswers(e, httpMethod, s);
    if SharesPath(e) {
      SharedRunFits(e, httpMethod, s);
    }
  }

  lemma SharedRunFits(e: Endpoint, httpMethod: string, s: seq<string>)
    requires SharesPath(e) && Matches(SegmentsOf(e), s) && SharedAnswer(e, httpMethod).Ran?
    ensures var h := SharedAnswer(e, httpMethod).handler;
      MethodOf(h) == httpMethod && SegmentsOf(h) == SegmentsOf(e) && Bind(SegmentsOf(h), s) == map[]
  {
    BindIs(e, s);
  }

  /** Who fits is the one that runs. */
  lemma FitRuns(e: Endpoint, httpMethod: string, s: seq<string>)
    requires Fits(RouteOf(e), httpMethod, s)
    ensures Answer(httpMethod, s).Ran? && Answer(httpMethod, s).handler == e
  {
    MetPathAnswers(e, httpMethod, s);
    assert "GET" != "POST" by { assert |"GET"| == 3; }
  }

  lemma AnswerIsDispatch(httpMethod: string, s: seq<string>)
    ensures IsDispatch(Table(ENDPOINTS), httpMethod, s, Answer(httpMethod, s))
  {
    var routes, d := Table(ENDPOINTS), Answer(httpMethod, s);
    forall i | 0 <= i < |routes| && Fits(routes[i], httpMethod, s) ensures d.Ran? && Place(d.handler) == i {
      FitRuns(ENDPOINTS[i], httpMethod, s);
      PlaceIsOnly(i);
    }
    forall i | 0 <= i < |routes| && Matches(routes[i].segments, s) ensures d != NotFound {
      MetPathAnswers(ENDPOINTS[i], httpMethod, s);
    }
    if d.Ran? {
      RunFits(httpMethod, s);
      assert routes[Place(d.handler)] == RouteOf(d.handler);
    } else if d == MethodNotAllowed {
      var e := KnownPath(httpMethod, s);
      assert routes[Place(e)] == RouteOf(e);
    }
  }

  /** The server's answer to every method and path. */
  lemma TableAnswers(httpMethod: string, s: seq<string>, d: Dispatched<Endpoint>)
    ensures IsDispatch(Table(ENDPOINTS), httpMethod, s, d) <==> d == Answer(httpMethod, s)
  {
    AnswerIsDispatch(httpMethod, s);
    if IsDispatch(Table(ENDPOINTS), httpMethod, s, d) {
      DispatchIsUnique(Table(ENDPOINTS), httpMethod, s, d, Answer(httpMethod, s));
    }
  }

  /** A client's own paths, for every id without a slash. */
  lemma ClientPaths(id: string)
    requires '/' !in id
    ensures SplitPath("/" + Join(["admin", "clients", id], "/")) == ["admin", "clients", id]
    ensures SplitPath("/" + Join(["admin", "clients", id, "grants"], "/")) == ["admin", "clients", id, "grants"]
  {
    SplitJoined(["admin", "clients", id]);
    SplitJoined(["admin", "clients", id, "grants"]);
  }

  // ---- No request fits two endpoints ----

  lemma TableIsUnambiguous()
    ensures Unambiguous(Table(ENDPOINTS))
  {
    var routes := Table(ENDPOINTS);
    forall x, y, httpMethod, actual
      | x in routes && y in routes && Fits(x, httpMethod, actual) && Fits(y, httpMethod, actual)
      ensures x == y
    {
      assert x == RouteOf(x.handler) && y == RouteOf(y.handler);
      FitRuns(x.handler, httpMethod, actual);
      FitRuns(y.handler, httpMethod, actual);
    }
  }

  /** The server answers alike however its registrations are permuted. */
  lemma RegistrationOrderDoesNotMatter(permuted: seq<Route<Endpoint>>, httpMethod: string, actual: seq<string>)
    requires multiset(permuted) == multiset(Table(ENDPOINTS))
    ensures forall d :: IsDispatch(permuted, httpMethod, actual, d) ==> d == Answer(httpMethod, actual)
  {
    TableIsUnambiguous();
    AnswerIsDispatch(httpMethod, actual);
    OrderDoesNotMatter(Table(ENDPOINTS), permuted, httpMethod, actual, Answer(httpMethod, actual));
    forall d | IsDispatch(permuted, httpMethod, actual, d) ensures d == Answer(httpMethod, actual) {
      DispatchIsUnique(permuted, httpMethod, actual, d, Answer(httpMethod, actual));
    }
  }
}
