/** Method and path dispatch, first registered match first. */
module Routers {
  import opened Options
  import opened Text

  datatype Route<+H> = Route(httpMethod: string, segments: seq<string>, handler: H)

  /** A handler run with its path variables, or one of the two errors. */
  datatype Dispatched<+H> = Ran(handler: H, params: map<string, string>) | MethodNotAllowed | NotFound

  /** Drop one leading slash and split the rest; the empty path is one empty segment. */
  function SplitPath(path: string): seq<string> {
    SplitOn(if path != "" && path[0] == '/' then path[1..] else path, '/')
  }

  predicate IsVariable(segment: string) {
    |segment| > 1 && segment[0] == '{' && segment[|segment| - 1] == '}'
  }

  /** A variable is any name in braces, the empty one included. */
  lemma VariableExactly(segment: string)
    ensures IsVariable(segment) <==> exists name :: segment == "{" + name + "}"
  {
    if IsVariable(segment) {
      assert segment == "{" + segment[1..|segment| - 1] + "}";
    }
    if name :| segment == "{" + name + "}" {
      assert segment[0] == '{' && segment[|name| + 1] == '}';
    }
  }

  /** Equal lengths, and every literal segment of the pattern is met. */
  predicate Matches(pattern: seq<string>, actual: seq<string>) {
    |pattern| == |actual| && forall i :: 0 <= i < |pattern| ==> IsVariable(pattern[i]) || pattern[i] == actual[i]
  }

  /** The variables of a pattern; of two with one name the later wins. */
  function Bind(pattern: seq<string>, actual: seq<string>): map<string, string>
    requires |pattern| <= |actual|
  {
    if pattern == [] then map[]
    else
      var n := |pattern| - 1;
      var before := Bind(pattern[..n], actual);
      if IsVariable(pattern[n]) then before[pattern[n][1..|pattern[n]| - 1] := actual[n]] else before
  }

  predicate Fits<H>(r: Route<H>, httpMethod: string, actual: seq<string>) {
    r.httpMethod == httpMethod && Matches(r.segments, actual)
  }

  /** What dispatching means: the first route that fits; else 405 if some pattern matches; else 404. */
  ghost predicate IsDispatch<H>(routes: seq<Route<H>>, httpMethod: string, actual: seq<string>, d: Dispatched<H>) {
    match d
    case Ran(handler, params) =>
      exists i :: 0 <= i < |routes| && Fits(routes[i], httpMethod, actual)
        && handler == routes[i].handler && params == Bind(routes[i].segments, actual)
        && forall j :: 0 <= j < i ==> !Fits(routes[j], httpMethod, actual)
    case MethodNotAllowed =>
      && (exists i :: 0 <= i < |routes| && Matches(routes[i].segments, actual))
      && forall i :: 0 <= i < |routes| ==> !Fits(routes[i], httpMethod, actual)
    case NotFound => forall i :: 0 <= i < |routes| ==> !Matches(routes[i].segments, actual)
  }

  /** Each request has exactly one outcome. */
  lemma DispatchIsUnique<H>(routes: seq<Route<H>>, httpMethod: string, actual: seq<string>,
                            d: Dispatched<H>, e: Dispatched<H>)
    requires IsDispatch(routes, httpMethod, actual, d) && IsDispatch(routes, httpMethod, actual, e)
    ensures d == e
  {
    if d.Ran? && e.Ran? {
      var i :| 0 <= i < |routes| && Fits(routes[i], httpMethod, actual)
        && d.handler == routes[i].handler && d.params == Bind(routes[i].segments, actual)
        && forall j :: 0 <= j < i ==> !Fits(routes[j], httpMethod, actual);
      var k :| 0 <= k < |routes| && Fits(routes[k], httpMethod, actual)
        && e.handler == routes[k].handler && e.params == Bind(routes[k].segments, actual)
        && forall j :: 0 <= j < k ==> !Fits(routes[j], httpMethod, actual);
      assert i == k;
    }
  }

  method Match(pattern: seq<string>, actual: seq<string>) returns (params: Option<map<string, string>>)
    ensures params == if Matches(pattern, actual) then Some(Bind(pattern, actual)) else None
  {
    if |pattern| != |actual| {
      return None;
    }
    var bound: map<string, string> := map[];
    for i := 0 to |pattern|
      invariant Matches(pattern[..i], actual[..i])
      invariant bound == Bind(pattern[..i], actual)
    {
      assert pattern[..i + 1][..i] == pattern[..i];
      var p := pattern[i];
      if IsVariable(p) {
        bound := bound[p[1..|p| - 1] := actual[i]];
      } else if p != actual[i] {
        return None;
      }
    }
    assert pattern[..|pattern|] == pattern && actual[..|actual|] == actual;
    params := Some(bound);
  }

  /** The last place in the pattern of the variable with this name. */
  ghost predicate LastNamed(pattern: seq<string>, i: nat, name: string) {
    && i < |pattern| && IsVariable(pattern[i]) && pattern[i] == "{" + name + "}"
    && forall j :: i < j < |pattern| ==> pattern[j] != pattern[i]
  }

  /** A variable is bound to the segment at its last place in the pattern, and nothing else is bound. */
  lemma {:induction false} BindExactly(pattern: seq<string>, actual: seq<string>, name: string)
    requires |pattern| <= |actual|
    ensures name in Bind(pattern, actual) ==> exists i: nat :: LastNamed(pattern, i, name)
    ensures forall i: nat :: LastNamed(pattern, i, name) ==>
      name in Bind(pattern, actual) && Bind(pattern, actual)[name] == actual[i]
  {
    if pattern != [] {
      var n := |pattern| - 1;
      BindExactly(pattern[..n], actual, name);
      if IsVariable(pattern[n]) {
        assert pattern[n] == "{" + pattern[n][1..|pattern[n]| - 1] + "}";
        assert pattern[n] == "{" + name + "}" ==> LastNamed(pattern, n, name);
      }
      forall i: nat | i < n
        ensures LastNamed(pattern, i, name) <==> LastNamed(pattern[..n], i, name) && pattern[n] != "{" + name + "}"
      {
        assert forall j :: i <= j < n ==> pattern[..n][j] == pattern[j];
      }
    }
  }

  class Router<H(==)> {
    var routes: seq<Route<H>>

    constructor ()
      ensures routes == []
    {
      routes := [];
    }

    method AddRoute(httpMethod: string, pattern: string, handler: H)
      modifies this
      ensures routes == old(routes) + [Route(httpMethod, SplitPath(pattern), handler)]
    {
      routes := routes + [Route(httpMethod, SplitPath(pattern), handler)];
    }

    method Dispatch(httpMethod: string, path: string) returns (d: Dispatched<H>)
      ensures IsDispatch(routes, httpMethod, SplitPath(path), d)
    {
      var segments := SplitPath(path);
      var pathMatchedWrongMethod := false;
      for i := 0 to |routes|
        invariant forall j :: 0 <= j < i ==> !Fits(routes[j], httpMethod, segments)
        invariant pathMatchedWrongMethod <==> exists j :: 0 <= j < i && Matches(routes[j].segments, segments)
      {
        var params := Match(routes[i].segments, segments);
        if params == None {
          continue;
        }
        if routes[i].httpMethod != httpMethod {
          pathMatchedWrongMethod := true;
          continue;
        }
        return Ran(routes[i].handler, params.value);
      }
      d := if pathMatchedWrongMethod then MethodNotAllowed else NotFound;
    }
  }

  // ---- When registration order does not matter ----

  /** No request fits two different routes. */
  ghost predicate Unambiguous<H(!new)>(routes: seq<Route<H>>) {
    forall x, y, httpMethod, actual {:trigger Fits(x, httpMethod, actual), Fits(y, httpMethod, actual)} ::
      x in routes && y in routes && Fits(x, httpMethod, actual) && Fits(y, httpMethod, actual) ==> x == y
  }

  /** An unambiguous table dispatches the same however its routes are permuted. */
  lemma OrderDoesNotMatter<H(!new)>(routes: seq<Route<H>>, permuted: seq<Route<H>>, httpMethod: string,
                                    actual: seq<string>, d: Dispatched<H>)
    requires Unambiguous(routes) && multiset(routes) == multiset(permuted)
    requires IsDispatch(routes, httpMethod, actual, d)
    ensures IsDispatch(permuted, httpMethod, actual, d)
  {
    SameRoutes(routes, permuted);
    match d
    case Ran(handler, params) =>
      var i :| 0 <= i < |routes| && Fits(routes[i], httpMethod, actual)
        && handler == routes[i].handler && params == Bind(routes[i].segments, actual);
      var k := FirstFit(permuted, routes[i], httpMethod, actual);
      assert permuted[k] == routes[i] by {
        assert permuted[k] in routes;
      }
    case MethodNotAllowed =>
      var i :| 0 <= i < |routes| && Matches(routes[i].segments, actual);
      assert routes[i] in permuted;
      var k :| 0 <= k < |permuted| && permuted[k] == routes[i];
      forall j | 0 <= j < |permuted| ensures !Fits(permuted[j], httpMethod, actual) {
        assert permuted[j] in routes;
      }
    case NotFound =>
      forall j | 0 <= j < |permuted| ensures !Matches(permuted[j].segments, actual) {
        assert permuted[j] in routes;
      }
  }

  lemma SameRoutes<H>(routes: seq<Route<H>>, permuted: seq<Route<H>>)
    requires multiset(routes) == multiset(permuted)
    ensures forall r :: r in routes <==> r in permuted
  {
    forall r ensures r in routes <==> r in permuted {
      assert r in routes <==> r in multiset(routes);
      assert r in permuted <==> r in multiset(permuted);
    }
  }

  lemma FirstFit<H>(routes: seq<Route<H>>, r: Route<H>, httpMethod: string, actual: seq<string>) returns (k: nat)
    requires r in routes && Fits(r, httpMethod, actual)
    ensures k < |routes| && Fits(routes[k], httpMethod, actual)
    ensures forall j :: 0 <= j < k ==> !Fits(routes[j], httpMethod, actual)
  {
    k := 0;
    while !Fits(routes[k], httpMethod, actual)
      invariant k < |routes|
      invariant forall j :: 0 <= j < k ==> !Fits(routes[j], httpMethod, actual)
      invariant exists j :: k <= j < |routes| && routes[j] == r
      decreases |routes| - k
    {
      k := k + 1;
    }
  }
}
