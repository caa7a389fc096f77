/** The gorilla/mux dispatch every agent uses. Routes are tried in
    registration order; the first whose method and path both match handles
    the request. When none does, a route whose path matched turns the answer
    into 405, and otherwise the answer is 404. A path is given as its
    segments, the text between slashes. */
module Router {
  import opened Common

  datatype Method = Get | Post | Delete

  /** A pattern segment: literal text, or a `{name}` variable matching one
      non-empty segment. */
  datatype Segment = Lit(text: string) | Var

  datatype Route<H> = Route(verb: Method, pattern: seq<Segment>, handler: H)

  /** The router's decision: a handler with the values of the pattern's
      variables, in order, or a refusal. */
  datatype Dispatch<H> = Handle(handler: H, vars: seq<string>) | MethodNotAllowed | NotFound

  predicate SegmentMatches(seg: Segment, s: string) {
    match seg
    case Lit(t) => s == t
    case Var => s != ""
  }

  predicate PathMatches(pattern: seq<Segment>, path: seq<string>) {
    |pattern| == |path| && forall i :: 0 <= i < |path| ==> SegmentMatches(pattern[i], path[i])
  }

  predicate Serves<H>(r: Route<H>, verb: Method, path: seq<string>) {
    r.verb == verb && PathMatches(r.pattern, path)
  }

  /** The path segments that sit under the pattern's variables. */
  function Captures(pattern: seq<Segment>, path: seq<string>): seq<string>
    requires |pattern| == |path|
  {
    if |pattern| == 0 then []
    else (if pattern[0].Var? then [path[0]] else []) + Captures(pattern[1..], path[1..])
  }

  /** Route `i` serves the request and no earlier route does. */
  predicate FirstServing<H>(routes: seq<Route<H>>, verb: Method, path: seq<string>, i: int) {
    && 0 <= i < |routes|
    && Serves(routes[i], verb, path)
    && forall j :: 0 <= j < i ==> !Serves(routes[j], verb, path)
  }

  function Match<H>(routes: seq<Route<H>>, verb: Method, path: seq<string>): (d: Dispatch<H>)
    ensures d.Handle? <==> exists i :: 0 <= i < |routes| && Serves(routes[i], verb, path)
    ensures d.Handle? ==> exists i :: FirstServing(routes, verb, path, i)
                                      && d == Handle(routes[i].handler, Captures(routes[i].pattern, path))
    ensures d.MethodNotAllowed? <==>
              !d.Handle? && exists i :: 0 <= i < |routes| && PathMatches(routes[i].pattern, path)
  {
    if |routes| == 0 then NotFound
    else if Serves(routes[0], verb, path) then
      assert FirstServing(routes, verb, path, 0);
      Handle(routes[0].handler, Captures(routes[0].pattern, path))
    else
      var rest := Match(routes[1..], verb, path);
      assert forall i :: 1 <= i < |routes| ==> routes[i] == routes[1..][i - 1];
      assert rest.Handle? ==> exists i :: FirstServing(routes[1..], verb, path, i)
                                          && rest == Handle(routes[1..][i].handler, Captures(routes[1..][i].pattern, path));
      assert forall i :: FirstServing(routes[1..], verb, path, i) ==> FirstServing(routes, verb, path, i + 1);
      if rest.NotFound? && PathMatches(routes[0].pattern, path) then MethodNotAllowed else rest
  }

  /** A path no route's pattern fits is not found, whatever the method. */
  lemma NoPatternNotFound<H>(routes: seq<Route<H>>, verb: Method, path: seq<string>)
    requires forall i :: 0 <= i < |routes| ==> !PathMatches(routes[i].pattern, path)
    ensures Match(routes, verb, path) == NotFound
  {
  }

  /** The first serving route decides the dispatch. */
  lemma MatchFirst<H>(routes: seq<Route<H>>, verb: Method, path: seq<string>, i: int)
    requires FirstServing(routes, verb, path, i)
    ensures Match(routes, verb, path) == Handle(routes[i].handler, Captures(routes[i].pattern, path))
  {
    var d := Match(routes, verb, path);
    var k :| FirstServing(routes, verb, path, k)
             && d == Handle(routes[k].handler, Captures(routes[k].pattern, path));
  }
}
