/** The HTTP exchange reduced to what the agents' decisions depend on. An
    outbound call either could not be built, failed in transport, or came
    back with a status and a body that did or did not read and decode. An
    inbound body either read or did not, and decoded or did not. A handler
    either wrote a response or panicked. */
module Http {
  import opened Common

  /** What a caller learns from one outbound request. `body` is None when
      reading or decoding the answer's body failed; both end the same way
      everywhere in the source. `Unbuildable` is `http.NewRequest` refusing
      the URL; `http.Get` and `http.Post` report that as an error too. */
  datatype Call<B> = Unbuildable | TransportError | Answered(status: int, body: Option<B>)

  /** A URL has no scheme when no `:` comes before its first `/`. Go's
      client refuses such a URL ("unsupported protocol scheme") before
      anything is sent, and returns an error with a nil response.
      `http.NewRequest` itself accepts it, as a relative reference. */
  predicate Schemeless(url: string) {
    forall i :: 0 <= i < |url| && url[i] == ':' ==> '/' in url[..i]
  }

  /** What calling `url` yields, given what the other end would answer: a
      schemeless URL is never answered. */
  function Dial<B>(url: string, outcome: Call<B>): (c: Call<B>)
    ensures c.Answered? <==> outcome.Answered? && !Schemeless(url)
    ensures c.Unbuildable? <==> outcome.Unbuildable?
    ensures c.Answered? ==> c == outcome
  {
    if Schemeless(url) && outcome.Answered? then TransportError else outcome
  }

  /** A path with a `/` and no `:`, and anything appended to it, has no
      scheme: so it is with every path an agent appends to an address that
      turned out empty. */
  lemma SchemelessPath(path: string, rest: string)
    requires ':' !in path && '/' in path
    ensures Schemeless(path + rest)
  {
    var url := path + rest;
    forall i | 0 <= i < |url| && url[i] == ':'
      ensures '/' in url[..i]
    {
      var k :| 0 <= k < |path| && path[k] == '/';
      assert i >= |path|;
      assert url[..i][k] == '/';
    }
  }

  /** An inbound request body: whether reading it succeeded, and what
      decoding the bytes that were read produced. */
  datatype Body<T> = Body(readOk: bool, decoded: Option<T>)

  /** What a handler has written: the first explicit status, if any, and the
      payload. */
  datatype Response<P> = Response(header: Option<int>, payload: Option<P>)

  function Blank<P>(): Response<P> {
    Response(None, None)
  }

  /** net/http keeps the first status a handler writes. A later one is
      superfluous and is dropped. */
  function WriteHeader<P>(w: Response<P>, code: int): Response<P> {
    if w.header.Some? then w else Response(Some(code), w.payload)
  }

  /** Writing a payload commits status 200 unless a status was already
      written. */
  function Write<P>(w: Response<P>, p: P): Response<P> {
    Response(Some(w.header.GetOr(StatusOK)), Some(p))
  }

  /** The status the client receives. A handler that writes none answers
      200. */
  function StatusOf<P>(w: Response<P>): int {
    w.header.GetOr(StatusOK)
  }

  /** A handler's outcome. `Panicked` covers a nil dereference or an index
      out of range inside the handler. */
  datatype Answer<P> = Panicked | Responded(response: Response<P>)

  /** A handler's outcome as seen by the agent that sent the request.
      net/http recovers a handler's panic by closing the connection, which
      the caller sees as a transport error. An answer without a payload
      stands for a body that does not decode, empty or not: a handler's
      bare status has an empty body, and the router's own 404 carries the
      text `404 page not found`. */
  function Received<P>(a: Answer<P>): (c: Call<P>)
    ensures c.Answered? <==> a.Responded?
    ensures a.Responded? ==> c.status == StatusOf(a.response) && c.body == a.response.payload
  {
    match a
    case Panicked => TransportError
    case Responded(w) => Answered(StatusOf(w), w.payload)
  }

  /** A handler's outcome together with the agent's state after it. */
  datatype Step<S, P> = Step(state: S, answer: Answer<P>)
}
