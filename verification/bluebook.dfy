/** The directory service ("BlueBook"): a process-wide table from SLD name
    to the transfer agent serving it, with an upsert and a lookup by e-mail
    address. */
module BlueBook {
  import opened Common
  import opened Strings
  import opened Http
  import opened Router

  /** The `servers` table. */
  type Directory = map<string, Server>

  /** The lookup key: field 1 of the address split at every `@`, so the text
      between the first `@` and the next one. None when there is no `@`, where
      the handler indexes out of range. */
  function Domain(email: string): (d: Option<string>)
    ensures d.Some? <==> '@' in email
    ensures d.Some? ==> '@' !in d.value
  {
    var fields := Split(email, '@');
    SingleFieldIffNoSeparator(email, '@');
    if |fields| >= 2 then Some(fields[1]) else None
  }

  /** GET /bluebook/{email}. */
  function FindServer(servers: Directory, email: string): (a: Answer<Server>)
    ensures a.Panicked? <==> '@' !in email
    ensures a.Responded? && Domain(email).value in servers ==>
              StatusOf(a.response) == StatusOK && a.response.payload == Some(servers[Domain(email).value])
    ensures a.Responded? && Domain(email).value !in servers ==>
              StatusOf(a.response) == StatusNotFound && a.response.payload == None
  {
    match Domain(email)
    case None => Panicked
    case Some(domain) =>
      if domain in servers then
        // Marshalling a Server cannot fail, so the 500 branch is never taken.
        Responded(Write(WriteHeader(Blank(), StatusOK), servers[domain]))
      else
        Responded(WriteHeader(Blank(), StatusNotFound))
  }

  /** POST /bluebook/register. A failed body read writes 500 but does not
      return: whatever was read is still decoded and, if it decodes, stored,
      while the later 201 is dropped as superfluous. */
  function AddServer(servers: Directory, body: Body<Server>): (step: Step<Directory, Server>)
    ensures step.answer.Responded? && step.answer.response.payload == None
    ensures StatusOf(step.answer.response) ==
              if !body.readOk then StatusInternalServerError
              else if body.decoded.Some? then StatusCreated
              else StatusBadRequest
    ensures body.decoded.Some? ==> step.state.Keys == servers.Keys + {body.decoded.value.name}
    ensures body.decoded.Some? ==> step.state[body.decoded.value.name] == body.decoded.value
    ensures forall name :: name in servers && (body.decoded.None? || name != body.decoded.value.name) ==>
              name in step.state && step.state[name] == servers[name]
    ensures body.decoded.None? ==> step.state == servers
  {
    var w := if body.readOk then Blank() else WriteHeader(Blank(), StatusInternalServerError);
    match body.decoded
    case Some(rec) => Step(servers[rec.name := rec], Responded(WriteHeader(w, StatusCreated)))
    case None => Step(servers, Responded(WriteHeader(w, StatusBadRequest)))
  }

  datatype Endpoint = FindEndpoint | RegisterEndpoint

  /** The route table, in registration order. */
  const Routes: seq<Route<Endpoint>> := [
    Route(Get, [Lit("bluebook"), Var], FindEndpoint),
    Route(Post, [Lit("bluebook"), Lit("register")], RegisterEndpoint)
  ]

  /** One request to the directory, routed and handled. */
  function Serve(servers: Directory, verb: Method, path: seq<string>, body: Body<Server>): Step<Directory, Server> {
    match Match(Routes, verb, path)
    case Handle(endpoint, vars) =>
      if endpoint.RegisterEndpoint? then AddServer(servers, body)
      // `vars["email"]`: the route's one variable, or "" as a missing map key.
      else Step(servers, FindServer(servers, if |vars| > 0 then vars[0] else ""))
    case MethodNotAllowed => Step(servers, Responded(WriteHeader(Blank(), StatusMethodNotAllowed)))
    case NotFound => Step(servers, Responded(WriteHeader(Blank(), StatusNotFound)))
  }

  /** The lookup key of `user@domain` is `domain`. */
  lemma DomainOfAddress(user: string, domain: string)
    requires '@' !in user && '@' !in domain
    ensures Domain(user + "@" + domain) == Some(domain)
  {
    SplitTwo(user, domain, '@');
  }

  /** Only the text up to the second `@` is the key: `u@d@...` looks up `d`,
      whatever follows, further `@`s included. */
  lemma DomainStopsAtSecondAt(user: string, domain: string, rest: string)
    requires '@' !in user && '@' !in domain
    ensures Domain(user + "@" + domain + "@" + rest) == Some(domain)
  {
    assert user + "@" + domain + "@" + rest == user + ['@'] + (domain + ['@'] + rest);
    SplitAtFirst(user, domain + ['@'] + rest, '@');
    SplitAtFirst(domain, rest, '@');
  }

  /** Registering the same name twice: the lookup returns the second record. */
  lemma LastRegistrationWins(servers: Directory, first: Server, second: Server, user: string)
    requires first.name == second.name
    requires '@' !in user && '@' !in second.name
    ensures var once := AddServer(servers, Body(true, Some(first))).state;
            var twice := AddServer(once, Body(true, Some(second))).state;
            FindServer(twice, user + "@" + second.name) == Responded(Response(Some(StatusOK), Some(second)))
  {
    DomainOfAddress(user, second.name);
  }

  /** A registration followed by a lookup of any address in that domain. */
  lemma RegisterThenFind(servers: Directory, rec: Server, user: string)
    requires '@' !in user && '@' !in rec.name
    ensures var after := AddServer(servers, Body(true, Some(rec)));
            && StatusOf(after.answer.response) == StatusCreated
            && FindServer(after.state, user + "@" + rec.name) == Responded(Response(Some(StatusOK), Some(rec)))
  {
    DomainOfAddress(user, rec.name);
  }

  /** A lookup of a domain nobody registered: 404 with an empty body. */
  lemma UnknownDomainNotFound(servers: Directory, user: string, domain: string)
    requires '@' !in user && '@' !in domain && domain !in servers
    ensures FindServer(servers, user + "@" + domain) == Responded(Response(Some(StatusNotFound), None))
  {
    DomainOfAddress(user, domain);
  }

  /** The routes: GET on any second segment is a lookup, including
      `register`; POST on `register` is a registration. */
  lemma RoutesDispatch(segment: string)
    requires segment != ""
    ensures Match(Routes, Get, ["bluebook", segment]) == Handle(FindEndpoint, [segment])
    ensures Match(Routes, Post, ["bluebook", "register"]) == Handle(RegisterEndpoint, [])
    ensures segment != "register" ==> Match(Routes, Post, ["bluebook", segment]) == MethodNotAllowed
  {
    assert SegmentMatches(Var, segment);
    assert PathMatches(Routes[0].pattern, ["bluebook", segment]);
    MatchFirst(Routes, Get, ["bluebook", segment], 0);
    assert Captures([Var], [segment]) == [segment];
    assert Captures(Routes[0].pattern, ["bluebook", segment]) == [segment];
    assert !Serves(Routes[0], Post, ["bluebook", "register"]);
    assert PathMatches(Routes[1].pattern, ["bluebook", "register"]);
    MatchFirst(Routes, Post, ["bluebook", "register"], 1);
    assert Captures(Routes[1].pattern, ["bluebook", "register"]) == [];
    if segment != "register" {
      var d := Match(Routes, Post, ["bluebook", segment]);
      assert !PathMatches(Routes[1].pattern, ["bluebook", segment]) by {
        assert !SegmentMatches(Routes[1].pattern[1], ["bluebook", segment][1]);
      }
      assert !d.Handle?;
    }
  }

  /** GET /bluebook/register is taken by the lookup route and, having no
      `@`, makes the handler panic. */
  lemma LookupOfRegisterPanics(servers: Directory, body: Body<Server>)
    ensures Serve(servers, Get, ["bluebook", "register"], body).answer.Panicked?
  {
    var key := "register";
    assert '@' !in key by {
      assert forall i :: 0 <= i < |key| ==> key[i] != '@';
    }
    assert FindServer(servers, key).Panicked?;
    RoutesDispatch(key);
    assert Serve(servers, Get, ["bluebook", key], body) == Step(servers, FindServer(servers, key));
  }
}
