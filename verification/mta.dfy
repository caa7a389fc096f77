/** The transfer agent's request handlers and single-shot calls: the
    registry of its mailbox agents, the registration endpoint, the inbound
    handoff endpoint that forwards a message to a mailbox agent, its own
    registration with the directory, and the delete it issues against a
    mailbox agent's Outbox. The scan-and-send cycle is in module Scan. */
module Mta {
  import opened Common
  import opened Http
  import opened Router

  /** The `msa` table: mailbox agent name to its record. */
  type Registry = map<string, Server>

  /** `msa[name].Address`: a missing name reads as Go's zero record, whose
      address is empty, not as a not-found outcome. */
  function AddressOf(reg: Registry, name: string): (address: string)
    ensures name in reg ==> address == reg[name].address
    ensures name !in reg ==> address == ""
  {
    if name in reg then reg[name].address else ""
  }

  /** POST /email/server/register. */
  function AddMsa(reg: Registry, body: Body<Server>): (step: Step<Registry, ()>)
    ensures step.answer.Responded?
    ensures StatusOf(step.answer.response) ==
              if !body.readOk then StatusInternalServerError
              else if body.decoded.Some? then StatusCreated
              else StatusBadRequest
    ensures body.readOk && body.decoded.Some? ==>
              && step.state.Keys == reg.Keys + {body.decoded.value.name}
              && step.state[body.decoded.value.name] == body.decoded.value
              && forall n :: n in reg && n != body.decoded.value.name ==> step.state[n] == reg[n]
    ensures !(body.readOk && body.decoded.Some?) ==> step.state == reg
  {
    if !body.readOk then Step(reg, Responded(WriteHeader(Blank(), StatusInternalServerError)))
    else match body.decoded
      case Some(rec) => Step(reg[rec.name := rec], Responded(WriteHeader(Blank(), StatusCreated)))
      case None => Step(reg, Responded(WriteHeader(Blank(), StatusBadRequest)))
  }

  /** Path, under a mailbox agent's address, of its Receive endpoint. */
  const ForwardPath := "email/outbox"

  function ForwardUrl(reg: Registry, recipient: string): string {
    AddressOf(reg, recipient) + ForwardPath
  }

  /** The outcome of an inbound handoff: what the handler did, and where it
      forwarded the message, if it got that far. */
  datatype Served = Served(answer: Answer<()>, forwardedTo: Option<string>)

  /** POST /email/server. `forward` is what the mailbox agent at the
      forward URL would answer. Only a 2xx answer writes a status. The
      branch for a failed forward reads the status of a nil response first
      and panics, and a non-2xx answer matches no branch. */
  function Serve(reg: Registry, body: Body<EMail>, forward: Call<()>): (s: Served)
    ensures !body.readOk ==> s == Served(Responded(WriteHeader(Blank(), StatusInternalServerError)), None)
    ensures body.readOk && body.decoded.None? ==> s == Served(Responded(WriteHeader(Blank(), StatusBadRequest)), None)
    ensures body.readOk && body.decoded.Some? ==> s.forwardedTo == Some(ForwardUrl(reg, body.decoded.value.to))
    ensures s.forwardedTo.Some? ==>
              (s.answer.Panicked? <==> !forward.Answered? || Schemeless(s.forwardedTo.value))
    ensures s.forwardedTo.Some? && s.answer.Responded? ==> StatusOf(s.answer.response) == StatusOK
  {
    if !body.readOk then Served(Responded(WriteHeader(Blank(), StatusInternalServerError)), None)
    else match body.decoded
      case None => Served(Responded(WriteHeader(Blank(), StatusBadRequest)), None)
      case Some(e) =>
        var url := ForwardUrl(reg, e.to);
        var target := Some(url);
        match Dial(url, forward)
        case Answered(code, _) =>
          if Is2xx(code) then Served(Responded(WriteHeader(Blank(), StatusOK)), target)
          else Served(Responded(Blank()), target)
        case _ => Served(Panicked, target)
  }

  /** The directory's registration endpoint, fixed in the source. */
  const DirectoryRegisterUrl := DirectoryUrl + "register"

  /** After the single registration attempt: up, or the process panicked. */
  datatype Startup = Up | Down

  /** `register`: one post of the agent's own record to
      DirectoryRegisterUrl, no retry. */
  function RegisterWithDirectory(outcome: Call<()>): (s: Startup)
    ensures s.Up? <==> outcome.Answered? && outcome.status <= 299
  {
    match outcome
    case Answered(code, _) => if code > 299 then Down else Up
    case _ => Down
  }

  /** Path, under a transfer agent's address, of its handoff endpoint. */
  const HandoffPath := "email/server"

  /** Path prefix, under a mailbox agent's address, of its Outbox delete. */
  const DeletePath := "email/outbox/"

  /** The URL `deleteEmail` builds for a message. */
  function DeleteUrl(address: string, uuid: string): (url: string)
    ensures |url| == |address| + |DeletePath| + |uuid|
    ensures url[..|address|] == address && url[|address| + |DeletePath|..] == uuid
    ensures url[|address|..|address| + |DeletePath|] == DeletePath
  {
    address + DeletePath + uuid
  }

  /** What `deleteEmail` does: the request could not be built (nothing sent),
      it was sent and the answer ignored, or the transport failed and the
      process died. */
  datatype Deletion = NotSent | Sent | Fatal

  /** `deleteEmail` against `url`; `outcome` is what the mailbox agent there
      would answer. */
  function DeleteEmail(url: string, outcome: Call<()>): (d: Deletion)
    ensures d.Sent? <==> outcome.Answered? && !Schemeless(url)
    ensures d.Fatal? <==> outcome.TransportError? || (outcome.Answered? && Schemeless(url))
    ensures d.NotSent? <==> outcome.Unbuildable?
  {
    match Dial(url, outcome)
    case Unbuildable => NotSent
    case TransportError => Fatal
    case Answered(_, _) => Sent
  }

  datatype Endpoint = ServeEndpoint | RegisterEndpoint

  /** The route table, in registration order. */
  const Routes: seq<Route<Endpoint>> := [
    Route(Post, [Lit("email"), Lit("server")], ServeEndpoint),
    Route(Post, [Lit("email"), Lit("server"), Lit("register")], RegisterEndpoint)
  ]

  /** Registering the same mailbox agent twice keeps the second record. */
  lemma LastMsaRegistrationWins(reg: Registry, first: Server, second: Server)
    requires first.name == second.name
    ensures var once := AddMsa(reg, Body(true, Some(first))).state;
            AddMsa(once, Body(true, Some(second))).state == reg[second.name := second]
  {
  }

  /** A message for a recipient that never registered is forwarded to the
      bare path, which has no scheme, so the forward fails and the handler
      panics, whatever a mailbox agent would have answered. */
  lemma UnknownRecipientPanics(reg: Registry, e: EMail, forward: Call<()>)
    requires e.to !in reg
    ensures Serve(reg, Body(true, Some(e)), forward).forwardedTo == Some(ForwardPath)
    ensures Serve(reg, Body(true, Some(e)), forward).answer.Panicked?
  {
    assert "" + ForwardPath == ForwardPath;
    assert ForwardPath[5] == '/';
    SchemelessPath(ForwardPath, "");
    assert ForwardPath + "" == ForwardPath;
  }

  /** When the forward URL has a scheme, whatever the mailbox agent answers,
      the handoff is answered 200: a 4xx or 5xx from the mailbox agent is not
      passed back, and no status is written for it. */
  lemma HandoffAnswersOk(reg: Registry, e: EMail, code: int)
    ensures var s := Serve(reg, Body(true, Some(e)), Answered(code, None));
            && (s.answer.Responded? <==> !Schemeless(ForwardUrl(reg, e.to)))
            && (s.answer.Responded? ==> StatusOf(s.answer.response) == StatusOK)
            && (s.answer.Responded? && !Is2xx(code) ==> s.answer.response.header == None)
  {
  }

  /** The delete for a sender that never registered goes to the bare path,
      which has no scheme: it is never answered, and unless the request could
      not be built, the process dies. */
  lemma UnregisteredSenderDeleteFails(reg: Registry, name: string, uuid: string, outcome: Call<()>)
    requires name !in reg
    ensures DeleteUrl(AddressOf(reg, name), uuid) == DeletePath + uuid
    ensures DeleteEmail(DeleteUrl(AddressOf(reg, name), uuid), outcome) == if outcome.Unbuildable? then NotSent else Fatal
  {
    assert "" + DeletePath == DeletePath;
    assert DeletePath[5] == '/';
    SchemelessPath(DeletePath, uuid);
  }

  /** The two routes. */
  lemma RoutesDispatch()
    ensures Match(Routes, Post, ["email", "server"]) == Handle(ServeEndpoint, [])
    ensures Match(Routes, Post, ["email", "server", "register"]) == Handle(RegisterEndpoint, [])
  {
    assert PathMatches(Routes[0].pattern, ["email", "server"]);
    MatchFirst(Routes, Post, ["email", "server"], 0);
    assert PathMatches(Routes[1].pattern, ["email", "server", "register"]);
    MatchFirst(Routes, Post, ["email", "server", "register"], 1);
  }
}
