/** The mailbox agent: one user's Inbox and Outbox directories, the client
    handlers (send, list and read Inbox, delete from Inbox) and the handlers
    the transfer agent calls (receive into Inbox, list and delete Outbox).
    A directory is a map from file name to what the file holds. */
module Msa {
  import opened Common
  import opened Http
  import opened Router

  /** The folder selector's two valid values. */
  const INBOX := 0
  const OUTBOX := 1

  datatype Partition = Inbox | Outbox

  /** The handlers' selector test: INBOX or OUTBOX, anything else refused. */
  function FolderOf(selector: int): (p: Option<Partition>)
    ensures p.Some? <==> selector == INBOX || selector == OUTBOX
    ensures p == Some(Inbox) <==> selector == INBOX
    ensures p == Some(Outbox) <==> selector == OUTBOX
  {
    if selector == INBOX then Some(Inbox)
    else if selector == OUTBOX then Some(Outbox)
    else None
  }

  /** A stored file: JSON that decodes to a message, or bytes that do not. */
  datatype Stored = Valid(email: EMail) | Corrupt

  type Folder = map<string, Stored>

  datatype Mailbox = Mailbox(inbox: Folder, outbox: Folder) {

    function Files(p: Partition): Folder {
      match p
      case Inbox => inbox
      case Outbox => outbox
    }

    function WithFiles(p: Partition, files: Folder): Mailbox {
      match p
      case Inbox => this.(inbox := files)
      case Outbox => this.(outbox := files)
    }
  }

  /** Every message is stored in a file named after its id. */
  function FileName(id: string): string {
    id + ".email"
  }

  /** What the operating system reports for a failed file access. */
  datatype IoError = NotExist | Permission | OtherIo

  function ErrorStatus(e: IoError): int {
    match e
    case NotExist => StatusNotFound
    case Permission => StatusForbidden
    case OtherIo => StatusInternalServerError
  }

  /** A response body: a folder listing, or one file's raw contents. */
  datatype Payload = Emails(list: seq<EMail>) | Raw(content: Stored)

  function Refuse(code: int): Answer<Payload> {
    Responded(WriteHeader(Blank(), code))
  }

  /** POST /email (client submits). `id` is the freshly generated UUID, None
      when generation failed; `writeOk` says whether writing the file
      succeeded. The message is stored under the new id, whatever UUID the
      client supplied. */
  function Send(mb: Mailbox, id: Option<string>, body: Body<EMail>, writeOk: bool): (step: Step<Mailbox, Payload>)
    ensures step.answer.Responded? && step.state.inbox == mb.inbox
    ensures StatusOf(step.answer.response) == StatusCreated <==>
              id.Some? && body.readOk && body.decoded.Some?
              && body.decoded.value.from != "" && body.decoded.value.to != "" && writeOk
    ensures StatusOf(step.answer.response) == StatusBadRequest <==>
              id.Some? && body.readOk
              && (body.decoded.None? || body.decoded.value.from == "" || body.decoded.value.to == "")
    ensures StatusOf(step.answer.response) != StatusCreated ==>
              StatusOf(step.answer.response) in {StatusBadRequest, StatusInternalServerError} && step.state == mb
    ensures StatusOf(step.answer.response) == StatusCreated ==>
              step.state.outbox == mb.outbox[FileName(id.value) := Valid(body.decoded.value.(uuid := id.value))]
  {
    match id
    case None => Step(mb, Refuse(StatusInternalServerError))
    case Some(uuid) =>
      if !body.readOk then Step(mb, Refuse(StatusInternalServerError))
      else match body.decoded
        case None => Step(mb, Refuse(StatusBadRequest))
        case Some(e) =>
          if e.from == "" || e.to == "" then Step(mb, Refuse(StatusBadRequest))
          // Marshalling an EMail cannot fail; a failed write leaves no file.
          else if !writeOk then Step(mb, Refuse(StatusInternalServerError))
          else Step(mb.(outbox := mb.outbox[FileName(uuid) := Valid(e.(uuid := uuid))]), Refuse(StatusCreated))
  }

  /** POST /email/outbox (a transfer agent delivers). No sender or recipient
      check. The message gets a fresh id, or keeps its own when generation
      failed, and is stored in Inbox under that id; success is 200. */
  function Receive(mb: Mailbox, id: Option<string>, body: Body<EMail>, writeOk: bool): (step: Step<Mailbox, Payload>)
    ensures step.answer.Responded? && step.state.outbox == mb.outbox
    ensures StatusOf(step.answer.response) == StatusOK <==> body.readOk && body.decoded.Some? && writeOk
    ensures StatusOf(step.answer.response) == StatusBadRequest <==> body.readOk && body.decoded.None?
    ensures StatusOf(step.answer.response) != StatusOK ==> step.state == mb
    ensures StatusOf(step.answer.response) == StatusOK ==>
              var e := body.decoded.value;
              var key := if id.Some? then id.value else e.uuid;
              step.state.inbox == mb.inbox[FileName(key) := Valid(e.(uuid := key))]
  {
    if !body.readOk then Step(mb, Refuse(StatusInternalServerError))
    else match body.decoded
      case None => Step(mb, Refuse(StatusBadRequest))
      case Some(e) =>
        var key := if id.Some? then id.value else e.uuid;
        if !writeOk then Step(mb, Refuse(StatusInternalServerError))
        else Step(mb.(inbox := mb.inbox[FileName(key) := Valid(e.(uuid := key))]), Refuse(StatusOK))
  }

  /** The result of reading the listed files in order: the messages that
      decoded, or the first file error. */
  datatype FolderRead = Collected(emails: seq<EMail>) | FileFailed(error: IoError)

  /** The ReadAll loop. A listed file that is missing reads as NotExist;
      `fault` is any other error the system reports for a file. A file that
      does not decode is skipped. */
  function ReadFiles(files: Folder, names: seq<string>, fault: string -> Option<IoError>): (r: FolderRead)
    ensures r.Collected? <==> forall n :: n in names ==> fault(n).None? && n in files
    ensures r.Collected? ==> forall e :: e in r.emails ==> exists n :: n in names && n in files && files[n] == Valid(e)
    ensures r.Collected? ==> forall n :: n in names && files[n].Valid? ==> files[n].email in r.emails
    ensures r.Collected? ==> |r.emails| <= |names|
  {
    if |names| == 0 then Collected([])
    else
      var n := names[0];
      if fault(n).Some? then FileFailed(fault(n).value)
      else if n !in files then FileFailed(NotExist)
      else
        var rest := ReadFiles(files, names[1..], fault);
        assert forall m :: m in names[1..] ==> m in names;
        assert forall m :: m in names ==> m == n || m in names[1..];
        match files[n]
        case Corrupt => rest
        case Valid(e) => if rest.Collected? then Collected([e] + rest.emails) else rest
  }

  /** GET /email or /email/outbox. `listing` is the directory's file list,
      None when reading the directory failed. */
  function ReadAll(mb: Mailbox, selector: int, listing: Option<seq<string>>, fault: string -> Option<IoError>): (a: Answer<Payload>)
    ensures a.Responded?
    ensures FolderOf(selector).None? ==> StatusOf(a.response) == StatusBadRequest
    ensures FolderOf(selector).Some? && listing.None? ==> StatusOf(a.response) == StatusInternalServerError
    ensures FolderOf(selector).Some? && listing.Some? ==>
              var files := mb.Files(FolderOf(selector).value);
              (StatusOf(a.response) == StatusOK <==> forall n :: n in listing.value ==> fault(n).None? && n in files)
    ensures FolderOf(selector).Some? && listing.Some? ==>
              var r := ReadFiles(mb.Files(FolderOf(selector).value), listing.value, fault);
              r.FileFailed? ==> StatusOf(a.response) == ErrorStatus(r.error)
    ensures StatusOf(a.response) == StatusOK ==>
              && FolderOf(selector).Some? && listing.Some?
              && a.response.payload.Some? && a.response.payload.value.Emails?
              && var files := mb.Files(FolderOf(selector).value);
                 && (forall e :: e in a.response.payload.value.list ==>
                       exists n :: n in listing.value && n in files && files[n] == Valid(e))
                 && (forall n :: n in listing.value && files[n].Valid? ==> files[n].email in a.response.payload.value.list)
  {
    match FolderOf(selector)
    case None => Refuse(StatusBadRequest)
    case Some(p) =>
      match listing
      case None => Refuse(StatusInternalServerError)
      case Some(names) =>
        match ReadFiles(mb.Files(p), names, fault)
        case FileFailed(err) => Refuse(ErrorStatus(err))
        // No status is written before the listing, so the client sees 200.
        case Collected(es) => Responded(Write(Blank(), Emails(es)))
  }

  /** GET /email/{uuid}: Inbox only. The stored bytes come back as they are,
      decodable or not. */
  function Read(mb: Mailbox, id: string, fault: Option<IoError>): (a: Answer<Payload>)
    ensures a.Responded?
    ensures fault.None? && FileName(id) in mb.inbox ==>
              StatusOf(a.response) == StatusOK && a.response.payload == Some(Raw(mb.inbox[FileName(id)]))
    ensures fault.None? && FileName(id) !in mb.inbox ==> StatusOf(a.response) == StatusNotFound
    ensures fault.Some? ==> StatusOf(a.response) == ErrorStatus(fault.value)
  {
    var name := FileName(id);
    if fault.Some? then Refuse(ErrorStatus(fault.value))
    else if name !in mb.inbox then Refuse(ErrorStatus(NotExist))
    else Responded(Write(WriteHeader(Blank(), StatusOK), Raw(mb.inbox[name])))
  }

  /** DELETE /email/{uuid} or /email/outbox/{uuid}. */
  function Delete(mb: Mailbox, selector: int, id: string, fault: Option<IoError>): (step: Step<Mailbox, Payload>)
    ensures step.answer.Responded?
    ensures StatusOf(step.answer.response) == StatusOK <==>
              FolderOf(selector).Some? && fault.None? && FileName(id) in mb.Files(FolderOf(selector).value)
    ensures FolderOf(selector).Some? && fault.None? && FileName(id) !in mb.Files(FolderOf(selector).value) ==>
              StatusOf(step.answer.response) == StatusNotFound
    ensures StatusOf(step.answer.response) != StatusOK ==> step.state == mb
    ensures StatusOf(step.answer.response) == StatusOK ==>
              var p := FolderOf(selector).value;
              step.state == mb.WithFiles(p, mb.Files(p) - {FileName(id)})
  {
    match FolderOf(selector)
    case None => Step(mb, Refuse(StatusBadRequest))
    case Some(p) =>
      var name := FileName(id);
      if fault.Some? then Step(mb, Refuse(ErrorStatus(fault.value)))
      else if name !in mb.Files(p) then Step(mb, Refuse(ErrorStatus(NotExist)))
      else Step(mb.WithFiles(p, mb.Files(p) - {name}), Refuse(StatusOK))
  }

  datatype Endpoint =
    | ReceiveEndpoint
    | ReadAllEndpoint(selector: int)
    | DeleteEndpoint(selector: int)
    | SendEndpoint
    | ReadEndpoint

  /** The route table, in registration order: first the routes the transfer
      agent uses, then the client's. */
  const Routes: seq<Route<Endpoint>> := [
    Route(Post, [Lit("email"), Lit("outbox")], ReceiveEndpoint),
    Route(Get, [Lit("email"), Lit("outbox")], ReadAllEndpoint(OUTBOX)),
    Route(Router.Delete, [Lit("email"), Lit("outbox"), Var], DeleteEndpoint(OUTBOX)),
    Route(Post, [Lit("email")], SendEndpoint),
    Route(Get, [Lit("email")], ReadAllEndpoint(INBOX)),
    Route(Get, [Lit("email"), Var], ReadEndpoint),
    Route(Router.Delete, [Lit("email"), Var], DeleteEndpoint(INBOX))
  ]

  /** A well-formed Send lands in Outbox under the new id, replacing the
      client's UUID; when that file name was unused, Outbox gains exactly one
      file and every other file is kept. */
  lemma SendStoresUnderFreshId(mb: Mailbox, id: string, e: EMail)
    requires e.from != "" && e.to != ""
    requires FileName(id) !in mb.outbox
    ensures var step := Send(mb, Some(id), Body(true, Some(e)), true);
            && StatusOf(step.answer.response) == StatusCreated
            && step.state.outbox.Keys == mb.outbox.Keys + {FileName(id)}
            && |step.state.outbox| == |mb.outbox| + 1
            && step.state.outbox[FileName(id)] == Valid(e.(uuid := id))
            && step.state.outbox[FileName(id)].email.uuid == id
            && (forall n :: n in mb.outbox ==> step.state.outbox[n] == mb.outbox[n])
  {
  }

  /** Listing a folder whose files are all listed once and all readable gives
      exactly the messages that decode. */
  lemma ReadAllListsDecodable(mb: Mailbox, selector: int, names: seq<string>, fault: string -> Option<IoError>)
    requires FolderOf(selector).Some?
    requires forall n :: n in names <==> n in mb.Files(FolderOf(selector).value)
    requires forall n :: n in names ==> fault(n).None?
    ensures var a := ReadAll(mb, selector, Some(names), fault);
            var files := mb.Files(FolderOf(selector).value);
            && StatusOf(a.response) == StatusOK
            && a.response.payload.Some? && a.response.payload.value.Emails?
            && forall e :: e in a.response.payload.value.list <==> exists n :: n in files && files[n] == Valid(e)
  {
    var files := mb.Files(FolderOf(selector).value);
    var r := ReadFiles(files, names, fault);
    assert r.Collected?;
    forall e | exists n :: n in files && files[n] == Valid(e)
      ensures e in r.emails
    {
      var n :| n in files && files[n] == Valid(e);
      assert n in names;
    }
  }

  /** A message sent and then listed: the Outbox listing holds it. */
  lemma SentMessageIsListed(mb: Mailbox, id: string, e: EMail, names: seq<string>, fault: string -> Option<IoError>)
    requires e.from != "" && e.to != ""
    requires var after := Send(mb, Some(id), Body(true, Some(e)), true).state;
             forall n :: n in names <==> n in after.outbox
    requires forall n :: n in names ==> fault(n).None?
    ensures var after := Send(mb, Some(id), Body(true, Some(e)), true).state;
            var a := ReadAll(after, OUTBOX, Some(names), fault);
            StatusOf(a.response) == StatusOK && e.(uuid := id) in a.response.payload.value.list
  {
    var after := Send(mb, Some(id), Body(true, Some(e)), true).state;
    ReadAllListsDecodable(after, OUTBOX, names, fault);
    assert after.outbox[FileName(id)] == Valid(e.(uuid := id));
  }

  /** A message a transfer agent delivered is read back from Inbox under its
      new id, carrying that id. */
  lemma ReceivedMessageIsRead(mb: Mailbox, id: string, e: EMail)
    ensures var after := Receive(mb, Some(id), Body(true, Some(e)), true).state;
            var a := Read(after, id, None);
            StatusOf(a.response) == StatusOK && a.response.payload == Some(Raw(Valid(e.(uuid := id))))
  {
  }

  /** A message a transfer agent delivered and then listed: the Inbox
      listing holds it. */
  lemma ReceivedMessageIsListed(mb: Mailbox, id: string, e: EMail, names: seq<string>, fault: string -> Option<IoError>)
    requires var after := Receive(mb, Some(id), Body(true, Some(e)), true).state;
             forall n :: n in names <==> n in after.inbox
    requires forall n :: n in names ==> fault(n).None?
    ensures var after := Receive(mb, Some(id), Body(true, Some(e)), true).state;
            var a := ReadAll(after, INBOX, Some(names), fault);
            StatusOf(a.response) == StatusOK && e.(uuid := id) in a.response.payload.value.list
  {
    var after := Receive(mb, Some(id), Body(true, Some(e)), true).state;
    ReadAllListsDecodable(after, INBOX, names, fault);
    assert after.inbox[FileName(id)] == Valid(e.(uuid := id));
  }

  /** Deleting twice: 200 and the file is gone, then 404 with nothing
      changed; other files are untouched. */
  lemma DeleteTwice(mb: Mailbox, selector: int, id: string)
    requires FolderOf(selector).Some? && FileName(id) in mb.Files(FolderOf(selector).value)
    ensures var p := FolderOf(selector).value;
            var first := Delete(mb, selector, id, None);
            var second := Delete(first.state, selector, id, None);
            && StatusOf(first.answer.response) == StatusOK
            && FileName(id) !in first.state.Files(p)
            && (forall n :: n in mb.Files(p) && n != FileName(id) ==>
                  n in first.state.Files(p) && first.state.Files(p)[n] == mb.Files(p)[n])
            && first.state.Files(if p.Inbox? then Outbox else Inbox) == mb.Files(if p.Inbox? then Outbox else Inbox)
            && StatusOf(second.answer.response) == StatusNotFound
            && second.state == first.state
  {
  }

  /** A deleted message is not read back. */
  lemma DeletedIsNotRead(mb: Mailbox, id: string)
    requires FileName(id) in mb.inbox
    ensures var after := Delete(mb, INBOX, id, None).state;
            StatusOf(Read(after, id, None).response) == StatusNotFound
  {
  }

  /** Receive keeps the incoming UUID only when generation failed. */
  lemma ReceiveIdChoice(mb: Mailbox, newId: string, e: EMail)
    ensures var withFresh := Receive(mb, Some(newId), Body(true, Some(e)), true).state;
            withFresh.inbox[FileName(newId)] == Valid(e.(uuid := newId))
    ensures var withOwn := Receive(mb, None, Body(true, Some(e)), true).state;
            withOwn.inbox[FileName(e.uuid)] == Valid(e)
    ensures Receive(mb, None, Body(true, Some(e)), true).state.inbox.Keys == mb.inbox.Keys + {FileName(e.uuid)}
  {
  }

  /** Read looks in Inbox only: a message that sits only in Outbox is not
      found. */
  lemma ReadIgnoresOutbox(mb: Mailbox, id: string)
    requires FileName(id) in mb.outbox && FileName(id) !in mb.inbox
    ensures StatusOf(Read(mb, id, None).response) == StatusNotFound
  {
  }

  /** The transfer agent's routes: POST /email/outbox receives into Inbox,
      GET /email/outbox lists Outbox, DELETE /email/outbox/{uuid} deletes
      from Outbox. */
  lemma TransferRoutes(id: string)
    requires id != ""
    ensures Match(Routes, Post, ["email", "outbox"]) == Handle(ReceiveEndpoint, [])
    ensures Match(Routes, Get, ["email", "outbox"]) == Handle(ReadAllEndpoint(OUTBOX), [])
    ensures Match(Routes, Router.Delete, ["email", "outbox", id]) == Handle(DeleteEndpoint(OUTBOX), [id])
  {
    var box := ["email", "outbox"];
    assert PathMatches(Routes[0].pattern, box);
    MatchFirst(Routes, Post, box, 0);
    assert Captures(Routes[0].pattern, box) == [];
    assert PathMatches(Routes[1].pattern, box);
    MatchFirst(Routes, Get, box, 1);
    assert Captures(Routes[1].pattern, box) == [];
    var del := ["email", "outbox", id];
    assert SegmentMatches(Var, id);
    assert PathMatches(Routes[2].pattern, del);
    MatchFirst(Routes, Router.Delete, del, 2);
    assert Captures([Var], [id]) == [id];
    assert Captures(Routes[2].pattern, del) == [id];
  }

  /** The client's routes without a variable: POST /email sends and
      GET /email lists Inbox. */
  lemma ClientRootRoutes()
    ensures Match(Routes, Post, ["email"]) == Handle(SendEndpoint, [])
    ensures Match(Routes, Get, ["email"]) == Handle(ReadAllEndpoint(INBOX), [])
  {
    var root := ["email"];
    assert forall j :: 0 <= j < 3 ==> |Routes[j].pattern| != 1;
    assert PathMatches(Routes[3].pattern, root);
    MatchFirst(Routes, Post, root, 3);
    assert PathMatches(Routes[4].pattern, root);
    MatchFirst(Routes, Get, root, 4);
  }

  /** GET /email/{uuid} reads from Inbox, except that GET /email/outbox is
      taken by the Outbox listing. */
  lemma ReadRoute(id: string)
    requires id != "" && id != "outbox"
    ensures Match(Routes, Get, ["email", id]) == Handle(ReadEndpoint, [id])
  {
    var one := ["email", id];
    assert !SegmentMatches(Routes[1].pattern[1], one[1]);
    assert !PathMatches(Routes[1].pattern, one);
    assert !Serves(Routes[0], Get, one) && !Serves(Routes[1], Get, one);
    assert forall j :: 2 <= j < 5 ==> !Serves(Routes[j], Get, one);
    assert SegmentMatches(Var, id);
    assert PathMatches(Routes[5].pattern, one);
    MatchFirst(Routes, Get, one, 5);
    assert Captures([Var], [id]) == [id];
    assert Captures(Routes[5].pattern, one) == [id];
  }

  /** DELETE /email/{uuid} deletes from Inbox, whatever the segment, so
      DELETE /email/outbox deletes a file named `outbox.email` from Inbox. */
  lemma InboxDeleteRoute(id: string)
    requires id != ""
    ensures Match(Routes, Router.Delete, ["email", id]) == Handle(DeleteEndpoint(INBOX), [id])
  {
    var one := ["email", id];
    assert forall j :: 0 <= j < 6 ==> Routes[j].verb != Router.Delete || |Routes[j].pattern| != 2;
    assert SegmentMatches(Var, id);
    assert PathMatches(Routes[6].pattern, one);
    MatchFirst(Routes, Router.Delete, one, 6);
    assert Captures([Var], [id]) == [id];
    assert Captures(Routes[6].pattern, one) == [id];
  }
}
