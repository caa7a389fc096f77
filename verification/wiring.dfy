/** How the three agents meet: the paths each one builds land on the routes
    the next one registers, the directory's answers drive the scan and the
    mailbox agent's registration, and a destination transfer agent's
    answers drive the sending one. An agent's address ends in `/`, so the
    path its router sees is whatever was appended to the address. */
module Wiring {
  import opened Common
  import opened Strings
  import opened Http
  import opened Router
  import BlueBook
  import Msa
  import MsaRegistration
  import Mta
  import Scan

  /** The directory's host part, before the `bluebook/` path. */
  const DirectoryHost := "http://192.168.1.3:8888/"

  /** The directory, seen by the scan as its lookup oracle: a GET of
      `bluebook/<recipient>`, whose segments `LookupPath` gives, routed and
      handled. */
  function DirectoryLookup(dir: BlueBook.Directory): Scan.Lookup {
    (to: string) => Received(BlueBook.Serve(dir, Get, ["bluebook"] + Split(to, '/'), Body(true, None)).answer)
  }

  /** The segments of `bluebook/<to>`. */
  lemma LookupPath(to: string)
    ensures Split("bluebook/" + to, '/') == ["bluebook"] + Split(to, '/')
  {
    assert "bluebook/" + to == "bluebook" + ['/'] + to;
    SplitAtFirst("bluebook", to, '/');
  }

  /** A name whose path segments the router neither cleans nor redirects
      for a trailing slash: no empty segment unless the name is empty, no `.`
      and no `..`. */
  predicate Clean(name: string) {
    var fields := Split(name, '/');
    forall i :: 0 <= i < |fields| ==> (fields[i] != "" || name == "") && fields[i] != "." && fields[i] != ".."
  }

  /** A name with an `@` and no `/` is one clean segment. */
  lemma AddressIsClean(name: string)
    requires '@' in name && '/' !in name
    ensures Clean(name)
  {
    SplitOfField(name, '/');
    assert Split(name, '/')[0] == name;
    assert name != "." && name != ".." by {
      assert '@' !in "." && '@' !in "..";
    }
  }

  /** The directory's answer status, all the transfer agent looks at. */
  function StatusOnly<B>(c: Call<B>): (d: Call<()>)
    ensures d.Answered? <==> c.Answered?
    ensures d.Answered? ==> d.status == c.status
    ensures d.Unbuildable? <==> c.Unbuildable?
  {
    match c
    case Answered(code, _) => Answered(code, None)
    case TransportError => TransportError
    case Unbuildable => Unbuildable
  }

  /** A destination transfer agent with registry `destReg`, seen by the
      sending agent as its handoff oracle; `forward` is the answer its
      mailbox agents give the forwarded message. */
  function MtaHandoff(destReg: Mta.Registry, forward: string -> Call<()>): Scan.Handoff {
    (url: string, e: EMail) => Received(Mta.Serve(destReg, Body(true, Some(e)), forward(Mta.ForwardUrl(destReg, e.to))).answer)
  }

  /** The segments of the paths the agents build, split at `/` as the
      router does. */
  lemma LookupSegments(name: string)
    requires '/' !in name
    ensures Split("bluebook/" + name, '/') == ["bluebook", name]
  {
    assert "bluebook/" + name == "bluebook" + ['/'] + name;
    SplitTwo("bluebook", name, '/');
  }

  lemma DirectoryRegisterSegments()
    ensures Split("bluebook/register", '/') == ["bluebook", "register"]
  {
    assert "bluebook/register" == "bluebook" + ['/'] + "register";
    SplitTwo("bluebook", "register", '/');
  }

  lemma HandoffSegments()
    ensures Split(Mta.HandoffPath, '/') == ["email", "server"]
  {
    assert Mta.HandoffPath == "email" + ['/'] + "server";
    SplitTwo("email", "server", '/');
  }

  lemma MtaRegisterSegments()
    ensures Split(MsaRegistration.MtaRegisterPath, '/') == ["email", "server", "register"]
  {
    assert MsaRegistration.MtaRegisterPath == "email" + ['/'] + "server" + ['/'] + "register";
    SplitThree("email", "server", "register", '/');
  }

  lemma ForwardSegments()
    ensures Split(Mta.ForwardPath, '/') == ["email", "outbox"]
  {
    assert Mta.ForwardPath == "email" + ['/'] + "outbox";
    SplitTwo("email", "outbox", '/');
  }

  lemma DeleteSegments(uuid: string)
    requires '/' !in uuid
    ensures Split(Mta.DeletePath + uuid, '/') == ["email", "outbox", uuid]
  {
    assert Mta.DeletePath + uuid == "email" + ['/'] + "outbox" + ['/'] + uuid;
    SplitThree("email", "outbox", uuid, '/');
  }

  /** The directory's two URLs are its host followed by the `bluebook/`
      paths routed below. */
  lemma DirectoryUrls(name: string)
    ensures MsaRegistration.LookupUrl(Server(name, "")) == DirectoryHost + "bluebook/" + name
    ensures Mta.DirectoryRegisterUrl == DirectoryHost + "bluebook/register"
  {
    assert DirectoryUrl == DirectoryHost + "bluebook/";
  }

  /** The mailbox agent's lookup of its own name and the transfer agent's
      registration reach the directory's two routes. */
  lemma DirectoryPaths(name: string)
    requires name != "" && '/' !in name
    ensures Match(BlueBook.Routes, Get, Split("bluebook/" + name, '/')) == Handle(BlueBook.FindEndpoint, [name])
    ensures Match(BlueBook.Routes, Post, Split("bluebook/register", '/')) == Handle(BlueBook.RegisterEndpoint, [])
  {
    LookupSegments(name);
    DirectoryRegisterSegments();
    BlueBook.RoutesDispatch(name);
  }

  /** The handoff and the mailbox agent's registration reach the transfer
      agent's two routes. */
  lemma TransferAgentPaths()
    ensures Match(Mta.Routes, Post, Split(Mta.HandoffPath, '/')) == Handle(Mta.ServeEndpoint, [])
    ensures Match(Mta.Routes, Post, Split(MsaRegistration.MtaRegisterPath, '/')) == Handle(Mta.RegisterEndpoint, [])
  {
    HandoffSegments();
    MtaRegisterSegments();
    Mta.RoutesDispatch();
  }

  /** The forward, the outbox fetch and the delete reach the mailbox agent's
      transfer routes. */
  lemma MailboxAgentPaths(uuid: string)
    requires uuid != "" && '/' !in uuid
    ensures Match(Msa.Routes, Post, Split(Mta.ForwardPath, '/')) == Handle(Msa.ReceiveEndpoint, [])
    ensures Match(Msa.Routes, Get, Split(Mta.ForwardPath, '/')) == Handle(Msa.ReadAllEndpoint(Msa.OUTBOX), [])
    ensures Match(Msa.Routes, Router.Delete, Split(Mta.DeletePath + uuid, '/')) == Handle(Msa.DeleteEndpoint(Msa.OUTBOX), [uuid])
  {
    ForwardSegments();
    DeleteSegments(uuid);
    Msa.TransferRoutes(uuid);
  }

  /** What the scan's lookup of a recipient comes to once routed. A name of
      one non-empty segment reaches the lookup handler; an empty name, or one
      holding a `/`, fits no route and gets the router's 404, whose text body does not
      decode. */
  lemma RoutedLookup(dir: BlueBook.Directory, to: string)
    requires Clean(to)
    ensures '/' !in to && to != "" ==> DirectoryLookup(dir)(to) == Received(BlueBook.FindServer(dir, to))
    ensures '/' in to || to == "" ==> DirectoryLookup(dir)(to) == Answered(StatusNotFound, None)
  {
    if '/' in to {
      LookupWithSlash(dir, to);
    } else if to == "" {
      LookupOfNothing(dir);
    } else {
      LookupOfSegment(dir, to);
    }
  }

  lemma LookupOfSegment(dir: BlueBook.Directory, to: string)
    requires '/' !in to && to != ""
    ensures DirectoryLookup(dir)(to) == Received(BlueBook.FindServer(dir, to))
  {
    SplitOfField(to, '/');
    var path := ["bluebook"] + Split(to, '/');
    assert path == ["bluebook", to];
    BlueBook.RoutesDispatch(to);
    assert BlueBook.Serve(dir, Get, path, Body(true, None)) == Step(dir, BlueBook.FindServer(dir, to));
  }

  lemma LookupOfNothing(dir: BlueBook.Directory)
    ensures DirectoryLookup(dir)("") == Answered(StatusNotFound, None)
  {
    SplitOfField("", '/');
    var path := ["bluebook"] + Split("", '/');
    assert path == ["bluebook", ""];
    assert !SegmentMatches(BlueBook.Routes[0].pattern[1], path[1]);
    assert !SegmentMatches(BlueBook.Routes[1].pattern[1], path[1]);
    NoPatternNotFound(BlueBook.Routes, Get, path);
  }

  lemma LookupWithSlash(dir: BlueBook.Directory, to: string)
    requires '/' in to
    ensures DirectoryLookup(dir)(to) == Answered(StatusNotFound, None)
  {
    SingleFieldIffNoSeparator(to, '/');
    var path := ["bluebook"] + Split(to, '/');
    assert |path| >= 3;
    NoPatternNotFound(BlueBook.Routes, Get, path);
    assert BlueBook.Serve(dir, Get, path, Body(true, None)).answer == Responded(WriteHeader(Blank(), StatusNotFound));
  }

  /** A recipient whose domain never registered stops the sender's cycle:
      the directory answers 404 with a body that does not decode, empty from
      the lookup handler or the router's text when no route fits. */
  lemma UnregisteredDomainStopsScan(dir: BlueBook.Directory, reg: Mta.Registry, e: EMail, user: string, domain: string,
                                    handoff: Scan.Handoff, remove: Scan.Remover)
    requires '@' !in user && '@' !in domain && domain !in dir
    requires e.to == user + "@" + domain && Clean(e.to)
    ensures Scan.DeliverOne(reg, e, DirectoryLookup(dir), handoff, remove) == Scan.Cycle([], Scan.Stopped(Scan.LookupUnreadable))
  {
    RoutedLookup(dir, e.to);
    if '/' !in e.to {
      BlueBook.UnknownDomainNotFound(dir, user, domain);
    }
  }

  /** A recipient with no `@`: a single segment makes the directory's
      handler panic, so the sender sees a transport error and crashes; an
      empty one, or one with a `/`, is answered 404 and stops the cycle. */
  lemma RecipientWithoutAtEndsScan(dir: BlueBook.Directory, reg: Mta.Registry, e: EMail,
                                   handoff: Scan.Handoff, remove: Scan.Remover)
    requires '@' !in e.to && Clean(e.to)
    ensures Scan.DeliverOne(reg, e, DirectoryLookup(dir), handoff, remove)
            == if '/' in e.to || e.to == "" then Scan.Cycle([], Scan.Stopped(Scan.LookupUnreadable))
               else Scan.Cycle([], Scan.Crashed(Scan.LookupFailed))
  {
    RoutedLookup(dir, e.to);
  }

  /** A recipient in a registered domain resolves exactly when its address is
      one path segment, and the message is then posted to the handoff path of
      the transfer agent registered for the domain. */
  lemma RegisteredDomainResolves(dir: BlueBook.Directory, e: EMail, user: string, domain: string)
    requires '@' !in user && '@' !in domain && domain in dir
    requires e.to == user + "@" + domain && Clean(e.to)
    ensures Scan.Resolved(e, DirectoryLookup(dir)) <==> '/' !in user && '/' !in domain
    ensures Scan.Resolved(e, DirectoryLookup(dir)) ==>
              Scan.HandoffUrl(e, DirectoryLookup(dir)) == dir[domain].address + Mta.HandoffPath
  {
    RoutedLookup(dir, e.to);
    AddressParts(user, domain, '/');
    if '/' !in e.to {
      BlueBook.DomainOfAddress(user, domain);
    }
  }

  /** Whatever the recipient's mailbox agent answers the forward, the
      destination answers the handoff 200, so the sender deletes the message
      from its Outbox: a message the mailbox agent refused is lost. */
  lemma RefusedForwardStillDeleted(lookup: Scan.Lookup, reg: Mta.Registry, destReg: Mta.Registry, e: EMail,
                                   forward: string -> Call<()>, code: int, remove: Scan.Remover)
    requires Scan.Resolved(e, lookup) && !Schemeless(Scan.HandoffUrl(e, lookup))
    requires forward(Mta.ForwardUrl(destReg, e.to)) == Answered(code, None)
    requires !Schemeless(Mta.ForwardUrl(destReg, e.to))
    requires Scan.DeleteOutcome(reg, e, remove).Answered?
    ensures Scan.DeliverOne(reg, e, lookup, MtaHandoff(destReg, forward), remove)
            == Scan.Cycle([Scan.RemovalFor(reg, e)], Scan.Completed)
  {
    Mta.HandoffAnswersOk(destReg, e, code);
  }

  /** When the forward fails, in transport or for want of a scheme, the
      destination's handler panics and the sender, seeing a transport error,
      crashes too. */
  lemma FailedForwardCrashesSender(lookup: Scan.Lookup, reg: Mta.Registry, destReg: Mta.Registry, e: EMail,
                                   forward: string -> Call<()>, remove: Scan.Remover)
    requires Scan.Resolved(e, lookup)
    requires var url := Mta.ForwardUrl(destReg, e.to); !forward(url).Answered? || Schemeless(url)
    ensures Scan.DeliverOne(reg, e, lookup, MtaHandoff(destReg, forward), remove)
            == Scan.Cycle([], Scan.Crashed(Scan.HandoffFailed))
  {
  }

  /** A message for an unknown user in a registered domain: the directory
      resolves the domain, the destination forwards to a URL with no scheme
      and panics, and the sending transfer agent crashes. */
  lemma UnknownRecipientCrashesSender(dir: BlueBook.Directory, reg: Mta.Registry, destReg: Mta.Registry, e: EMail,
                                      user: string, domain: string, forward: string -> Call<()>, remove: Scan.Remover)
    requires '@' !in user && '@' !in domain && '/' !in user && '/' !in domain && domain in dir
    requires e.to == user + "@" + domain && e.to !in destReg
    ensures Scan.DeliverOne(reg, e, DirectoryLookup(dir), MtaHandoff(destReg, forward), remove)
            == Scan.Cycle([], Scan.Crashed(Scan.HandoffFailed))
  {
    AddressParts(user, domain, '/');
    assert e.to[|user|] == '@';
    AddressIsClean(e.to);
    RegisteredDomainResolves(dir, e, user, domain);
    Mta.UnknownRecipientPanics(destReg, e, forward(Mta.ForwardUrl(destReg, e.to)));
    FailedForwardCrashesSender(DirectoryLookup(dir), reg, destReg, e, forward, remove);
  }

  /** A character other than `@` is in `user@domain` exactly when it is in
      one of the parts. */
  lemma AddressParts(user: string, domain: string, c: char)
    requires c != '@'
    ensures c in user + "@" + domain <==> c in user || c in domain
  {
    var a := user + "@" + domain;
    if c in a {
      var i :| 0 <= i < |a| && a[i] == c;
      if i >= |user| + 1 {
        assert domain[i - |user| - 1] == c;
      }
    }
    if c in domain {
      var j :| 0 <= j < |domain| && domain[j] == c;
      assert a[|user| + 1 + j] == c;
    }
  }

  /** The mailbox agent looks up its own name, and the directory keys on the
      text after `@`: a name without `@` panics the directory, or fits no
      route, on every attempt, so the registration loop never ends. */
  lemma NameWithoutAtNeverRegisters(dir: BlueBook.Directory, self: Server, post: string -> Call<()>)
    requires '@' !in self.name && Clean(self.name)
    ensures MsaRegistration.Decide(MsaRegistration.Attempt(DirectoryLookup(dir)(self.name), post))
            == MsaRegistration.Retry
  {
    RoutedLookup(dir, self.name);
  }

  /** The whole registration chain: a transfer agent registers its domain
      with the directory; a mailbox agent named `user@domain` then finds that
      transfer agent and is done once its post to it is answered at all,
      unless its name holds a `/`, which no directory route fits; the
      transfer agent's registry then maps the mailbox agent's name to its
      address. */
  lemma RegistrationChain(dir: BlueBook.Directory, reg: Mta.Registry, mta: Server, self: Server, user: string,
                          post: string -> Call<()>)
    requires '@' !in user && '@' !in mta.name
    requires self.name == user + "@" + mta.name && Clean(self.name)
    ensures var dir' := BlueBook.AddServer(dir, Body(true, Some(mta))).state;
            var url := MsaRegistration.RegisterUrl(mta);
            MsaRegistration.Decide(MsaRegistration.Attempt(DirectoryLookup(dir')(self.name), post))
            == if '/' in self.name || !Dial(url, post(url)).Answered? then MsaRegistration.Retry
               else MsaRegistration.Done(mta)
    ensures Mta.AddressOf(Mta.AddMsa(reg, Body(true, Some(self))).state, self.name) == self.address
  {
    var dir' := BlueBook.AddServer(dir, Body(true, Some(mta))).state;
    RoutedLookup(dir', self.name);
    if '/' !in self.name {
      BlueBook.RegisterThenFind(dir, mta, user);
    }
  }

  /** The transfer agent's registration with the directory, on the path
      `DirectoryPaths` routes to the register endpoint: the record is
      stored whenever it decodes, even when reading the body failed, and the
      agent comes up exactly when the body read, on the directory's 201; a
      record that does not decode changes nothing and the agent goes down. */
  lemma DirectoryRegistration(dir: BlueBook.Directory, self: Server, readOk: bool)
    ensures var s := BlueBook.Serve(dir, Post, ["bluebook", "register"], Body(readOk, Some(self)));
            && s.state == dir[self.name := self]
            && Mta.RegisterWithDirectory(StatusOnly(Received(s.answer))) == if readOk then Mta.Up else Mta.Down
    ensures var s := BlueBook.Serve(dir, Post, ["bluebook", "register"], Body(readOk, None));
            && s.state == dir
            && Mta.RegisterWithDirectory(StatusOnly(Received(s.answer))) == Mta.Down
  {
    BlueBook.RoutesDispatch("register");
    var path := ["bluebook", "register"];
    assert BlueBook.Serve(dir, Post, path, Body(readOk, Some(self))) == BlueBook.AddServer(dir, Body(readOk, Some(self)));
    assert BlueBook.Serve(dir, Post, path, Body(readOk, None)) == BlueBook.AddServer(dir, Body(readOk, None));
  }
}
