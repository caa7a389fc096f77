# emailServer in Dafny

A model of the three agents of the emailServer mail system and the proofs
about them.

- **BlueBook**, the directory. It maps a second-level domain to the
  transfer agent that serves it.
- **MSA**, the mailbox agent. It keeps one user's Inbox and Outbox as one
  JSON file per message. It serves the user's client and its transfer
  agent, and registers itself with its transfer agent at start-up.
- **MTA**, the transfer agent. It keeps a registry of its mailbox agents and
  accepts messages from other transfer agents. Every 15 seconds it scans its
  mailbox agents' Outboxes, looks each recipient up in the directory, hands
  the message to the destination transfer agent, and deletes it from the
  sender's Outbox.

Each HTTP handler is a pure function. Its inputs are the agent's state, the
request body and the answers of the calls the handler makes. Its outputs are
the new state and what it answers. The model follows the handlers branch for
branch, including their accidents:

- reading the status of a nil response after a failed call;
- a 500 that does not return;
- a handler that answers 200 because it wrote no status;
- a route that swallows `register`.

Module layout:

| file | module | what it holds |
|---|---|---|
| `common.dfy` | `Common` | `Option`, `Server`, `EMail`, status codes, the directory's URL |
| `strings.dfy` | `Strings` | Go's `strings.Split` and its inverse `Join` |
| `http.dfy` | `Http` | a call's outcome, a request body, a response writer where the first status wins, a handler panic seen by the caller |
| `router.dfy` | `Router` | gorilla/mux matching: ordered routes, the first full match wins, 405 against 404 |
| `bluebook.dfy` | `BlueBook` | `FindServer`, `AddServer` and the routes |
| `msa.dfy` | `Msa` | `MSASend`, `MSAReceive`, `MSAReadAll`, `MSARead`, `MSADelete` and the routes |
| `msa_registration.dfy` | `MsaRegistration` | the mailbox agent's registration loop |
| `mta.dfy` | `Mta` | `AddMSA`, `MTAServe`, `register`, `deleteEmail` and the routes |
| `scan.dfy` | `Scan` | `MTAScanAndSend` and the ticker loop that runs it |
| `wiring.dfy` | `Wiring` | how the agents meet: paths against routes, one agent's answers driving another |

How the outside world enters the model:

- A call to another agent becomes a `Call` value. It is `Unbuildable` when
  `http.NewRequest` fails, `TransportError` when the call fails, or
  `Answered` with a status and a body that read and decoded, or did not.
- In the scan, the other agents appear as total functions, called oracles
  here: the directory's answer per recipient, the destination's answer per
  (URL, message), and the mailbox agent's answer per delete URL.
- A URL without a scheme, such as the bare path built from the empty
  address of an unregistered name, never reaches another agent: `Http.Dial`
  turns whatever answer was given for it into a transport error.
- The file system of a mailbox agent is a map from file name to stored
  content. A failed read or listing becomes an explicit fault argument.
- The fresh UUID and a failed file write are arguments.

## Model

| member | source | states |
|---|---|---|
| Strings.Split | BlueBook/bluebook.go:49-50 | splitting at a separator gives one more field than there are separators; no field contains it; and joining the fields back gives the input |
| Strings.SplitOfField | BlueBook/bluebook.go:49-50 | a string without the separator splits into itself alone |
| Strings.SplitAtFirst | BlueBook/bluebook.go:49-50 | splitting `a sep b`, where `a` is free of the separator, is `a` followed by the split of `b` |
| Strings.SplitOfJoin | BlueBook/bluebook.go:49-50 | split inverts join on separator-free fields |
| Strings.SingleFieldIffNoSeparator | BlueBook/bluebook.go:49-50 | the split has exactly one field if and only if the separator does not occur, so `emailSplit[1]` exists exactly when there is an `@` |
| Strings.SplitTwo | BlueBook/bluebook.go:49-50 | `a@b` splits into `[a, b]` |
| Strings.SplitThree | BlueBook/bluebook.go:49-50 | `a@b@c` splits into `[a, b, c]` |
| Http.Received | MTA/mta.go:133-138 | what the caller of a handler sees: an answer, with the status the handler wrote (200 when it wrote none) and its body, if and only if the handler did not panic; a panic, such as reading the status of a nil response, reaches the caller as a dropped connection |
| Http.Dial | MTA/mta.go:129-133 | a call is answered if and only if the agent would answer and the URL has a scheme; a URL without one fails in transport, as Go's client refuses it; whether the request could be built is unchanged |
| Http.SchemelessPath | MTA/mta.go:123-130 | a path with a `/` and no `:`, followed by anything, has no scheme, so the bare paths built from an empty address cannot be sent |
| Router.Match | BlueBook/bluebook.go:34-41 | a handler is chosen if and only if some route serves the method and path, and it is the first such route with its captured variables; otherwise 405 exactly when some route's path matched, else 404 |
| Router.MatchFirst | MSA/msa.go:53-69 | when route `i` is the first to serve a request, that route's handler runs with the segments its variables captured |
| Router.NoPatternNotFound | BlueBook/bluebook.go:34-41 | a path no route's pattern fits is answered 404, whatever the method |
| BlueBook.Domain | BlueBook/bluebook.go:47-50 | a key exists if and only if the address has an `@`, and the key never contains `@` |
| BlueBook.FindServer | BlueBook/bluebook.go:44-77 | the handler panics if and only if the address has no `@`; a registered domain answers 200 with its record; an unknown one answers 404 with an empty body |
| BlueBook.AddServer | BlueBook/bluebook.go:81-106 | the status is 500 on a failed read, else 201 on decode, else 400; a decoded record is upserted even after a failed read; every other name keeps its record; an undecodable body changes nothing |
| BlueBook.DomainOfAddress | BlueBook/bluebook.go:49-54 | `user@domain` is looked up under `domain` |
| BlueBook.DomainStopsAtSecondAt | BlueBook/bluebook.go:49-50 | `u@d@...` is looked up under `d` alone, whatever follows the second `@`, more `@`s included |
| BlueBook.LastRegistrationWins | BlueBook/bluebook.go:95-96 | after two registrations under one name, a lookup returns the second record |
| BlueBook.RegisterThenFind | BlueBook/bluebook.go:44-106 | a registration answers 201, and a lookup of any address in that domain then answers 200 with the record |
| BlueBook.UnknownDomainNotFound | BlueBook/bluebook.go:58-65 | a lookup of a domain nobody registered answers 404 with no body |
| BlueBook.RoutesDispatch | BlueBook/bluebook.go:34-41 | GET on `/bluebook/x` is a lookup of `x`, even for `x = register`; POST on `/bluebook/register` registers; POST on any other `/bluebook/x` answers 405 |
| BlueBook.LookupOfRegisterPanics | BlueBook/bluebook.go:37-50 | GET `/bluebook/register` reaches the lookup, which panics for want of an `@` |
| Msa.FolderOf | MSA/msa.go:206-213 | selector 0 is the Inbox, 1 the Outbox, anything else has no partition |
| Msa.Send | MSA/msa.go:74-129 | the answer is 201 if and only if the id, read, decode, non-empty sender and recipient, and write all succeed; then the message is stored in the Outbox under the new id; 400 exactly when the decode failed or a party is empty; otherwise nothing changes; the Inbox never changes |
| Msa.Receive | MSA/msa.go:132-194 | 200 if and only if the read, decode and write succeed; 400 exactly when the decode failed; the message is filed in the Inbox under the fresh id, or under its own uuid when none could be made; the Outbox never changes |
| Msa.ReadFiles | MSA/msa.go:227-262 | the listing is read completely if and only if no file faults and every listed file exists; every message returned comes from a listed file that decoded; every listed file that decoded is returned |
| Msa.ReadAll | MSA/msa.go:199-275 | an unknown selector answers 400; a failed directory listing answers 500; otherwise the answer is 200 if and only if every listed file exists and reads, and a file error answers its own status; a 200 listing holds every decodable listed file of the selected partition and nothing that was not stored, decodable, in a listed file |
| Msa.Read | MSA/msa.go:280-311 | an Inbox file that reads is answered 200 with its contents; a missing one 404; a read error answers its status, 404, 403 or 500 |
| Msa.Delete | MSA/msa.go:315-355 | 200 if and only if the selector is known, the removal did not fault and the file existed; then exactly that file is gone; otherwise nothing changes |
| Msa.SendStoresUnderFreshId | MSA/msa.go:110-124 | a valid submission with a fresh id answers 201 and adds exactly that file to the Outbox |
| Msa.ReadAllListsDecodable | MSA/msa.go:220-273 | with a complete listing and no faults, the 200 answer holds every decodable message of the partition and nothing else |
| Msa.SentMessageIsListed | MSA/msa.go:74-129 | a message just submitted appears in the Outbox listing |
| Msa.ReceivedMessageIsRead | MSA/msa.go:132-194 | a message a transfer agent delivered reads back from the Inbox, 200, under its new id and carrying that id |
| Msa.ReceivedMessageIsListed | MSA/msa.go:132-194 | a message a transfer agent delivered appears in the Inbox listing |
| Msa.DeleteTwice | MSA/msa.go:336-353 | a second delete of the same id answers 404 and changes nothing |
| Msa.DeletedIsNotRead | MSA/msa.go:280-355 | after an Inbox delete, a read of the same id answers 404 |
| Msa.ReceiveIdChoice | MSA/msa.go:132-190 | a received message is filed under the new id when one was made, and under its own uuid otherwise |
| Msa.ReadIgnoresOutbox | MSA/msa.go:280-311 | a read by id looks only in the Inbox: an id present only in the Outbox answers 404 |
| Msa.TransferRoutes | MSA/msa.go:58-60 | POST and GET `/email/outbox` reach Receive and the Outbox listing; DELETE `/email/outbox/{uuid}` reaches the Outbox delete |
| Msa.ClientRootRoutes | MSA/msa.go:63-64 | POST and GET `/email` reach Send and the Inbox listing |
| Msa.ReadRoute | MSA/msa.go:59-65 | GET `/email/{uuid}` reaches the read for any uuid but `outbox` |
| Msa.InboxDeleteRoute | MSA/msa.go:60-66 | DELETE `/email/{uuid}` reaches the Inbox delete |
| MsaRegistration.DecideIffSucceeds | MSA/utils.go:52-123 | the loop ends if and only if the lookup was answered at most 299 with a body that decoded and the post to that transfer agent's registration URL, which must have a scheme, got any answer; the transfer agent is the one the directory named and the one posted to |
| MsaRegistration.RegistrationStatusIgnored | MSA/utils.go:104-123 | the last guard tests the directory's status again, so any status on the post, 4xx or 5xx, registers, provided the address the directory gave has a scheme |
| MsaRegistration.Register | MSA/utils.go:49-126 | registered at the first successful attempt, with every earlier one failing, after 2 seconds of sleep per failure; or still pending, with every attempt failing |
| MsaRegistration.RegisteredIsFinal | MSA/utils.go:52-124 | more attempts never change a registration that has happened |
| Mta.AddressOf | MTA/mta.go:124 | a registered name gives its address; any other gives the empty address of the zero record |
| Mta.AddMsa | MTA/mta.go:74-97 | 500 on a failed read, 201 with the record upserted on decode, else 400 with the registry unchanged; other names keep their records |
| Mta.Serve | MTA/mta.go:101-146 | 500 on a failed read and 400 on a failed decode, with nothing forwarded; otherwise the message goes to the recipient's registered address; the handler panics if and only if the forward got no answer or its URL has no scheme; any answer is passed back as 200 |
| Mta.RegisterWithDirectory | MTA/utils.go:73-93 | the agent is up if and only if the directory answered with a status of at most 299 |
| Mta.DeleteUrl | MTA/mta.go:269-274 | the delete URL is the address, then `email/outbox/`, then the uuid, each at its own position |
| Mta.DeleteEmail | MTA/utils.go:95-114 | the delete is sent if and only if the request was built, the URL has a scheme and the agent answered; a transport error or a missing scheme ends the process; an unbuildable request sends nothing |
| Mta.LastMsaRegistrationWins | MTA/mta.go:84-88 | after two registrations under one name the registry holds the second record |
| Mta.UnknownRecipientPanics | MTA/mta.go:123-133 | a message for a recipient that never registered is posted to the bare path `email/outbox`, which has no scheme, so the handler panics whatever a mailbox agent would answer |
| Mta.HandoffAnswersOk | MTA/mta.go:133-144 | whatever the mailbox agent answers, the handoff is answered exactly when the forward URL has a scheme, then always 200, and no status is written for a non-2xx answer |
| Mta.UnregisteredSenderDeleteFails | MTA/utils.go:95-114 | the delete for a sender that never registered goes to the bare path `email/outbox/<uuid>`; it is never sent, and the process dies unless the request could not be built |
| Mta.RoutesDispatch | MTA/mta.go:63-70 | POST `/email/server` reaches the handoff, POST `/email/server/register` the registration |
| Scan.DeliverOne | MTA/mta.go:186-266 | a message completes if and only if the destination took it and the delete did not fail; the process crashes if and only if the lookup failed in transport, the handoff failed in transport or for want of a scheme, or the delete failed after the destination took the message; a delete is issued, to the sender's registered agent, if and only if the destination took it and the request could be built; a stop means the lookup was answered and the destination did not take the message |
| Scan.DeliverAll | MTA/mta.go:186-266 | a folder's run issues the deletes of the fully successful run with some left out and the rest in order; every one is for a message of the folder that the destination took, addressed to its sender's agent |
| Scan.ScanBoxes | MTA/mta.go:149-267 | a cycle issues no more deletes than it fetched messages, and every delete is for a fetched message the destination took, addressed to its sender's agent |
| Scan.ScanDeletesInOrder | MTA/mta.go:155-266 | a cycle's deletes are those of the fully successful cycle over the fetched messages, some left out and the rest in scan order, so no message is deleted twice out of turn |
| Scan.DeliverAllAppend | MTA/mta.go:186-266 | running two runs of messages back to back is the first, then the second if the first completed |
| Scan.ScanIsFlat | MTA/mta.go:155-266 | the cycle equals one loop over all fetched messages, so mailbox boundaries play no part |
| Scan.StopEndsWholeCycle | MTA/mta.go:215-259 | the first message that does not complete ends the whole cycle wherever it sits in its mailbox: the deletes of the mailboxes before it and of the completed messages ahead of it in its own mailbox stand, and the rest of its mailbox and every later mailbox are not looked at |
| Scan.UnreadableOutboxSkipped | MTA/mta.go:157-181 | an outbox that cannot be fetched, read or decoded is passed over |
| Scan.UnresolvedRecipientStops | MTA/mta.go:213-225 | a lookup whose body does not decode (a 404 included) stops the cycle and deletes nothing |
| Scan.LookupFailureCrashes | MTA/mta.go:191-196 | a lookup that fails in transport crashes the process |
| Scan.LookupStatusIgnored | MTA/mta.go:191-225 | two lookup answers with the same body and different statuses lead to the same outcome |
| Scan.UnavailableDestinationStops | MTA/mta.go:255-259 | a 5xx handoff answer stops the cycle and keeps the message; when the destination address has no scheme the handoff never gets that far and the process crashes |
| Scan.AcceptedOrRejectedDeletes | MTA/mta.go:255-262 | any non-5xx handoff answer deletes the message from its sender's Outbox and goes on; a delete URL without a scheme kills the process instead |
| Scan.UnreachableDestinationCrashes | MTA/mta.go:244-256 | a handoff that fails in transport, or whose URL has no scheme, leaves a nil response whose status is read, so the process crashes and nothing is deleted |
| Scan.UnbuildableHandoffStops | MTA/mta.go:235-243 | a handoff request that cannot be built returns from the cycle |
| Scan.UnregisteredSenderCrashes | MTA/mta.go:193-262 | once the destination takes a message whose sender never registered, its delete goes to a URL with no scheme and the process dies, unless the request could not be built |
| Scan.DeleteAnswersIgnored | MTA/mta.go:284-291 | the status of a delete's answer never changes the cycle |
| Scan.RemovalsFor | MTA/mta.go:192-261 | one delete per message, in order, each to the sender's registered agent |
| Scan.AllDelivered | MTA/mta.go:186-266 | when every message is taken and every delete answered, the run completes with one delete per message, in order |
| Scan.NothingTakenNothingDeleted | MTA/mta.go:255-262 | a cycle in which no destination takes a message deletes nothing |
| Scan.MainLoop | MTA/mta.go:48-59 | cycles run one per tick, each to its end; only a crash ends the loop, and then it ends with that cycle |
| Wiring.LookupSegments | MSA/utils.go:55-56 | `bluebook/<name>` splits into the two segments the lookup route matches |
| Wiring.LookupPath | MTA/mta.go:190-191 | the path of `bluebook/<recipient>` is `bluebook` followed by the recipient split at `/` |
| Wiring.DirectoryRegisterSegments | MTA/utils.go:81-82 | `bluebook/register` splits into `bluebook`, `register` |
| Wiring.HandoffSegments | MTA/mta.go:235 | the handoff path splits into `email`, `server` |
| Wiring.MtaRegisterSegments | MSA/utils.go:104 | the registration path splits into `email`, `server`, `register` |
| Wiring.ForwardSegments | MTA/mta.go:130 | the forward path splits into `email`, `outbox` |
| Wiring.DeleteSegments | MTA/mta.go:272-273 | a delete path splits into `email`, `outbox` and the uuid |
| Wiring.DirectoryUrls | MSA/utils.go:55-56 | the lookup and registration URLs are the directory's host followed by the `bluebook/` paths |
| Wiring.DirectoryPaths | BlueBook/bluebook.go:37-38 | the mailbox agent's lookup reaches the directory's lookup route, and the transfer agent's registration reaches the registration route |
| Wiring.TransferAgentPaths | MTA/mta.go:66-67 | the handoff and the mailbox agent's registration reach the transfer agent's two routes |
| Wiring.MailboxAgentPaths | MSA/msa.go:58-60 | the forward, the outbox fetch and the delete reach the mailbox agent's transfer routes |
| Wiring.RoutedLookup | BlueBook/bluebook.go:34-50 | a lookup of a name of one non-empty segment reaches the lookup handler; an empty name, or one holding a `/`, fits no route and gets the router's 404, whose `404 page not found` body does not decode |
| Wiring.LookupOfSegment | BlueBook/bluebook.go:37-48 | a one-segment name is handed to the lookup handler as it is |
| Wiring.LookupOfNothing | BlueBook/bluebook.go:37 | an empty name leaves an empty last segment, which the `{email}` variable does not match: 404 |
| Wiring.LookupWithSlash | BlueBook/bluebook.go:37-38 | a name holding a `/` gives three or more segments, which no route fits: 404 |
| Wiring.UnregisteredDomainStopsScan | MTA/mta.go:189-225 | a recipient whose domain never registered stops the sender's whole cycle, whether the lookup reached the handler or fit no route |
| Wiring.RecipientWithoutAtEndsScan | BlueBook/bluebook.go:47-50 | a one-segment recipient with no `@` panics the directory, and the sending transfer agent crashes; an empty one, or one with a `/`, is answered 404 and stops the cycle |
| Wiring.RegisteredDomainResolves | MTA/mta.go:189-235 | a recipient in a registered domain resolves if and only if neither its user nor its domain holds a `/`, and the message then goes to the handoff path of that domain's transfer agent |
| Wiring.RefusedForwardStillDeleted | MTA/mta.go:129-144 | when the handoff and forward URLs have a scheme and the delete is answered, a message the recipient's mailbox agent refused is still deleted from the sender's Outbox, so it is lost |
| Wiring.FailedForwardCrashesSender | MTA/mta.go:129-133 | a forward that fails, in transport or for want of a scheme, panics the destination, and the sender crashes on the dropped connection |
| Wiring.UnknownRecipientCrashesSender | MTA/mta.go:123-133 | a message for an unknown user in a registered domain reaches the destination, which forwards it nowhere and panics, and the sending transfer agent crashes |
| Wiring.NameWithoutAtNeverRegisters | MSA/utils.go:55-69 | a mailbox agent whose name has no `@` is never registered: its lookup panics the directory or fits no route |
| Wiring.RegistrationChain | MSA/utils.go:49-126 | after a transfer agent registers its domain, a mailbox agent named `user@domain` finds it and is done exactly when its name holds no `/` and its post to that agent is answered; the transfer agent then maps the mailbox agent's name to its address |
| Wiring.DirectoryRegistration | MTA/utils.go:73-93 | a transfer agent's registration stores its record whenever it decodes, even after a failed body read, and the agent comes up exactly when the body read; a record that does not decode changes nothing and the agent goes down |

## Left out

- JSON encoding is left out. A body is modelled as having read and decoded,
  or not.
- Go's JSON decoding into a variable reused across iterations is left out.
  `destServer` and `folder` in `MTAScanAndSend` keep the fields of an earlier
  message that a partial body does not overwrite. The model treats each
  decode as fresh.
- Concurrency is left out: the goroutines that serve requests and the lock-free
  maps shared with them. Each handler is a step on a state.
- The 15-second ticker period and the 2-second retry delay are left out as
  time. The ticker is a sequence of ticks. The retry delay is counted in
  `MsaRegistration.Register`.
- Logging, `GetOutboundIP`, `CreateDirIfNotExist` and the programs' `main`
  command-line handling are left out. They do no work the handlers depend on.
- The MTA package declares `deleteEmail` twice, in `MTA/mta.go` and
  `MTA/utils.go`, so it does not compile as written. The versions differ
  only in how a transport error ends the process: a nil dereference or
  `log.Fatal`. Both are `Mta.DeleteEmail`'s `Fatal`.
- The MTA package also mixes an `MSA` and a `Server` type for the registry,
  and refers to e-mail fields its `EMail` type does not declare. The model
  uses one `Server` record and one `EMail` record.
- Scan.DeliverOne: the answers of the other agents are functions of the
  URL, the recipient or the message. Two identical requests in one cycle
  therefore get the same answer.
- Msa.Send: a failed `WriteFile` is modelled as leaving no file behind. A
  partial write is left out.
- Msa.ReadAll: the marshalling of the answer is treated as always
  succeeding. Its 500 branch is left out, as is the 500 branch of
  `FindServer`, which marshals a plain record.
- Status codes outside the ones the handlers write are not checked for
  validity: `WriteHeader` takes any integer.
- Http.Dial: of the faults a URL can have, only a missing scheme is
  modelled. Any other fault is left to the answer the other agent is given
  as having made.
- URL escaping is left out. Names and ids are spliced into paths as they
  are. A `?`, `#` or `%` in a recipient's address, or any other character
  that URL parsing treats specially, is taken literally.
- Router.Match: gorilla/mux's redirects are left out. Every router is built
  with strict-slash matching, so a path with a trailing `/` is redirected to
  the path without it. Path cleaning redirects a path with an empty segment,
  or a `.` or `..` segment, to its cleaned form. Both redirects are 301s.
  Go's client follows a 301, but it re-sends a POST or DELETE as a GET
  without a body, so the redirected request is not the one that was sent.
  The route lemmas are stated for paths without such segments.
- Wiring.RoutedLookup: for the same reason, the lemmas about the
  directory's answers to the scan and to the mailbox agent's registration
  require `Wiring.Clean` names, which the router neither cleans nor
  redirects.
- Scan.Box: the mailbox agent's record is kept with its outbox, but the
  cycle never reads it. The scan reaches each outbox at the recorded
  address, and the answer given stands for what was fetched there.

## Where the code and its own comments differ

The model follows the code:

- The comment at `MTA/mta.go:197` says a message with a problem is deleted,
  and the one at `MTA/mta.go:203` says a lookup error is retried later.
  Both branches also require a transport error, where the response is nil,
  so neither is ever taken. A failed lookup crashes the process
  (`Scan.LookupFailureCrashes`). The status of an answered lookup is never
  read (`Scan.LookupStatusIgnored`). A 404 comes with a body that does not
  decode, empty from the lookup handler or the router's `404 page not
  found` text, so the whole cycle returns (`Scan.UnresolvedRecipientStops`,
  `Wiring.UnregisteredDomainStopsScan`).
- The comment at `MTA/mta.go:252-254` says an unavailable destination
  leaves the message to be dealt with later. The 5xx branch returns from
  the whole cycle, so every later message and mailbox waits too
  (`Scan.StopEndsWholeCycle`).
- The comment at `MTA/mta.go:137` says the mailbox agent's error is
  forwarded to the sending transfer agent. That branch also requires a
  transport error, so it is never taken. `MTAServe` answers 200 whenever
  the mailbox agent answered at all (`Mta.HandoffAnswersOk`). For a
  recipient that never registered, the forward goes to the bare path
  `email/outbox`, and the handler panics (`Mta.UnknownRecipientPanics`).
- Cycles never overlap. The loop calls the scan synchronously on each tick
  (`Scan.MainLoop`), so no separate guard is needed.
