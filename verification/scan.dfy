/** The transfer agent's scan-and-send cycle and the main loop that runs it
    on every tick. The directory, the destination transfer agents and the
    mailbox agents appear only through their answers: a lookup answer per
    recipient, a handoff answer per (URL, message) and a delete answer per
    URL. A cycle produces the deletes it issued, in order, and how it ended:
    it completed, it returned early (Stopped), or the process died (Crashed).
    Every transport error on a lookup or a handoff reads the status of a nil
    response and crashes; a delete's transport error is fatal as well. */
module Scan {
  import opened Common
  import opened Http
  import opened Mta

  /** A mailbox agent as the scan reaches it: its record, and the answer to
      GET <address>email/outbox. The answer's status is never looked at;
      only whether its body read and decoded into a folder. */
  datatype Box = Box(owner: Server, outbox: Call<seq<EMail>>) {
    predicate Readable() {
      outbox.Answered? && outbox.body.Some?
    }
  }

  datatype Stop = LookupUnreadable | HandoffUnbuildable | DestinationUnavailable(status: int)
  datatype Crash = LookupFailed | HandoffFailed | DeleteFailed
  datatype End = Completed | Stopped(stop: Stop) | Crashed(crash: Crash)

  /** A DELETE the cycle sent, for message `uuid`, to the mailbox agent at
      `address`. */
  datatype Removal = Removal(address: string, uuid: string) {
    function Url(): string {
      DeleteUrl(address, uuid)
    }
  }

  /** What a cycle, or a part of one, did: the deletes sent, in order, and
      how it ended. */
  datatype Cycle = Cycle(removals: seq<Removal>, end: End)

  /** The directory's answer to GET <directory>/bluebook/<recipient>. */
  type Lookup = string -> Call<Server>
  /** The destination's answer to POST <url> carrying a message. */
  type Handoff = (string, EMail) -> Call<()>
  /** A mailbox agent's answer to DELETE <url>. */
  type Remover = string -> Call<()>

  /** Running one part and then the next: the next counts only when the
      first completed. */
  function Then(first: Cycle, next: Cycle): Cycle {
    if first.end.Completed? then Cycle(first.removals + next.removals, next.end) else first
  }

  /** The directory resolved the recipient: the lookup went through and its
      body read and decoded. Its status plays no part. */
  predicate Resolved(e: EMail, lookup: Lookup) {
    lookup(e.to).Answered? && lookup(e.to).body.Some?
  }

  /** Where the message is posted once the recipient is resolved. */
  function HandoffUrl(e: EMail, lookup: Lookup): string
    requires Resolved(e, lookup)
  {
    lookup(e.to).body.value.address + HandoffPath
  }

  /** What the handoff comes to: the destination's answer, unless the URL
      has no scheme, in which case the client fails before sending. */
  function HandoffOutcome(e: EMail, lookup: Lookup, handoff: Handoff): Call<()>
    requires Resolved(e, lookup)
  {
    var url := HandoffUrl(e, lookup);
    Dial(url, handoff(url, e))
  }

  /** The destination took the message: it answered, and not with a 5xx. */
  predicate HandedOff(e: EMail, lookup: Lookup, handoff: Handoff) {
    Resolved(e, lookup) && var h := HandoffOutcome(e, lookup, handoff); h.Answered? && !Is5xx(h.status)
  }

  /** The delete for a message goes to its sender's registered mailbox agent,
      `msa[email.From]`, whichever mailbox it was read from. */
  function RemovalFor(reg: Registry, e: EMail): Removal {
    Removal(AddressOf(reg, e.from), e.uuid)
  }

  /** What the delete comes to, as `HandoffOutcome` for the handoff. */
  function DeleteOutcome(reg: Registry, e: EMail, remove: Remover): Call<()> {
    var url := RemovalFor(reg, e).Url();
    Dial(url, remove(url))
  }

  /** One message: look up the recipient, hand the message off, delete it
      from the sender's Outbox. */
  function DeliverOne(reg: Registry, e: EMail, lookup: Lookup, handoff: Handoff, remove: Remover): (c: Cycle)
    ensures c.removals == [] || (c.removals == [RemovalFor(reg, e)] && HandedOff(e, lookup, handoff))
    ensures c.end.Completed? <==> HandedOff(e, lookup, handoff) && !DeleteOutcome(reg, e, remove).TransportError?
    ensures c.removals != [] <==> HandedOff(e, lookup, handoff) && !DeleteOutcome(reg, e, remove).Unbuildable?
    ensures c.end.Crashed? <==>
              || !lookup(e.to).Answered?
              || (Resolved(e, lookup) && HandoffOutcome(e, lookup, handoff).TransportError?)
              || (HandedOff(e, lookup, handoff) && DeleteOutcome(reg, e, remove).TransportError?)
    ensures c.end.Stopped? ==> lookup(e.to).Answered? && !HandedOff(e, lookup, handoff)
  {
    var found := lookup(e.to);
    if !found.Answered? then Cycle([], Crashed(LookupFailed))
    else if found.body.None? then Cycle([], Stopped(LookupUnreadable))
    else
      var url := found.body.value.address + HandoffPath;
      var h := Dial(url, handoff(url, e));
      if h.Unbuildable? then Cycle([], Stopped(HandoffUnbuildable))
      else if h.TransportError? then Cycle([], Crashed(HandoffFailed))
      else if Is5xx(h.status) then Cycle([], Stopped(DestinationUnavailable(h.status)))
      else
        var r := RemovalFor(reg, e);
        match DeleteEmail(r.Url(), remove(r.Url()))
        case NotSent => Cycle([], Completed)
        case Sent => Cycle([r], Completed)
        case Fatal => Cycle([r], Crashed(DeleteFailed))
  }

  /** `xs` is `ys` with some elements left out, the rest kept in order. */
  predicate Subsequence<T(==)>(xs: seq<T>, ys: seq<T>)
    decreases |ys|
  {
    if |xs| == 0 then true
    else if |ys| == 0 then false
    else (xs[0] == ys[0] && Subsequence(xs[1..], ys[1..])) || Subsequence(xs, ys[1..])
  }

  /** The messages of one folder, in order, until one does not complete. */
  function DeliverAll(reg: Registry, emails: seq<EMail>, lookup: Lookup, handoff: Handoff, remove: Remover): (c: Cycle)
    ensures |c.removals| <= |emails|
    ensures Subsequence(c.removals, RemovalsFor(reg, emails))
    ensures forall r :: r in c.removals ==>
              exists e :: e in emails && HandedOff(e, lookup, handoff) && r == RemovalFor(reg, e)
  {
    if |emails| == 0 then Cycle([], Completed)
    else
      var rest := DeliverAll(reg, emails[1..], lookup, handoff, remove);
      var one := DeliverOne(reg, emails[0], lookup, handoff, remove);
      var all := RemovalsFor(reg, emails);
      assert forall e :: e in emails[1..] ==> e in emails;
      assert all[1..] == RemovalsFor(reg, emails[1..]);
      assert Subsequence(one.removals, all) by {
        if one.removals != [] { assert one.removals[1..] == []; }
      }
      assert one.end.Completed? ==> Subsequence(one.removals + rest.removals, all) by {
        if one.removals == [] {
          assert one.removals + rest.removals == rest.removals;
        } else {
          assert (one.removals + rest.removals)[1..] == rest.removals;
        }
      }
      Then(one, rest)
  }

  /** The messages of every readable outbox, in scan order. */
  function Fetched(boxes: seq<Box>): seq<EMail> {
    if |boxes| == 0 then []
    else (if boxes[0].Readable() then boxes[0].outbox.body.value else []) + Fetched(boxes[1..])
  }

  /** MTAScanAndSend: every mailbox in turn. An outbox that cannot be
      fetched, read or decoded is skipped. */
  function ScanBoxes(reg: Registry, boxes: seq<Box>, lookup: Lookup, handoff: Handoff, remove: Remover): (c: Cycle)
    ensures |c.removals| <= |Fetched(boxes)|
    ensures forall r :: r in c.removals ==>
              exists e :: e in Fetched(boxes) && HandedOff(e, lookup, handoff) && r == RemovalFor(reg, e)
  {
    if |boxes| == 0 then Cycle([], Completed)
    else
      var rest := ScanBoxes(reg, boxes[1..], lookup, handoff, remove);
      if boxes[0].Readable() then
        var emails := boxes[0].outbox.body.value;
        assert Fetched(boxes) == emails + Fetched(boxes[1..]);
        Then(DeliverAll(reg, emails, lookup, handoff, remove), rest)
      else
        assert Fetched(boxes) == Fetched(boxes[1..]);
        rest
  }

  lemma ThenAssociative(a: Cycle, b: Cycle, c: Cycle)
    ensures Then(Then(a, b), c) == Then(a, Then(b, c))
  {
    if a.end.Completed? && b.end.Completed? {
      assert a.removals + b.removals + c.removals == a.removals + (b.removals + c.removals);
    }
  }

  /** Delivering a concatenation is delivering the first part, then, if it
      completed, the second. */
  lemma {:induction false} DeliverAllAppend(reg: Registry, a: seq<EMail>, b: seq<EMail>,
                                            lookup: Lookup, handoff: Handoff, remove: Remover)
    ensures DeliverAll(reg, a + b, lookup, handoff, remove)
            == Then(DeliverAll(reg, a, lookup, handoff, remove), DeliverAll(reg, b, lookup, handoff, remove))
  {
    if |a| == 0 {
      assert a + b == b;
      var c := DeliverAll(reg, b, lookup, handoff, remove);
      assert [] + c.removals == c.removals;
    } else {
      assert (a + b)[0] == a[0];
      assert (a + b)[1..] == a[1..] + b;
      DeliverAllAppend(reg, a[1..], b, lookup, handoff, remove);
      ThenAssociative(DeliverOne(reg, a[0], lookup, handoff, remove),
                      DeliverAll(reg, a[1..], lookup, handoff, remove),
                      DeliverAll(reg, b, lookup, handoff, remove));
    }
  }

  /** The cycle is one flat loop over all fetched messages: mailbox
      boundaries play no part, so whatever ends the cycle early in one
      mailbox also skips every later mailbox. */
  lemma {:induction false} ScanIsFlat(reg: Registry, boxes: seq<Box>, lookup: Lookup, handoff: Handoff, remove: Remover)
    ensures ScanBoxes(reg, boxes, lookup, handoff, remove) == DeliverAll(reg, Fetched(boxes), lookup, handoff, remove)
  {
    if |boxes| > 0 {
      ScanIsFlat(reg, boxes[1..], lookup, handoff, remove);
      if !boxes[0].Readable() {
        assert Fetched(boxes) == Fetched(boxes[1..]);
      } else {
        assert Fetched(boxes) == boxes[0].outbox.body.value + Fetched(boxes[1..]);
        DeliverAllAppend(reg, boxes[0].outbox.body.value, Fetched(boxes[1..]), lookup, handoff, remove);
      }
    }
  }

  lemma {:induction false} FetchedAppend(a: seq<Box>, b: seq<Box>)
    ensures Fetched(a + b) == Fetched(a) + Fetched(b)
  {
    if |a| == 0 {
      assert a + b == b;
    } else {
      assert (a + b)[0] == a[0];
      assert (a + b)[1..] == a[1..] + b;
      FetchedAppend(a[1..], b);
    }
  }

  /** The messages fetched from mailboxes around one readable mailbox. */
  lemma FetchedAround(before: seq<Box>, b: Box, after: seq<Box>)
    requires b.Readable()
    ensures Fetched(before + [b] + after) == Fetched(before) + (b.outbox.body.value + Fetched(after))
  {
    FetchedAppend(before + [b], after);
    FetchedAppend(before, [b]);
    assert Fetched([b]) == b.outbox.body.value;
  }

  lemma Regroup<T>(front: seq<T>, pre: seq<T>, x: T, more: seq<T>, back: seq<T>)
    ensures front + ((pre + [x] + more) + back) == (front + pre) + ([x] + (more + back))
  {
  }

  /** Scanning mailboxes around one readable mailbox runs over its messages
      between those fetched before and after it. */
  lemma ScanAroundBox(reg: Registry, before: seq<Box>, b: Box, after: seq<Box>,
                      lookup: Lookup, handoff: Handoff, remove: Remover)
    requires b.Readable()
    ensures ScanBoxes(reg, before + [b] + after, lookup, handoff, remove)
            == DeliverAll(reg, Fetched(before) + (b.outbox.body.value + Fetched(after)), lookup, handoff, remove)
  {
    FetchedAround(before, b, after);
    ScanIsFlat(reg, before + [b] + after, lookup, handoff, remove);
  }

  /** In a flat run, a message that does not complete ends it. */
  lemma StopInFlatRun(reg: Registry, prefix: seq<EMail>, e: EMail, tail: seq<EMail>,
                      lookup: Lookup, handoff: Handoff, remove: Remover)
    requires DeliverAll(reg, prefix, lookup, handoff, remove).end.Completed?
    requires !DeliverOne(reg, e, lookup, handoff, remove).end.Completed?
    ensures var one := DeliverOne(reg, e, lookup, handoff, remove);
            DeliverAll(reg, prefix + ([e] + tail), lookup, handoff, remove)
            == Cycle(DeliverAll(reg, prefix, lookup, handoff, remove).removals + one.removals, one.end)
  {
    DeliverAllAppend(reg, prefix, [e] + tail, lookup, handoff, remove);
    assert ([e] + tail)[0] == e && ([e] + tail)[1..] == tail;
  }

  /** The first message that does not complete ends the cycle, wherever it
      sits in its mailbox. What comes after it, in the same mailbox or in
      later ones, is never looked at. */
  lemma StopEndsWholeCycle(reg: Registry, before: seq<Box>, owner: Server, code: int,
                           pre: seq<EMail>, e: EMail, more: seq<EMail>,
                           after: seq<Box>, lookup: Lookup, handoff: Handoff, remove: Remover)
    requires ScanBoxes(reg, before, lookup, handoff, remove).end.Completed?
    requires DeliverAll(reg, pre, lookup, handoff, remove).end.Completed?
    requires !DeliverOne(reg, e, lookup, handoff, remove).end.Completed?
    ensures var boxes := before + [Box(owner, Answered(code, Some(pre + [e] + more)))] + after;
            var one := DeliverOne(reg, e, lookup, handoff, remove);
            ScanBoxes(reg, boxes, lookup, handoff, remove)
            == Cycle(ScanBoxes(reg, before, lookup, handoff, remove).removals
                     + DeliverAll(reg, pre, lookup, handoff, remove).removals + one.removals, one.end)
  {
    var b := Box(owner, Answered(code, Some(pre + [e] + more)));
    var tail := more + Fetched(after);
    var fb := Fetched(before);
    assert ScanBoxes(reg, before + [b] + after, lookup, handoff, remove)
           == DeliverAll(reg, (fb + pre) + ([e] + tail), lookup, handoff, remove) by {
      ScanAroundBox(reg, before, b, after, lookup, handoff, remove);
      Regroup(fb, pre, e, more, Fetched(after));
    }
    assert ScanBoxes(reg, before, lookup, handoff, remove) == DeliverAll(reg, fb, lookup, handoff, remove) by {
      ScanIsFlat(reg, before, lookup, handoff, remove);
    }
    var d1 := DeliverAll(reg, fb, lookup, handoff, remove);
    var d2 := DeliverAll(reg, pre, lookup, handoff, remove);
    assert DeliverAll(reg, fb + pre, lookup, handoff, remove) == Cycle(d1.removals + d2.removals, d2.end) by {
      DeliverAllAppend(reg, fb, pre, lookup, handoff, remove);
    }
    StopInFlatRun(reg, fb + pre, e, tail, lookup, handoff, remove);
  }

  /** An outbox that cannot be fetched is passed over. */
  lemma UnreadableOutboxSkipped(reg: Registry, b: Box, rest: seq<Box>, lookup: Lookup, handoff: Handoff, remove: Remover)
    requires !b.Readable()
    ensures ScanBoxes(reg, [b] + rest, lookup, handoff, remove) == ScanBoxes(reg, rest, lookup, handoff, remove)
  {
    assert ([b] + rest)[1..] == rest;
  }

  /** A recipient the directory does not resolve, whatever the status (no 404
      body decodes), stops the cycle and deletes nothing for it. */
  lemma UnresolvedRecipientStops(reg: Registry, e: EMail, code: int, lookup: Lookup, handoff: Handoff, remove: Remover)
    requires lookup(e.to) == Answered(code, None)
    ensures DeliverOne(reg, e, lookup, handoff, remove) == Cycle([], Stopped(LookupUnreadable))
  {
  }

  /** A lookup that fails in transport crashes the process. */
  lemma LookupFailureCrashes(reg: Registry, e: EMail, lookup: Lookup, handoff: Handoff, remove: Remover)
    requires !lookup(e.to).Answered?
    ensures DeliverOne(reg, e, lookup, handoff, remove) == Cycle([], Crashed(LookupFailed))
  {
  }

  /** The lookup's status is never inspected: two answers with the same body
      lead to the same outcome, whatever their status codes. */
  lemma LookupStatusIgnored(reg: Registry, e: EMail, code1: int, code2: int, body: Option<Server>,
                            lookup1: Lookup, lookup2: Lookup, handoff: Handoff, remove: Remover)
    requires lookup1(e.to) == Answered(code1, body) && lookup2(e.to) == Answered(code2, body)
    ensures DeliverOne(reg, e, lookup1, handoff, remove) == DeliverOne(reg, e, lookup2, handoff, remove)
  {
  }

  /** A 5xx handoff answer stops the cycle and deletes nothing for the
      message; a destination address with no scheme never gets to answer,
      and the process crashes instead. */
  lemma UnavailableDestinationStops(reg: Registry, e: EMail, dest: Server, code: int, lookup: Lookup, handoff: Handoff, remove: Remover)
    requires Resolved(e, lookup) && lookup(e.to).body.value == dest
    requires handoff(dest.address + HandoffPath, e) == Answered(code, None) && Is5xx(code)
    ensures DeliverOne(reg, e, lookup, handoff, remove)
            == if Schemeless(dest.address + HandoffPath) then Cycle([], Crashed(HandoffFailed))
               else Cycle([], Stopped(DestinationUnavailable(code)))
  {
  }

  /** Any other answer, 2xx or 4xx alike, deletes the message from its
      sender's Outbox and goes on; the delete's own answer is ignored, but a
      delete URL with no scheme fails and kills the process. */
  lemma AcceptedOrRejectedDeletes(reg: Registry, e: EMail, dest: Server, code: int, reply: int,
                                  lookup: Lookup, handoff: Handoff, remove: Remover)
    requires Resolved(e, lookup) && lookup(e.to).body.value == dest
    requires handoff(dest.address + HandoffPath, e) == Answered(code, None) && !Is5xx(code)
    requires !Schemeless(dest.address + HandoffPath)
    requires remove(DeleteUrl(AddressOf(reg, e.from), e.uuid)) == Answered(reply, None)
    ensures DeliverOne(reg, e, lookup, handoff, remove)
            == if Schemeless(DeleteUrl(AddressOf(reg, e.from), e.uuid)) then Cycle([RemovalFor(reg, e)], Crashed(DeleteFailed))
               else Cycle([RemovalFor(reg, e)], Completed)
  {
  }

  /** A handoff that fails in transport, or whose URL has no scheme, crashes
      the process and deletes nothing. */
  lemma UnreachableDestinationCrashes(reg: Registry, e: EMail, lookup: Lookup, handoff: Handoff, remove: Remover)
    requires Resolved(e, lookup)
    requires var url := HandoffUrl(e, lookup);
             handoff(url, e).TransportError? || (handoff(url, e).Answered? && Schemeless(url))
    ensures DeliverOne(reg, e, lookup, handoff, remove) == Cycle([], Crashed(HandoffFailed))
  {
  }

  /** A handoff request that cannot be built returns from the cycle. */
  lemma UnbuildableHandoffStops(reg: Registry, e: EMail, lookup: Lookup, handoff: Handoff, remove: Remover)
    requires Resolved(e, lookup) && handoff(HandoffUrl(e, lookup), e).Unbuildable?
    ensures DeliverOne(reg, e, lookup, handoff, remove) == Cycle([], Stopped(HandoffUnbuildable))
  {
  }

  /** A message from a sender no mailbox agent registered for: once the
      destination takes it, the delete goes to a URL with no scheme and the
      process dies, unless the request could not even be built. */
  lemma UnregisteredSenderCrashes(reg: Registry, e: EMail, lookup: Lookup, handoff: Handoff, remove: Remover)
    requires HandedOff(e, lookup, handoff) && e.from !in reg
    ensures DeliverOne(reg, e, lookup, handoff, remove)
            == if remove(DeletePath + e.uuid).Unbuildable? then Cycle([], Completed)
               else Cycle([RemovalFor(reg, e)], Crashed(DeleteFailed))
  {
    UnregisteredSenderDeleteFails(reg, e.from, e.uuid, remove(DeletePath + e.uuid));
  }

  /** Delete answers never change the cycle's course: with two delete
      oracles that both always answer, the cycles are identical. */
  lemma {:induction false} DeleteAnswersIgnored(reg: Registry, emails: seq<EMail>, lookup: Lookup, handoff: Handoff,
                                                remove1: Remover, remove2: Remover)
    requires forall url :: remove1(url).Answered? && remove2(url).Answered?
    ensures DeliverAll(reg, emails, lookup, handoff, remove1) == DeliverAll(reg, emails, lookup, handoff, remove2)
  {
    if |emails| > 0 {
      DeleteAnswersIgnored(reg, emails[1..], lookup, handoff, remove1, remove2);
      assert DeliverOne(reg, emails[0], lookup, handoff, remove1) == DeliverOne(reg, emails[0], lookup, handoff, remove2);
    }
  }

  /** The deletes a fully successful folder produces: one per message, in
      order. */
  function RemovalsFor(reg: Registry, emails: seq<EMail>): (rs: seq<Removal>)
    ensures |rs| == |emails|
    ensures forall i :: 0 <= i < |emails| ==> rs[i] == RemovalFor(reg, emails[i])
  {
    if |emails| == 0 then [] else [RemovalFor(reg, emails[0])] + RemovalsFor(reg, emails[1..])
  }

  /** When every message is handed off and every delete is answered, the
      cycle completes and deletes every message, in order. */
  lemma {:induction false} AllDelivered(reg: Registry, emails: seq<EMail>, lookup: Lookup, handoff: Handoff, remove: Remover)
    requires forall e :: e in emails ==> HandedOff(e, lookup, handoff) && DeleteOutcome(reg, e, remove).Answered?
    ensures DeliverAll(reg, emails, lookup, handoff, remove) == Cycle(RemovalsFor(reg, emails), Completed)
  {
    if |emails| > 0 {
      assert emails[0] in emails;
      assert forall e :: e in emails[1..] ==> e in emails;
      AllDelivered(reg, emails[1..], lookup, handoff, remove);
    }
  }

  /** The deletes of a cycle are those of the fully successful cycle over
      the fetched messages, some left out, the rest in scan order. */
  lemma ScanDeletesInOrder(reg: Registry, boxes: seq<Box>, lookup: Lookup, handoff: Handoff, remove: Remover)
    ensures Subsequence(ScanBoxes(reg, boxes, lookup, handoff, remove).removals, RemovalsFor(reg, Fetched(boxes)))
  {
    ScanIsFlat(reg, boxes, lookup, handoff, remove);
  }

  /** A cycle where no destination takes any message deletes nothing,
      whether the destinations were unreachable or the directory could not
      resolve them. */
  lemma NothingTakenNothingDeleted(reg: Registry, boxes: seq<Box>, lookup: Lookup, handoff: Handoff, remove: Remover)
    requires forall e :: e in Fetched(boxes) ==> !HandedOff(e, lookup, handoff)
    ensures ScanBoxes(reg, boxes, lookup, handoff, remove).removals == []
  {
  }

  /** One tick's inputs: the registry as the cycle sees it, the mailboxes in
      the order the map is walked, and the answers of the other agents. */
  datatype Tick = Tick(registry: Registry, boxes: seq<Box>, lookup: Lookup, handoff: Handoff, remove: Remover)

  function RunCycle(t: Tick): Cycle {
    ScanBoxes(t.registry, t.boxes, t.lookup, t.handoff, t.remove)
  }

  /** The main loop: cycles run one after another, each to its end before the
      next starts, and a Stopped cycle is followed by the next tick's cycle.
      Only a crash ends the loop, because it ends the process. */
  function MainLoop(ticks: seq<Tick>): (cycles: seq<Cycle>)
    ensures |cycles| <= |ticks|
    ensures forall i :: 0 <= i < |cycles| ==> cycles[i] == RunCycle(ticks[i])
    ensures forall i :: 0 <= i < |cycles| - 1 ==> !cycles[i].end.Crashed?
    ensures |cycles| < |ticks| ==> |cycles| > 0 && cycles[|cycles| - 1].end.Crashed?
  {
    if |ticks| == 0 then []
    else
      var c := RunCycle(ticks[0]);
      if c.end.Crashed? then [c]
      else
        var rest := MainLoop(ticks[1..]);
        assert forall i :: 1 <= i < |ticks| ==> ticks[i] == ticks[1..][i - 1];
        [c] + rest
  }
}
