/** The mailbox agent's registration with its transfer agent. It asks the
    directory which transfer agent serves its own name, then posts its own
    record to that agent, and retries the whole attempt after a fixed delay
    until one gets through. The endless loop becomes a function over a finite
    sequence of attempts: it reports the first attempt that ends the loop,
    or that none has yet. */
module MsaRegistration {
  import opened Common
  import opened Http

  /** Seconds slept after every failed attempt. */
  const RetryDelaySeconds := 2

  /** Path, under the transfer agent's address, of its registration endpoint. */
  const MtaRegisterPath := "email/server/register"

  /** The directory lookup of the agent's own name. */
  function LookupUrl(self: Server): string {
    DirectoryUrl + self.name
  }

  /** Where the agent posts its own record once the directory has answered. */
  function RegisterUrl(mta: Server): string {
    mta.address + MtaRegisterPath
  }

  /** One pass through the loop: the directory's answer to the lookup, and
      what a transfer agent would answer the registration post at a given URL
      (only consulted when the lookup went through). */
  datatype Attempt = Attempt(lookup: Call<Server>, post: string -> Call<()>)

  datatype Verdict = Retry | Done(mta: Server)

  /** The loop body, branch for branch. The post goes to the transfer agent
      the directory named; the last guard tests the directory's status again,
      not the transfer agent's. */
  function Decide(a: Attempt): Verdict {
    if !a.lookup.Answered? then Retry
    else if a.lookup.status > 299 then Retry
    else if a.lookup.body.None? then Retry
    else
      var url := RegisterUrl(a.lookup.body.value);
      if !Dial(url, a.post(url)).Answered? then Retry
      else if a.lookup.status > 299 then Retry
      else Done(a.lookup.body.value)
  }

  /** When an attempt ends the loop: the lookup went through with a status of
      at most 299 and a body that read and decoded, and the transfer agent it
      named, reached at a URL with a scheme, gave any answer at all. */
  predicate Succeeds(a: Attempt) {
    && a.lookup.Answered? && a.lookup.status <= 299 && a.lookup.body.Some?
    && var url := RegisterUrl(a.lookup.body.value);
       a.post(url).Answered? && !Schemeless(url)
  }

  /** The loop's decision is exactly `Succeeds`, and the transfer agent found
      is the one the directory named and the one that answered the post. */
  lemma DecideIffSucceeds(a: Attempt)
    ensures Decide(a).Done? <==> Succeeds(a)
    ensures Decide(a).Done? ==> Decide(a).mta == a.lookup.body.value
    ensures Decide(a).Done? ==> a.post(RegisterUrl(Decide(a).mta)).Answered?
  {
  }

  /** The transfer agent's status is never looked at: a 4xx or 5xx answer to
      the post still registers, provided the address the directory gave has
      a scheme. */
  lemma RegistrationStatusIgnored(lookup: Call<Server>, code: int, other: int)
    requires lookup.Answered? && lookup.status <= 299 && lookup.body.Some?
    ensures Decide(Attempt(lookup, (_: string) => Answered(code, None)))
            == if Schemeless(RegisterUrl(lookup.body.value)) then Retry else Done(lookup.body.value)
    ensures Decide(Attempt(lookup, (_: string) => Answered(code, None)))
            == Decide(Attempt(lookup, (_: string) => Answered(other, None)))
  {
  }

  /** Where the loop stands after a finite run: registered at attempt
      `attempt` with transfer agent `mta`, or still retrying. `waited` is the
      total time slept. */
  datatype Registration = Registered(attempt: nat, mta: Server, waited: nat) | Pending(waited: nat)

  function Register(attempts: seq<Attempt>): (r: Registration)
    ensures r.Registered? ==>
              && r.attempt < |attempts|
              && Succeeds(attempts[r.attempt])
              && r.mta == attempts[r.attempt].lookup.body.value
              && (forall j :: 0 <= j < r.attempt ==> !Succeeds(attempts[j]))
              && r.waited == RetryDelaySeconds * r.attempt
    ensures r.Pending? ==>
              && (forall j :: 0 <= j < |attempts| ==> !Succeeds(attempts[j]))
              && r.waited == RetryDelaySeconds * |attempts|
  {
    if |attempts| == 0 then Pending(0)
    else
      DecideIffSucceeds(attempts[0]);
      match Decide(attempts[0])
      case Done(mta) => Registered(0, mta, 0)
      case Retry =>
        assert forall j :: 1 <= j < |attempts| ==> attempts[j] == attempts[1..][j - 1];
        match Register(attempts[1..])
        case Registered(i, mta, w) => Registered(i + 1, mta, w + RetryDelaySeconds)
        case Pending(w) => Pending(w + RetryDelaySeconds)
  }

  /** More attempts never undo a registration: the loop has stopped. */
  lemma {:induction false} RegisteredIsFinal(attempts: seq<Attempt>, more: seq<Attempt>)
    requires Register(attempts).Registered?
    ensures Register(attempts + more) == Register(attempts)
  {
    if Decide(attempts[0]).Retry? {
      assert (attempts + more)[1..] == attempts[1..] + more;
      RegisteredIsFinal(attempts[1..], more);
    }
  }
}
