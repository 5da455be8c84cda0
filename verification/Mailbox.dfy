/**
 The one-slot extraction mailbox between the message loop and the extraction
 worker.  Each method runs under the mailbox lock, so each is one step.
 */
module Mailbox {
  import opened Common
  import opened Normalize

  datatype Request = Request(attempt: nat, trigger: Trigger)

  /** `active` names the attempt whose token the mailbox still holds. */
  datatype State = State(pending: Option<Request>, active: Option<nat>, shuttingDown: bool)

  const EMPTY := State(None, None, false)

  function Submitted(s: State, request: Request): State {
    if s.shuttingDown then s else s.(pending := Some(request))
  }

  /** The attempts whose tokens an operation sets. */
  function Held(s: State): set<nat> {
    if s.active.Some? then {s.active.value} else {}
  }

  function Taken(s: State): State
    requires s.pending.Some? && !s.shuttingDown
  {
    s.(pending := None, active := Some(s.pending.value.attempt))
  }

  function Completed(s: State, attempt: nat): State {
    if s.active == Some(attempt) then s.(active := None) else s
  }

  function Cleared(s: State): State { s.(pending := None, active := None) }

  class CancellationToken {
    var cancelled: bool

    constructor ()
      ensures !cancelled
    {
      cancelled := false;
    }

    method Cancel()
      modifies this
      ensures cancelled
    {
      cancelled := true;
    }
  }

  datatype Job = Job(request: Request, token: CancellationToken)

  class ExtractionMailbox {
    var pending: Option<Job>
    var active: Option<(nat, CancellationToken)>
    var shuttingDown: bool

    ghost function View(): State
      reads this
    {
      State(if pending.Some? then Some(pending.value.request) else None,
            if active.Some? then Some(active.value.0) else None,
            shuttingDown)
    }

    ghost function HeldToken(): set<CancellationToken>
      reads this
    {
      if active.Some? then {active.value.1} else {}
    }

    constructor ()
      ensures View() == EMPTY
    {
      pending, active, shuttingDown := None, None, false;
    }

    /** A newer request replaces the waiting one and cancels the running one. */
    method Submit(job: Job) returns (accepted: bool)
      modifies this, HeldToken()
      ensures accepted == !old(shuttingDown)
      ensures View() == Submitted(old(View()), job.request)
      ensures accepted ==> pending == Some(job)
      ensures active == old(active)
      ensures forall token :: token in old(HeldToken()) ==> token.cancelled == (accepted || old(token.cancelled))
    {
      if shuttingDown {
        return false;
      }
      if active.Some? {
        active.value.1.Cancel();
      }
      pending := Some(job);
      return true;
    }

    /** One turn of the worker's wait loop: `None` while there is nothing to do. */
    method Next() returns (job: Option<Job>)
      modifies this
      ensures old(shuttingDown) ==> job == None && View() == old(View()).(pending := None)
      ensures !old(shuttingDown) ==> job == old(pending)
      ensures job.None? ==> active == old(active)
      ensures job.Some? ==> View() == Taken(old(View())) && HeldToken() == {job.value.token}
      ensures !old(shuttingDown) && job.None? ==> View() == old(View())
    {
      if shuttingDown {
        pending := None;
        return None;
      }
      job := pending;
      if job.Some? {
        pending := None;
        active := Some((job.value.request.attempt, job.value.token));
      }
    }

    method Complete(attempt: nat)
      modifies this
      ensures View() == Completed(old(View()), attempt) && pending == old(pending)
    {
      if active.Some? && active.value.0 == attempt {
        active := None;
      }
    }

    method Cancel()
      modifies this, HeldToken()
      ensures View() == Cleared(old(View()))
      ensures forall token :: token in old(HeldToken()) ==> token.cancelled
    {
      pending := None;
      if active.Some? {
        var token := active.value.1;
        active := None;
        token.Cancel();
      }
    }

    method Shutdown()
      modifies this, HeldToken()
      ensures View() == Cleared(old(View())).(shuttingDown := true)
      ensures forall token :: token in old(HeldToken()) ==> token.cancelled
    {
      shuttingDown := true;
      pending := None;
      if active.Some? {
        var token := active.value.1;
        active := None;
        token.Cancel();
      }
    }
  }
}
