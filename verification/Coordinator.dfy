/**
 Local trigger coordination: monotonic job ids, one active job, priorities and
 suppression of automatic duplicates.  Instants are natural numbers of
 milliseconds; a difference of instants saturates at zero.
 */
module Coordinator {
  import opened Common
  import opened Normalize

  const U64_LIMIT := 0x1_0000_0000_0000_0000
  type U64 = x: nat | x < U64_LIMIT
  const AUTOMATIC_DUPLICATE_TTL := 10 * 60 * 1000

  datatype Rejection = DuplicateAutomatic | LowerPriorityActive
  datatype Completion = Accepted | Stale | Cancelled
  datatype Fingerprint = Fingerprint(processId: nat, target: string, context: Option<string>,
                                     screenRect: Option<ScreenRect>)
  datatype Recent = Recent(fingerprint: Fingerprint, completedAt: nat)
  datatype JobInput = JobInput(id: nat, trigger: Trigger, text: TextContext, promptId: string)

  /** A request to start, as every caller phrases it. */
  datatype Candidate = Candidate(trigger: Trigger, processId: nat, text: TextContext, promptId: string,
                                 now: nat, suppressDuplicates: bool)

  function Priority(trigger: Trigger): nat {
    match trigger
    case Hover => 0
    case Selection => 1
    case Manual => 2
  }

  function FingerprintOf(processId: nat, text: TextContext): Fingerprint {
    Fingerprint(processId, NormalizeText(text.target), NormalizeOptional(text.context), text.screenRect)
  }

  function NextId(id: U64): (next: U64)
    ensures 1 <= next
  {
    var wrapped := (id + 1) % U64_LIMIT;
    if wrapped < 1 then 1 else wrapped
  }

  // -------------------------------------------------- the state as a value

  datatype Core = Core(nextId: U64, active: Option<JobInput>, recent: Option<Recent>)

  const FRESH := Core(1, None, None)

  predicate IsDuplicate(recent: Option<Recent>, fingerprint: Fingerprint, now: nat) {
    && recent.Some?
    && now <= recent.value.completedAt + AUTOMATIC_DUPLICATE_TTL
    && fingerprint.target != ""
    && recent.value.fingerprint == fingerprint
  }

  /** `flag` is the cancellation flag of the active job. */
  function CanStart(c: Core, flag: bool, job: Candidate): Result<(), Rejection> {
    if job.suppressDuplicates && job.trigger != Manual
       && IsDuplicate(c.recent, FingerprintOf(job.processId, job.text), job.now)
    then Err(DuplicateAutomatic)
    else if c.active.Some? && Priority(job.trigger) < Priority(c.active.value.trigger) && !flag
    then Err(LowerPriorityActive)
    else Ok(())
  }

  function Started(c: Core, job: Candidate): Core {
    Core(NextId(c.nextId), Some(JobInput(c.nextId, job.trigger, job.text, job.promptId)), c.recent)
  }

  /** The outcome of reporting on job `id`, whichever call reports it. */
  function Verdict(c: Core, flag: bool, id: nat): Completion {
    if c.active.None? || c.active.value.id != id then Stale
    else if flag then Cancelled
    else Accepted
  }

  function Completed(c: Core, flag: bool, id: nat, processId: nat, text: TextContext, now: nat): Core {
    if Verdict(c, flag, id) != Accepted then c
    else
      var fingerprint := FingerprintOf(processId, text);
      var recent :=
        if c.active.value.trigger != Manual && fingerprint.target != "" then Some(Recent(fingerprint, now))
        else c.recent;
      c.(active := None, recent := recent)
  }

  function Finished(c: Core, id: nat): Core {
    if c.active.Some? && c.active.value.id == id then c.(active := None) else c
  }

  // ------------------------------------------------------ the source's form

  /** A flag shared by everybody who holds the job; it is only ever set. */
  class JobCancellation {
    var cancelled: bool

    constructor ()
      ensures !cancelled
    {
      cancelled := false;
    }

    method Cancel()
      modifies this
      ensures cancelled
    {
      cancelled := true;
    }
  }

  datatype JobHandle = JobHandle(input: JobInput, cancellation: JobCancellation, priority: nat)

  class Coordinator {
    var nextId: U64
    var active: Option<JobHandle>
    var recentAutomatic: Option<Recent>

    ghost function View(): Core
      reads this
    {
      Core(nextId, if active.Some? then Some(active.value.input) else None, recentAutomatic)
    }

    ghost function Flag(): bool
      reads this, if active.Some? then {active.value.cancellation} else {}
    {
      active.Some? && active.value.cancellation.cancelled
    }

    ghost predicate Valid()
      reads this
    {
      active.Some? ==> active.value.priority == Priority(active.value.input.trigger)
    }

    constructor ()
      ensures Valid() && View() == FRESH
    {
      nextId, active, recentAutomatic := 1, None, None;
    }

    method TryStart(job: Candidate) returns (r: Result<(), Rejection>)
      requires Valid()
      ensures r == CanStart(View(), Flag(), job)
    {
      var fingerprint := FingerprintOf(job.processId, job.text);
      var automatic := job.trigger != Manual;
      if job.suppressDuplicates && automatic {
        var duplicate := Duplicate(fingerprint, job.now);
        if duplicate {
          return Err(DuplicateAutomatic);
        }
      }
      var priority := Priority(job.trigger);
      if active.Some? && priority < active.value.priority && !active.value.cancellation.cancelled {
        return Err(LowerPriorityActive);
      }
      return Ok(());
    }

    method Duplicate(fingerprint: Fingerprint, now: nat) returns (r: bool)
      ensures r == IsDuplicate(recentAutomatic, fingerprint, now)
    {
      if recentAutomatic.None? {
        return false;
      }
      var recent := recentAutomatic.value;
      var age := if now < recent.completedAt then 0 else now - recent.completedAt;
      if age > AUTOMATIC_DUPLICATE_TTL {
        return false;
      }
      return fingerprint.target != "" && recent.fingerprint == fingerprint;
    }

    method Start(job: Candidate) returns (r: Result<JobHandle, Rejection>)
      requires Valid()
      modifies this, if active.Some? then {active.value.cancellation} else {}
      ensures Valid()
      ensures old(CanStart(View(), Flag(), job)).Err? ==>
                && r == Err(old(CanStart(View(), Flag(), job)).error)
                && View() == old(View()) && active == old(active) && Flag() == old(Flag())
      ensures old(CanStart(View(), Flag(), job)).Ok? ==>
                && View() == Started(old(View()), job)
                && r == Ok(active.value) && fresh(active.value.cancellation) && !Flag()
                && (old(active).Some? ==> old(active).value.cancellation.cancelled)
    {
      var check := TryStart(job);
      if check.Err? {
        return Err(check.error);
      }
      if active.Some? {
        active.value.cancellation.Cancel();
      }
      var id := nextId;
      nextId := NextId(nextId);
      var cancellation := new JobCancellation();
      var handle := JobHandle(JobInput(id, job.trigger, job.text, job.promptId), cancellation, Priority(job.trigger));
      active := Some(handle);
      return Ok(handle);
    }

    method Complete(id: nat, processId: nat, text: TextContext, now: nat) returns (r: Completion)
      requires Valid()
      modifies this
      ensures Valid()
      ensures r == Verdict(old(View()), old(Flag()), id)
      ensures View() == Completed(old(View()), old(Flag()), id, processId, text, now)
      ensures r != Accepted ==> active == old(active)
    {
      if active.None? || active.value.input.id != id {
        return Stale;
      }
      if active.value.cancellation.cancelled {
        return Cancelled;
      }
      if active.value.input.trigger != Manual {
        var fingerprint := FingerprintOf(processId, text);
        if fingerprint.target != "" {
          recentAutomatic := Some(Recent(fingerprint, now));
        }
      }
      active := None;
      return Accepted;
    }

    method Finish(id: nat) returns (r: Completion)
      requires Valid()
      modifies this
      ensures Valid()
      ensures r == Verdict(old(View()), old(Flag()), id)
      ensures View() == Finished(old(View()), id)
      ensures r == Stale ==> active == old(active)
    {
      if active.None? || active.value.input.id != id {
        return Stale;
      }
      var wasCancelled := active.value.cancellation.cancelled;
      active := None;
      return if wasCancelled then Cancelled else Accepted;
    }

    method CancelActive() returns (id: Option<nat>)
      requires Valid()
      modifies this, if active.Some? then {active.value.cancellation} else {}
      ensures Valid()
      ensures View() == old(View()).(active := None)
      ensures id == if old(active).Some? then Some(old(active).value.input.id) else None
      ensures old(active).Some? ==> old(active).value.cancellation.cancelled
    {
      if active.None? {
        return None;
      }
      id := Some(active.value.input.id);
      active.value.cancellation.Cancel();
      active := None;
    }

    method IsCurrent(id: nat) returns (r: bool)
      ensures r == (Verdict(View(), Flag(), id) == Accepted)
    {
      return active.Some? && active.value.input.id == id && !active.value.cancellation.cancelled;
    }
  }

  // ------------------------------------------------------------------ runs

  datatype Call =
    | Start(job: Candidate)
    | Complete(id: nat, processId: nat, text: TextContext, now: nat)
    | Finish(id: nat)
    | CancelActive
    | ExternalCancel(id: nat)

  /** The coordinator, every job's flag, and what the callers saw. */
  datatype System = System(core: Core, cancelled: set<nat>, issued: seq<nat>, accepted: seq<nat>,
                           automatic: seq<Recent>)

  const INITIAL := System(FRESH, {}, [], [], [])

  predicate ActiveFlag(s: System) { s.core.active.Some? && s.core.active.value.id in s.cancelled }

  function Step(s: System, call: Call): System {
    var core := s.core;
    var flag := ActiveFlag(s);
    match call
    case Start(job) =>
      if CanStart(core, flag, job).Err? then s
      else s.(core := Started(core, job),
              cancelled := (s.cancelled + (if core.active.Some? then {core.active.value.id} else {})) - {core.nextId},
              issued := s.issued + [core.nextId])
    case Complete(id, processId, text, now) =>
      var after := Completed(core, flag, id, processId, text, now);
      if Verdict(core, flag, id) != Accepted then s
      else s.(core := after, accepted := s.accepted + [id],
              automatic := if core.active.value.trigger != Manual && NormalizeText(text.target) != ""
                           then s.automatic + [Recent(FingerprintOf(processId, text), now)] else s.automatic)
    case Finish(id) =>
      s.(core := Finished(core, id),
         accepted := if Verdict(core, flag, id) == Accepted then s.accepted + [id] else s.accepted)
    case CancelActive =>
      s.(core := core.(active := None),
         cancelled := s.cancelled + (if core.active.Some? then {core.active.value.id} else {}))
    case ExternalCancel(id) =>
      s.(cancelled := s.cancelled + {id})
  }

  function Run(calls: seq<Call>): System {
    if calls == [] then INITIAL else Step(Run(calls[..|calls| - 1]), calls[|calls| - 1])
  }

  ghost predicate Increasing(ids: seq<nat>) {
    forall i, j :: 0 <= i < j < |ids| ==> ids[i] < ids[j]
  }

  ghost predicate Valid(s: System) {
    && s.core.nextId == |s.issued| + 1
    && (forall i :: 0 <= i < |s.issued| ==> s.issued[i] == i + 1)
    // only the newest id can be active, so no older id can still be accepted
    && (s.core.active.Some? ==> s.core.active.value.id == |s.issued| >= 1)
    && Increasing(s.accepted)
    && (forall id :: id in s.accepted ==> 1 <= id <= |s.issued| && (s.core.active.Some? ==> id < s.core.active.value.id))
    && (forall id :: 1 <= id <= |s.issued| && !(s.core.active.Some? && s.core.active.value.id == id)
          ==> id in s.cancelled || id in s.accepted)
    && s.core.recent == (if s.automatic == [] then None else Some(s.automatic[|s.automatic| - 1]))
  }

  lemma IncreasingSnoc(ids: seq<nat>, id: nat)
    requires Increasing(ids) && forall k :: k in ids ==> k < id
    ensures Increasing(ids + [id])
    ensures forall k :: k in ids + [id] <==> k in ids || k == id
  {
    forall i, j | 0 <= i < j < |ids + [id]| ensures (ids + [id])[i] < (ids + [id])[j] {
      assert ids[i] in ids;
    }
  }

  lemma StepKeepsValid(s: System, call: Call)
    requires Valid(s)
    requires |Step(s, call).issued| < U64_LIMIT - 1
    ensures Valid(Step(s, call))
  {
    if (call.Complete? || call.Finish?) && Verdict(s.core, ActiveFlag(s), call.id) == Accepted {
      IncreasingSnoc(s.accepted, call.id);
    }
  }

  lemma {:induction false} IssuedGrows(calls: seq<Call>, n: nat)
    requires n <= |calls|
    ensures |Run(calls[..n]).issued| <= |Run(calls).issued|
    decreases |calls|
  {
    if n == |calls| {
      assert calls[..n] == calls;
    } else {
      assert calls[..|calls| - 1][..n] == calls[..n];
      IssuedGrows(calls[..|calls| - 1], n);
    }
  }

  /** Under arbitrary calls and external cancellations, as long as ids have not
      wrapped: every issued job other than the active one was cancelled or
      accepted, and accepted ids strictly increase (so exactly once, never an
      older one). */
  lemma {:induction false} RunValid(calls: seq<Call>)
    requires |Run(calls).issued| < U64_LIMIT - 1
    ensures Valid(Run(calls))
    decreases |calls|
  {
    if calls != [] {
      var before := calls[..|calls| - 1];
      IssuedGrows(calls, |calls| - 1);
      RunValid(before);
      StepKeepsValid(Run(before), calls[|calls| - 1]);
    }
  }

  /** An acceptance, in any run, is of the newest id issued and happens once. */
  lemma AcceptsOnlyNewest(calls: seq<Call>, call: Call)
    requires |Run(calls).issued| < U64_LIMIT - 1
    requires call.Complete? || call.Finish?
    ensures var s := Run(calls);
            Verdict(s.core, ActiveFlag(s), call.id) == Accepted ==>
              call.id == |s.issued| && call.id !in s.accepted && call.id !in s.cancelled
  {
    RunValid(calls);
  }

  /** Automatic duplicates are refused exactly when they repeat the last accepted
      automatic completion within its lifetime. */
  lemma DuplicatesRefused(calls: seq<Call>, job: Candidate)
    requires |Run(calls).issued| < U64_LIMIT - 1
    ensures var s := Run(calls);
            var wanted := FingerprintOf(job.processId, job.text);
            CanStart(s.core, ActiveFlag(s), job) == Err(DuplicateAutomatic)
            <==> && job.suppressDuplicates && job.trigger != Manual && wanted.target != ""
                 && s.automatic != []
                 && s.automatic[|s.automatic| - 1].fingerprint == wanted
                 && job.now - s.automatic[|s.automatic| - 1].completedAt <= AUTOMATIC_DUPLICATE_TTL
  {
    RunValid(calls);
  }

  predicate OnlyCancels(calls: seq<Call>) {
    forall i :: 0 <= i < |calls| ==> calls[i].CancelActive? || calls[i].ExternalCancel?
  }

  function RunFrom(s: System, calls: seq<Call>): System
    decreases |calls|
  {
    if calls == [] then s else RunFrom(Step(s, calls[0]), calls[1..])
  }

  /** A successful check stays good through any cancellations made before the
      start, so the start that follows it cannot be refused. */
  lemma {:induction false} CheckedStartSucceeds(s: System, cancels: seq<Call>, job: Candidate)
    requires CanStart(s.core, ActiveFlag(s), job).Ok? && OnlyCancels(cancels)
    ensures var t := RunFrom(s, cancels);
            CanStart(t.core, ActiveFlag(t), job).Ok? && t.core.nextId == s.core.nextId
    decreases |cancels|
  {
    if cancels != [] {
      CheckedStartSucceeds(Step(s, cancels[0]), cancels[1..], job);
    }
  }
}
