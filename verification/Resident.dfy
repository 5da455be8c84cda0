/**
 The message loop's state as the object its handlers update in place.  Every
 method is proved against the function of the same step in `Shell`, so what is
 proved about runs there holds for these handlers.  The source's own asserts and
 expects appear as assertions.
 */
module Resident {
  import opened Common
  import opened Normalize
  import opened Popups
  import opened Shell
  import opened ShellInvariants
  import ShellRuns
  import Coordinator
  import Mailbox
  import ResponseFormat

  /** Removing the first popup of that id and then orphaning all that are left. */
  lemma {:induction false} WithoutAt(popups: seq<Popup>, id: PopupId, index: nat)
    requires index < |popups| && popups[index].id == id
    requires forall i :: 0 <= i < index ==> popups[i].id != id
    ensures Without(popups, id) == OrphanAll(popups[..index] + popups[index + 1..], id)
  {
    if index > 0 {
      WithoutAt(popups[1..], id, index - 1);
      assert (popups[..index] + popups[index + 1..])[1..] == popups[1..][..index - 1] + popups[1..][index..];
    } else {
      assert popups[..0] + popups[1..] == popups[1..];
    }
  }

  lemma {:induction false} WithoutAbsent(popups: seq<Popup>, id: PopupId)
    requires forall i :: 0 <= i < |popups| ==> popups[i].id != id
    ensures Without(popups, id) == OrphanAll(popups, id)
  {
    if popups != [] {
      WithoutAbsent(popups[1..], id);
    }
  }

  lemma RemovalKeepsRegistry(w: World, id: PopupId)
    requires Registry(w)
    ensures Registry(RemovePopup(w, id))
  {
    hide Quieter;
    RemovePopupQuieter(w, id);
    WithoutKeeps(w.popups, id);
  }

  lemma RegistryIsDistinct(w: World)
    requires Registry(w)
    ensures Distinct(w.popups)
  {
  }

  /** What the handlers below carry over from the runs: they keep the invariant. */
  ghost predicate Keeps(w: World, v: World) { Inv(w) && NoWrap(w) ==> Kept(w, v) }

  lemma StepKeeps(w: World, step: Step)
    ensures Keeps(w, Next(w, step))
  {
    hide Next, Inv, NoWrap, Kept;
    if Inv(w) && NoWrap(w) {
      ShellRuns.NextKeeps(w, step);
    }
  }

  /** When the error flag is set does not matter to the cancellation. */
  lemma RestartCommutes(w: World, failed: bool)
    ensures CancelInflight(w.(generation := w.generation + 1, startupError := failed))
         == CancelInflight(w.(generation := w.generation + 1)).(startupError := failed)
  {
  }

  lemma MatchesSome(w: World, event: Event)
    requires event.Extraction?
    ensures Matches(w.pending, event.attempt, event.trigger, w.generation) ==> w.pending.Some?
  {
  }

  lemma FilledIs(before: seq<Popup>, after: seq<Popup>, id: PopupId, trigger: Option<Trigger>,
                 admitted: Option<(RequestSpec, TextContext)>, completed: bool)
    requires |after| == |before|
    requires forall i :: 0 <= i < |after| ==>
               after[i] == if before[i].id != id then before[i]
                           else before[i].(presented := trigger,
                                           admitted := if admitted.Some? then admitted else before[i].admitted,
                                           completed := completed)
    ensures after == Updated(Presented(before, id, trigger, admitted), id, completed)
  {
  }

  class ShellState {
    var pending: Option<PendingAttempt>
    var choice: Option<ProfileChoice>
    var generation: nat
    var startupError: bool
    var resting: bool
    var popups: seq<Popup>
    var nextPopupId: nat
    var activePopup: Option<PopupId>
    var coordinator: Coordinator.Core
    var popupJob: Option<nat>
    var token: Option<nat>
    var output: string
    var request: Option<ActiveRequest>
    var events: seq<Event>
    var hasWorker: bool
    var mailbox: Mailbox.State
    var worker: Worker
    var stopped: set<nat>
    var nextAttempt: nat
    var streams: map<nat, Stream>
    var cancelledStreams: set<nat>
    var taken: seq<nat>
    var cached: seq<(nat, string)>
    var history: seq<Record>

    ghost function View(): World
      reads this
    {
      World(pending, choice, generation, startupError, resting, popups, nextPopupId, activePopup, coordinator, popupJob,
            token, output, request, events, hasWorker, mailbox, worker, stopped, nextAttempt, streams, cancelledStreams,
            taken, cached, history)
    }

    constructor (withWorker: bool, startupFailed: bool)
      ensures View() == Initial(withWorker, startupFailed)
    {
      pending, choice, generation, startupError, resting := None, None, 1, startupFailed, false;
      popups, nextPopupId, activePopup, coordinator, popupJob := [], 1, None, Coordinator.FRESH, None;
      token, output, request, events := None, "", None, [];
      hasWorker, mailbox, worker, stopped, nextAttempt := withWorker, Mailbox.EMPTY, Idle, {}, 1;
      streams, cancelledStreams, taken, cached, history := map[], {}, [], [], [];
    }

    // ------------------------------------------------------ cancelling work

    method CancelPendingExtraction()
      modifies `pending, `mailbox, `stopped
      ensures View() == CancelPending(old(View()))
    {
      if hasWorker {
        stopped := stopped + Mailbox.Held(mailbox);
        mailbox := Mailbox.Cleared(mailbox);
      }
      pending := None;
    }

    method CancelProviderStream()
      modifies `cancelledStreams, `token
      ensures View() == CancelProvider(old(View()))
    {
      if token.Some? {
        cancelledStreams := cancelledStreams + {token.value};
        token := None;
      }
    }

    method ResetJob()
      modifies `cancelledStreams, `token, `coordinator, `request, `activePopup, `popupJob, `output
      ensures View() == DropJob(old(View()))
    {
      CancelProviderStream();
      coordinator := coordinator.(active := None);
      request := None;
      activePopup := None;
      popupJob := None;
      output := "";
    }

    method CancelInflightWork()
      modifies `pending, `mailbox, `stopped
      modifies `cancelledStreams, `token, `coordinator, `request, `activePopup, `popupJob, `output
      ensures View() == CancelInflight(old(View()))
    {
      CancelPendingExtraction();
      ResetJob();
    }

    method CancelHover()
      modifies `pending, `mailbox, `stopped
      ensures View() == CancelHoverExtraction(old(View()))
    {
      if pending.Some? && pending.value.spec.trigger == Hover {
        CancelPendingExtraction();
      }
    }

    // ---------------------------------------------------- removing popups

    method RemoveFirst(id: PopupId)
      modifies `popups
      ensures OrphanAll(popups, id) == Without(old(popups), id)
    {
      var index := 0;
      while index < |popups| && popups[index].id != id
        invariant 0 <= index <= |popups|
        invariant popups == old(popups)
        invariant forall i :: 0 <= i < index ==> popups[i].id != id
      {
        index := index + 1;
      }
      if index < |popups| {
        WithoutAt(popups, id, index);
        popups := popups[..index] + popups[index + 1..];
      } else {
        WithoutAbsent(popups, id);
      }
    }

    method OrphanChildren(id: PopupId)
      modifies `popups
      ensures popups == OrphanAll(old(popups), id)
    {
      var child := 0;
      while child < |popups|
        invariant 0 <= child <= |popups| == |old(popups)|
        invariant forall i :: 0 <= i < child ==> popups[i] == Orphaned(old(popups)[i], id)
        invariant forall i :: child <= i < |popups| ==> popups[i] == old(popups)[i]
      {
        if popups[child].parent == Some(id) {
          popups := popups[child := popups[child].(parent := None)];
        }
        child := child + 1;
      }
    }

    method Unregister(id: PopupId)
      modifies `popups
      ensures View() == old(View()).(popups := Without(old(popups), id))
    {
      hide Without, OrphanAll;
      RemoveFirst(id);
      OrphanChildren(id);
    }

    /** Drop the extraction and the choice that concern the popup. */
    method Release(id: PopupId)
      modifies `pending, `mailbox, `stopped, `choice
      ensures View() == ReleaseChoice(ReleasePending(old(View()), id), id)
    {
      hide CancelPending;
      if pending.Some? && Concerns(pending.value.spec, id) {
        CancelPendingExtraction();
      }
      assert View() == ReleasePending(old(View()), id);
      if choice.Some? && choice.value.popupId == id {
        choice := None;
      }
    }

    method Remove(id: PopupId)
      modifies this
      ensures View() == RemovePopup(old(View()), id)
    {
      hide Without, ReleasePending, ReleaseChoice, DropJob;
      Release(id);
      if activePopup == Some(id) {
        ResetJob();
      }
      Unregister(id);
    }

    method RemoveEach(ids: seq<PopupId>)
      modifies this
      ensures View() == RemoveAll(old(View()), ids)
    {
      hide RemovePopup;
      var i := 0;
      while i < |ids|
        invariant 0 <= i <= |ids|
        invariant RemoveAll(View(), ids[i..]) == RemoveAll(old(View()), ids)
      {
        Remove(ids[i]);
        assert ids[i..][1..] == ids[i + 1..];
        i := i + 1;
      }
    }

    method Select(wanted: Popup -> bool) returns (ids: seq<PopupId>)
      ensures ids == Matching(popups, wanted)
    {
      ids := [];
      var i := 0;
      while i < |popups|
        invariant 0 <= i <= |popups|
        invariant ids + Matching(popups[i..], wanted) == Matching(popups, wanted)
      {
        assert popups[i..][1..] == popups[i + 1..];
        if wanted(popups[i]) {
          ids := ids + [popups[i].id];
        }
        i := i + 1;
      }
    }

    method DismissUnpinnedOutside(clicked: Option<PopupId>)
      modifies this
      ensures View() == OutsideClick(old(View()), clicked)
    {
      var ids := Select((p: Popup) => Some(p.id) != clicked && !p.pinned);
      RemoveEach(ids);
    }

    method CancelHoverWork()
      modifies this
      ensures View() == DisableHover(old(View()))
    {
      CancelHover();
      var ids := Select((p: Popup) => p.presented == Some(Hover));
      RemoveEach(ids);
    }

    /** `stale` are the popups whose guard window differs from the new foreground. */
    method OnForegroundChanged(isPopup: bool, stale: set<PopupId>)
      modifies this
      ensures View() == ForegroundChanged(old(View()), isPopup, stale)
    {
      if isPopup {
        return;
      }
      CancelHover();
      var ids := Select((p: Popup) => p.presented == Some(Hover) && !p.pinned && p.id in stale);
      RemoveEach(ids);
    }

    method Forget()
      modifies `choice, `popupJob
      ensures View() == old(View()).(choice := None, popupJob := None)
    {
      choice := None;
      popupJob := None;
    }

    method SetRestMode(enabled: bool)
      modifies this
      ensures View() == SetRest(old(View()), enabled)
    {
      hide RemoveAll, CancelInflight;
      if resting == enabled {
        return;
      }
      resting := enabled;
      assert View() == old(View()).(resting := enabled);
      CancelInflightWork();
      Forget();
      var ids := Select((p: Popup) => true);
      RemoveEach(ids);
    }

    // --------------------------------------------------- result surfaces

    method LastReusable() returns (id: Option<PopupId>)
      ensures id == LastUnpinned(popups)
    {
      var i := |popups|;
      assert popups[..i] == popups;
      while i > 0
        invariant 0 <= i <= |popups|
        invariant LastUnpinned(popups[..i]) == LastUnpinned(popups)
      {
        i := i - 1;
        assert popups[..i + 1][..i] == popups[..i];
        if !popups[i].pinned {
          return Some(popups[i].id);
        }
      }
      return None;
    }

    method Create(parent: Option<PopupId>, native: Native) returns (a: Option<Admission>)
      requires Registry(View())
      modifies this
      ensures (View(), a) == CreatePopup(old(View()), parent, native)
    {
      var full := |popups| >= MAX_VISIBLE_POPUPS;
      var evict: Option<PopupId> := None;
      if full {
        evict := FindOldestEvictable(popups, parent, activePopup);
        if evict.None? {
          return None;
        }
      }
      var id, next := NextUnusedPopupId(nextPopupId, popups);
      nextPopupId := next;
      if !native.created {
        return None;
      }
      if full {
        return Some(Admission(id, true, Some(NewPopup(id, parent)), evict));
      }
      popups := popups + [NewPopup(id, parent)];
      return Some(Admission(id, true, None, None));
    }

    method Ensure(destination: Option<PopupId>, parent: Option<PopupId>, forceNew: bool, native: Native)
      returns (a: Option<Admission>)
      requires Registry(View())
      modifies this
      ensures (View(), a) == EnsurePopup(old(View()), destination, parent, forceNew, native)
    {
      hide RemovePopup, CreatePopup, Registry, LastUnpinned;
      if destination.Some? {
        if Registered(popups, destination.value) && native.destinationAlive {
          return Some(Admission(destination.value, false, None, None));
        }
        RemovalKeepsRegistry(View(), destination.value);
        Remove(destination.value);
      }
      if !forceNew {
        var candidate := LastReusable();
        if candidate.Some? {
          if native.reuseAlive {
            return Some(Admission(candidate.value, false, None, None));
          }
          RemovalKeepsRegistry(View(), candidate.value);
          Remove(candidate.value);
        }
      }
      a := Create(parent, native);
    }

    method EnsureResultSurface(spec: RequestSpec, native: Native) returns (a: Option<Admission>)
      requires Registry(View())
      modifies this
      ensures (View(), a) == EnsureSurface(old(View()), spec, native)
    {
      hide EnsurePopup, RemovePopup;
      if ForcesNew(spec) && |popups| >= MAX_VISIBLE_POPUPS {
        var evict := FindOldestEvictable(popups, spec.source, activePopup);
        if evict.None? {
          return None;
        }
      }
      a := Ensure(spec.destination, spec.source, ForcesNew(spec), native);
      if a.Some? && !(native.available && (a.value.staged.Some? || Registered(popups, a.value.popupId))) {
        if a.value.createdNew {
          Remove(a.value.popupId);
        }
        a := None;
      }
    }

    /** The eviction target named by a staged surface is registered. */
    method CommitPresentedStagedPopup(a: Admission, ghost source: Option<PopupId>)
      requires Sound(View(), a, source)
      modifies this
      ensures View() == CommitStaged(old(View()), a)
    {
      if a.staged.None? {
        return;
      }
      EvictedIsNotActive(View(), a.evict.value, source);
      assert a.evict.Some? && Registered(popups, a.evict.value);
      Remove(a.evict.value);
      popups := popups + [a.staged.value];
    }

    /** Update the entry of that id, if there is one. */
    method ChangeEntry(id: PopupId, change: Popup -> Popup)
      requires Distinct(popups)
      modifies `popups
      ensures |popups| == |old(popups)|
      ensures forall i :: 0 <= i < |popups| ==>
                popups[i] == if old(popups)[i].id == id then change(old(popups)[i]) else old(popups)[i]
    {
      var i := 0;
      while i < |popups|
        invariant 0 <= i <= |popups| && popups == old(popups)
        invariant forall k :: 0 <= k < i ==> popups[k].id != id
      {
        if popups[i].id == id {
          popups := popups[i := change(popups[i])];
          return;
        }
        i := i + 1;
      }
    }

    method FillSurface(id: PopupId, trigger: Option<Trigger>, admitted: Option<(RequestSpec, TextContext)>,
                       completed: bool)
      requires Distinct(popups)
      modifies `popups
      ensures View() == old(View()).(popups := Updated(Presented(old(popups), id, trigger, admitted), id, completed))
    {
      hide Distinct, Updated, Presented;
      ChangeEntry(id, (p: Popup) =>
        p.(presented := trigger, admitted := if admitted.Some? then admitted else p.admitted, completed := completed));
      FilledIs(old(popups), popups, id, trigger, admitted, completed);
    }

    method Present(id: PopupId, job: nat)
      modifies `activePopup, `popupJob
      ensures View() == old(View()).(activePopup := Some(id), popupJob := Some(job))
    {
      activePopup := Some(id);
      popupJob := Some(job);
    }

    method ReportError(job: nat, native: Native)
      requires Registry(View())
      modifies this
      ensures View() == ShowLocalError(old(View()), job, native)
    {
      hide EnsurePopup, Quieter, Sound, Distinct, Registered, Updated, Presented;
      EnsurePopupEnsures(View(), None, None, false, native);
      var surface := Ensure(None, None, false, native);
      if surface.None? || !PresentsStaged(popups, surface.value, native) {
        return;
      }
      var a := surface.value;
      assert a.staged.None?;
      CommitPresentedStagedPopup(a, None);
      Present(a.popupId, job);
      FillSurface(a.popupId, None, None, false);
    }

    // ------------------------------------------------------------ admission

    /** The coordinator check is repeated by its own start; it cannot fail there,
        and the surface to fill is registered. */
    method AdmitExtracted(p: PendingAttempt, text: TextContext, native: Native, services: Services)
      requires Registry(View())
      modifies this
      ensures View() == Admit(old(View()), p, text, native, services)
    {
      hide ShowLocalError, AdmitOn, Registry, Coordinator.CanStart;
      var spec := p.spec;
      if spec.trigger == Hover && !native.foregroundCurrent {
        return;
      }
      if spec.source.Some? {
        var source := Find(popups, spec.source.value);
        if source.None? || !native.sourceReady || !source.value.completed {
          return;
        }
      }
      if services.promptId.None? {
        if spec.trigger == Manual {
          ReportError(p.attempt, native);
        }
        return;
      }
      var candidate := CandidateOf(spec, text, spec.promptId, services.now);
      if Coordinator.CanStart(coordinator, false, candidate).Err? {
        if spec.trigger == Manual {
          ReportError(p.attempt, native);
        }
        return;
      }
      AdmitChecked(candidate, spec, text, native, services);
    }

    method AdmitChecked(candidate: Coordinator.Candidate, spec: RequestSpec, text: TextContext, native: Native,
                        services: Services)
      requires Registry(View()) && services.promptId.Some?
      requires Coordinator.CanStart(coordinator, false, candidate).Ok?
      modifies this
      ensures View() == AdmitOn(old(View()), candidate, spec, text, native, services)
    {
      hide EnsureSurface, Commit, Registry, Sound, Registered, Coordinator.CanStart;
      CheckedStartStands(View(), candidate, spec, native);
      EnsureSurfaceEnsures(View(), spec, native);
      var surface := EnsureResultSurface(spec, native);
      if surface.None? || !PresentsStaged(popups, surface.value, native) {
        return;
      }
      assert Coordinator.CanStart(coordinator, false, candidate).Ok?;
      ghost var checked := View();
      coordinator := Coordinator.Started(coordinator, candidate);
      assert View() == checked.(coordinator := coordinator);
      SoundIgnoresCoordinator(checked, View(), surface.value, spec.source);
      CommitAdmission(surface.value, spec, text, services);
    }

    method CommitAdmission(a: Admission, spec: RequestSpec, text: TextContext, services: Services)
      requires Registry(View()) && Sound(View(), a, spec.source)
      requires services.promptId.Some? && coordinator.active.Some?
      modifies this
      ensures View() == Commit(old(View()), a, spec, text, services)
    {
      hide Registry, Sound, CommitStaged, Registered, Distinct, Answer, StartStream, Occupy;
      CommitStagedKeeps(View(), a, spec.source);
      var job, promptId := coordinator.active.value.id, services.promptId.value;
      CommitPresentedStagedPopup(a, spec.source);
      assert Registered(popups, a.popupId);
      ghost var staged := View();
      assert Distinct(popups) by { RegistryIsDistinct(View()); }
      TakeOver(job, a.popupId, spec, text, promptId, services.cachedOutput.Some?);
      if services.cachedOutput.Some? {
        AnswerFromCache(job, spec, text, promptId, services.cachedOutput.value, services.doneAt);
      } else {
        Spawn(job, promptId, services.spawned);
      }
    }

    method TakeOver(job: nat, id: PopupId, spec: RequestSpec, text: TextContext, promptId: string, answered: bool)
      requires Distinct(popups)
      modifies `cancelledStreams, `token, `output, `activePopup, `popupJob, `popups, `request
      ensures View() == Occupy(old(View()), job, id, spec, text, promptId, answered)
    {
      hide Distinct;
      hide Updated, Presented;
      CancelProviderStream();
      output := "";
      Present(id, job);
      assert View() == CancelProvider(old(View())).(output := "", activePopup := Some(id), popupJob := Some(job));
      FillSurface(id, Some(spec.trigger), Some((spec, text)), answered);
      request := Some(ActiveRequest(spec.processId, text, promptId));
    }

    /** Show the final text and keep it in the history. */
    method Record(text: string, job: nat, fromCache: bool)
      modifies `output, `history
      ensures View() == old(View()).(output := text, history := old(history) + Recorded(text, job, fromCache))
    {
      hide Recorded;
      output := text;
      history := history + Recorded(text, job, fromCache);
    }

    method CompleteJob(job: nat, processId: nat, text: TextContext, doneAt: nat)
      modifies `coordinator, `request
      ensures View() == old(View()).(coordinator := Coordinator.Completed(old(coordinator), false, job, processId, text, doneAt),
                                     request := None)
    {
      hide Coordinator.Completed;
      coordinator := Coordinator.Completed(coordinator, false, job, processId, text, doneAt);
      request := None;
    }

    method AnswerFromCache(job: nat, spec: RequestSpec, text: TextContext, promptId: string, cachedOutput: string,
                           doneAt: nat)
      modifies `output, `history, `coordinator, `request
      ensures View() == Answer(old(View()), job, spec, text, promptId, cachedOutput, doneAt)
    {
      hide ResponseFormat.NormalizeTerminalResponse, Recorded, Coordinator.Completed;
      Record(ResponseFormat.NormalizeTerminalResponse(promptId, cachedOutput), job, true);
      CompleteJob(job, spec.processId, text, doneAt);
    }

    method Spawn(job: nat, promptId: string, spawned: bool)
      modifies `streams, `events, `token
      ensures View() == StartStream(old(View()), job, promptId, spawned)
    {
      streams := streams[job := Stream(promptId, [], !spawned)];
      if !spawned {
        events := events + [Finished(job, Failed)];
      }
      token := Some(job);
    }

    // -------------------------------------------------------------- handlers

    method Begin(trigger: Trigger, processId: nat, promptId: string, source: Option<PopupId>, native: Native)
      requires Registry(View())
      modifies this
      ensures View() == BeginRequest(old(View()), trigger, processId, promptId, source, native)
      ensures Keeps(old(View()), View())
    {
      StepKeeps(View(), Trigger(trigger, processId, promptId, source, native));
      hide Registry, RemovePopup, ShowLocalError, CancelInflight, CancelPending, Submit, Keeps;
      if resting {
        return;
      }
      if startupError {
        if trigger == Manual {
          ReportError(0, native);
        }
        return;
      }
      if choice.Some? {
        if trigger == Hover {
          return;
        }
        Remove(choice.value.popupId);
      }
      if pending.Some? && PriorityOf(pending.value.spec.trigger) > PriorityOf(trigger) {
        return;
      }
      if coordinator.active.Some? && PriorityOf(coordinator.active.value.trigger) > PriorityOf(trigger) {
        return;
      }
      if trigger == Manual {
        CancelInflightWork();
      } else {
        CancelPendingExtraction();
      }
      Extract(RequestSpec(trigger, processId, promptId, false, if trigger == Hover then source else None, None));
    }

    method Replace(attempt: nat, trigger: Trigger)
      modifies `stopped, `mailbox
      ensures View() == old(View()).(stopped := old(stopped) + Mailbox.Held(old(mailbox)),
                                     mailbox := Mailbox.Submitted(old(mailbox), Mailbox.Request(attempt, trigger)))
    {
      stopped := stopped + Mailbox.Held(mailbox);
      mailbox := Mailbox.Submitted(mailbox, Mailbox.Request(attempt, trigger));
    }

    method Await(spec: RequestSpec) returns (attempt: nat)
      modifies `nextAttempt, `pending
      ensures attempt == old(nextAttempt)
      ensures View() == old(View()).(nextAttempt := attempt + 1, pending := Some(PendingAttempt(attempt, spec, generation)))
    {
      attempt := nextAttempt;
      nextAttempt := nextAttempt + 1;
      pending := Some(PendingAttempt(attempt, spec, generation));
    }

    /** Hand the request to the extraction worker; without one it fails at once. */
    method Extract(spec: RequestSpec)
      modifies `nextAttempt, `stopped, `mailbox, `events, `pending
      ensures View() == Submit(old(View()), spec)
    {
      hide Mailbox.Held, Mailbox.Submitted;
      var attempt := Await(spec);
      if hasWorker && !mailbox.shuttingDown {
        Replace(attempt, spec.trigger);
      } else {
        events := events + [Extraction(attempt, spec.trigger, None)];
      }
    }

    method TakeMatchingPending(attempt: nat, trigger: Trigger) returns (p: Option<PendingAttempt>)
      modifies `pending
      ensures p == if Matches(old(pending), attempt, trigger, generation) then old(pending) else None
      ensures pending == if p.Some? then None else old(pending)
    {
      p := None;
      if Matches(pending, attempt, trigger, generation) {
        p := pending;
        pending := None;
      }
    }

    method OnExtraction(event: Event, native: Native, services: Services)
      requires Registry(View()) && event.Extraction?
      modifies this
      ensures View() == HandleExtraction(old(View()), event, native, services)
    {
      hide Admit, ShowLocalError, OfferChoices, Matches, Distinct;
      assert Matches(pending, event.attempt, event.trigger, generation) ==> pending.Some? by { MatchesSome(View(), event); }
      var p := TakeMatchingPending(event.attempt, event.trigger);
      if p.None? {
        return;
      }
      taken := taken + [event.attempt];
      if startupError || event.extracted.None? {
        MatchTrigger(old(pending), event.attempt, event.trigger, generation);
        if event.trigger == Manual {
          ReportError(p.value.attempt, native);
        }
        return;
      }
      if event.trigger == Selection {
        Offer(p.value, event.extracted.value, native, services);
      } else {
        AdmitExtracted(p.value, event.extracted.value, native, services);
      }
    }

    method Offer(p: PendingAttempt, text: TextContext, native: Native, services: Services)
      requires Registry(View())
      modifies this
      ensures View() == OfferChoices(old(View()), p, text, native, services)
    {
      hide EnsurePopup, Registry, RemovePopup, Registered;
      if services.promptId.None? {
        return;
      }
      var a := Ensure(None, None, false, native);
      if a.None? {
        return;
      }
      if !Registered(popups, a.value.popupId) || !native.choicesShown {
        Remove(a.value.popupId);
        return;
      }
      popupJob := None;
      choice := Some(ProfileChoice(a.value.popupId, p, text));
    }

    method IsCurrentPresentation(job: nat) returns (current: bool)
      ensures current == Live(View(), job)
    {
      current := coordinator.active.Some? && coordinator.active.value.id == job && popupJob == Some(job);
    }

    method OnDelta(event: Event)
      requires event.Delta?
      modifies this
      ensures View() == HandleDelta(old(View()), event)
    {
      var current := IsCurrentPresentation(event.job);
      if current {
        output := output + event.text;
      }
    }

    method Complete(id: Option<PopupId>, completed: bool)
      requires Registry(View())
      modifies `popups
      ensures View() == SetCompleted(old(View()), id, completed)
    {
      if id.Some? {
        ChangeEntry(id.value, (p: Popup) => p.(completed := completed));
        assert popups == Updated(old(popups), id.value, completed);
      }
    }

    method OnFinished(event: Event, doneAt: nat)
      requires Registry(View()) && event.Finished?
      modifies `token, `output, `cached, `history, `coordinator, `request, `popups
      ensures View() == HandleFinished(old(View()), event, doneAt)
    {
      hide Distinct, SetCompleted, Recorded, Coordinator.Completed, Coordinator.Finished,
           ResponseFormat.NormalizeTerminalResponse;
      var current := IsCurrentPresentation(event.job);
      if !current {
        return;
      }
      token := None;
      if event.result == Success && output != "" {
        if request.Some? {
          Store(event.job, request.value, doneAt);
        }
        request := None;
        Complete(activePopup, true);
      } else {
        coordinator := Coordinator.Finished(coordinator, event.job);
        request := None;
        if event.result != StreamCancelled {
          Complete(activePopup, false);
        }
      }
    }

    method Store(job: nat, active: ActiveRequest, doneAt: nat)
      modifies `output, `cached, `history, `coordinator, `request
      ensures var whole := ResponseFormat.NormalizeTerminalResponse(active.promptId, old(output));
              View() == old(View()).(
                output := whole, cached := old(cached) + [(job, whole)],
                history := old(history) + Recorded(whole, job, false), request := None,
                coordinator := Coordinator.Completed(old(coordinator), false, job, active.processId, active.text, doneAt))
    {
      hide ResponseFormat.NormalizeTerminalResponse, Recorded, Coordinator.Completed;
      var whole := ResponseFormat.NormalizeTerminalResponse(active.promptId, output);
      cached := cached + [(job, whole)];
      assert View() == old(View()).(cached := old(cached) + [(job, whole)]);
      Record(whole, job, false);
      CompleteJob(job, active.processId, active.text, doneAt);
    }

    /** One event of the queue. */
    method Drain(native: Native, services: Services)
      requires Registry(View())
      modifies this
      ensures View() == HandleEvent(old(View()), native, services)
      ensures Keeps(old(View()), View())
    {
      StepKeeps(View(), Pump(native, services));
      hide HandleExtraction, HandleDelta, HandleFinished, Distinct, Keeps;
      if events == [] {
        return;
      }
      var event := events[0];
      events := events[1..];
      match event {
        case Extraction(_, _, _) => OnExtraction(event, native, services);
        case Delta(_, _) => OnDelta(event);
        case Finished(_, _) => OnFinished(event, services.doneAt);
      }
    }

    method ReplayPopup(id: PopupId, promptId: string, native: Native, services: Services)
      requires Registry(View())
      modifies this
      ensures View() == Replay(old(View()), id, promptId, native, services)
      ensures Keeps(old(View()), View())
    {
      StepKeeps(View(), Retry(id, promptId, native, services));
      hide Admit, Distinct, Keeps;
      var entry := Find(popups, id);
      if entry.None? || entry.value.admitted.None? {
        return;
      }
      var (spec, text) := entry.value.admitted.value;
      spec := spec.(promptId := promptId, bypassDuplicates := true, source := None, destination := Some(id));
      CancelInflightWork();
      AdmitExtracted(PendingAttempt(0, spec, generation), text, native, services);
    }

    method BeginSelectedProfile(id: PopupId, promptId: Option<string>, stillConfigured: bool, native: Native,
                                services: Services)
      requires Registry(View())
      modifies this
      ensures View() == SelectProfile(old(View()), id, promptId, stillConfigured, native, services)
      ensures Keeps(old(View()), View())
    {
      StepKeeps(View(), ProfileSelected(id, promptId, stillConfigured, native, services));
      hide Admit, RemovePopup, Distinct, Keeps;
      if choice.None? || choice.value.popupId != id {
        return;
      }
      if promptId.None? || choice.value.pending.generation != generation {
        return;
      }
      var chosen := choice.value;
      choice := None;
      if !stillConfigured {
        Remove(id);
        return;
      }
      var spec := chosen.pending.spec.(promptId := promptId.value, bypassDuplicates := true, destination := Some(id));
      AdmitExtracted(chosen.pending.(spec := spec), chosen.text, native, services);
    }

    // ------------------------------------------------- configuration changes

    /** The generation moves and everything in flight is cancelled together. */
    method Invalidate(failed: bool)
      modifies `generation, `startupError, `pending, `mailbox, `stopped
      modifies `cancelledStreams, `token, `coordinator, `request, `activePopup, `popupJob, `output
      ensures View() == CancelInflight(old(View()).(generation := old(generation) + 1, startupError := failed))
    {
      hide CancelInflight;
      generation := generation + 1;
      startupError := failed;
      assert View() == old(View()).(generation := old(generation) + 1, startupError := failed);
      CancelInflightWork();
    }

    method CloseChooser()
      modifies this
      ensures View() == CloseChoice(old(View()))
    {
      hide RemovePopup;
      if choice.Some? {
        var id := choice.value.popupId;
        choice := None;
        assert View() == old(View()).(choice := None);
        Remove(id);
      }
    }

    method OnInvalidConfig()
      modifies this
      ensures View() == ConfigInvalid(old(View()))
    {
      hide CancelInflight, CloseChoice;
      Invalidate(true);
      CloseChooser();
    }

    method OnCredentialsChanged(failed: bool)
      modifies this
      ensures View() == RefreshProvider(old(View()), failed)
    {
      hide CancelInflight, CloseChoice;
      RestartCommutes(old(View()), failed);
      Invalidate(failed);
      CloseChooser();
    }

    method OnConfigLoaded(failed: bool, refreshed: bool)
      modifies this
      ensures View() == ApplyConfig(old(View()), failed, refreshed)
    {
      hide CancelInflight, RemovePopup, Registered;
      RestartCommutes(old(View()), failed);
      Invalidate(failed);
      if choice.Some? {
        var id := choice.value.popupId;
        if Registered(popups, id) && refreshed {
          choice := Some(choice.value.(pending := choice.value.pending.(generation := generation)));
        } else {
          Remove(id);
        }
      }
    }
  }
}
