/** What every step of the message loop and its workers keeps. */
module ShellInvariants {
  import opened Common
  import opened Normalize
  import opened Popups
  import opened Shell
  import Coordinator
  import Mailbox
  import ResponseFormat

  // ----------------------------------------------------- the extraction side

  lemma MatchTrigger(pending: Option<PendingAttempt>, attempt: nat, trigger: Trigger, generation: nat)
    requires Matches(pending, attempt, trigger, generation)
    ensures pending.value.spec.trigger == trigger
  {
  }

  ghost predicate Queued(events: seq<Event>, attempt: nat, trigger: Trigger) {
    exists k :: 0 <= k < |events| && events[k].Extraction? && events[k].attempt == attempt && events[k].trigger == trigger
  }

  /** Where the attempt in the pending slot is: it is never lost. */
  ghost predicate Located(w: World, p: PendingAttempt) {
    || w.mailbox.pending == Some(Mailbox.Request(p.attempt, p.spec.trigger))
    || ((w.worker.Running? || w.worker.Passed?)
        && w.worker.request == Mailbox.Request(p.attempt, p.spec.trigger) && p.attempt !in w.stopped)
    || Queued(w.events, p.attempt, p.spec.trigger)
  }

  /** No event of this attempt was posted yet. */
  ghost predicate Unposted(w: World, attempt: nat) {
    && (forall k :: 0 <= k < |w.events| && w.events[k].Extraction? ==> w.events[k].attempt != attempt)
    && attempt !in w.taken
  }

  ghost predicate OncePosted(w: World) {
    && (forall i, j :: 0 <= i < j < |w.events| && w.events[i].Extraction? && w.events[j].Extraction?
          ==> w.events[i].attempt != w.events[j].attempt)
    && (forall k :: 0 <= k < |w.events| && w.events[k].Extraction? ==>
          w.events[k].attempt < w.nextAttempt && w.events[k].attempt !in w.taken)
    && (forall i, j :: 0 <= i < j < |w.taken| ==> w.taken[i] != w.taken[j])
    && (forall a :: a in w.taken ==> a < w.nextAttempt)
    && (w.mailbox.pending.Some? ==> Unposted(w, w.mailbox.pending.value.attempt))
    && (w.worker.Running? || w.worker.Passed? ==> Unposted(w, w.worker.request.attempt))
    && (w.mailbox.pending.Some? && (w.worker.Running? || w.worker.Passed?) ==>
          w.mailbox.pending.value.attempt != w.worker.request.attempt)
  }

  ghost predicate MailboxAgrees(w: World) {
    && !w.mailbox.shuttingDown
    && (!w.hasWorker ==> w.mailbox == Mailbox.EMPTY && w.worker == Idle)
    && (w.mailbox.pending.Some? ==>
          w.pending.Some? && w.mailbox.pending.value == Mailbox.Request(w.pending.value.attempt, w.pending.value.spec.trigger))
    && (w.worker.Idle? ==> w.mailbox.active.None?)
    && (w.mailbox.active.Some? && (w.worker.Running? || w.worker.Passed?) ==>
          w.mailbox.active.value == w.worker.request.attempt)
    && (w.mailbox.active.Some? && w.worker.Ending? ==> w.mailbox.active.value == w.worker.attempt)
    && (w.worker.Running? || w.worker.Passed? ==> w.worker.request.attempt < w.nextAttempt)
    && (forall a :: a in w.stopped ==> a < w.nextAttempt)
    && (w.worker.Ending? ==> w.worker.attempt < w.nextAttempt)
    // a running extraction is the pending one, or its token is set
    && ((w.worker.Running? || w.worker.Passed?) && w.worker.request.attempt !in w.stopped ==>
          w.mailbox.active.Some? && w.pending.Some? && w.pending.value.attempt == w.worker.request.attempt)
  }

  ghost predicate SlotAgrees(w: World) {
    && (w.pending.Some? ==>
          && w.pending.value.generation == w.generation
          && w.pending.value.attempt < w.nextAttempt
          && w.pending.value.attempt !in w.stopped
          && Located(w, w.pending.value))
    && !(w.pending.Some? && w.choice.Some?)
    && (w.choice.Some? ==> w.choice.value.pending.spec.trigger == Selection)
    && (w.pending.Some? && w.pending.value.spec.trigger == Manual ==> w.coordinator.active.None?)
  }

  ghost predicate Handoff(w: World) { OncePosted(w) && MailboxAgrees(w) && SlotAgrees(w) }

  // --------------------------------------------------------- the stream side

  function TextOf(event: Event, job: nat): string { if event.Delta? && event.job == job then event.text else "" }

  function QueuedText(events: seq<Event>, job: nat): string
    decreases |events|
  {
    if events == [] then "" else TextOf(events[0], job) + QueuedText(events[1..], job)
  }

  ghost predicate OfJob(event: Event, job: nat) { !event.Extraction? && event.job == job }

  ghost predicate IdsAgree(w: World) {
    1 <= w.coordinator.nextId && forall j :: j in w.streams ==> 1 <= j < w.coordinator.nextId
  }

  /** Stream events belong to streams, and the last event of a job is its end. */
  ghost predicate EventsAgree(w: World) {
    && (forall k :: 0 <= k < |w.events| && !w.events[k].Extraction? ==> w.events[k].job in w.streams)
    && (forall k :: 0 <= k < |w.events| && w.events[k].Finished? ==>
          && w.streams[w.events[k].job].finished
          && forall m :: k < m < |w.events| ==> !OfJob(w.events[m], w.events[k].job))
  }

  /** The active job streams for the active request; every stream but the token's is
      cancelled or over. */
  ghost predicate ActiveAgrees(w: World) {
    && (w.coordinator.active.Some? ==>
          var job := w.coordinator.active.value.id;
          && job in w.streams && w.token == Some(job) && w.activePopup.Some?
          && w.request.Some? && w.request.value.promptId == w.streams[job].promptId)
    && (forall j :: j in w.streams ==> j in w.cancelledStreams || w.streams[j].finished || w.token == Some(j))
  }

  /** What a live presentation shows and what is queued for it is all there is. */
  ghost predicate ShownAgrees(w: World) {
    w.coordinator.active.Some? && w.popupJob == Some(w.coordinator.active.value.id) ==>
      var job := w.coordinator.active.value.id;
      job in w.streams && w.output + QueuedText(w.events, job) == Flatten(w.streams[job].posted)
  }

  ghost predicate JobsAgree(w: World) { IdsAgree(w) && EventsAgree(w) && ActiveAgrees(w) && ShownAgrees(w) }

  /** The normalized whole of a finished stream. */
  ghost predicate IsResult(w: World, job: nat, output: string) {
    && job in w.streams && w.streams[job].finished
    && output == ResponseFormat.NormalizeTerminalResponse(w.streams[job].promptId, Flatten(w.streams[job].posted))
  }

  function StreamRecord(record: Record): seq<Record> { if record.fromCache then [] else [record] }

  function StreamRecords(history: seq<Record>): seq<Record>
    decreases |history|
  {
    if history == [] then [] else StreamRecord(history[0]) + StreamRecords(history[1..])
  }

  function RecordsOf(cached: seq<(nat, string)>): seq<Record>
    decreases |cached|
  {
    if cached == [] then []
    else RecordsOf(cached[..|cached| - 1]) + Recorded(cached[|cached| - 1].1, cached[|cached| - 1].0, false)
  }

  /** Results are stored once per job, normalized and whole; history gets the same
      results in the same order, blank ones left out. */
  ghost predicate ResultsAgree(w: World) {
    && (forall i :: 0 <= i < |w.cached| ==>
          && IsResult(w, w.cached[i].0, w.cached[i].1)
          && (w.coordinator.active.Some? ==> w.coordinator.active.value.id != w.cached[i].0))
    && (forall i, j :: 0 <= i < j < |w.cached| ==> w.cached[i].0 != w.cached[j].0)
    && StreamRecords(w.history) == RecordsOf(w.cached)
  }

  ghost predicate Jobs(w: World) { JobsAgree(w) && ResultsAgree(w) }

  ghost predicate Registry(w: World) {
    Distinct(w.popups) && |w.popups| <= MAX_VISIBLE_POPUPS && w.nextPopupId < USIZE_LIMIT
  }

  ghost predicate Inv(w: World) { Handoff(w) && Jobs(w) && Registry(w) }

  // --------------------------------------- removing popups, cancelling work

  ghost predicate SameExtraction(w: World, v: World) {
    v.pending == w.pending && v.mailbox == w.mailbox && v.stopped == w.stopped
  }

  ghost predicate SameJob(w: World, v: World) {
    && v.coordinator == w.coordinator && v.activePopup == w.activePopup && v.popupJob == w.popupJob
    && v.token == w.token && v.output == w.output && v.request == w.request
    && v.cancelledStreams == w.cancelledStreams
  }

  ghost predicate SameRest(w: World, v: World) {
    && v.generation == w.generation && v.startupError == w.startupError && v.resting == w.resting
    && v.events == w.events && v.hasWorker == w.hasWorker && v.worker == w.worker && v.nextAttempt == w.nextAttempt
    && v.streams == w.streams && v.taken == w.taken && v.cached == w.cached && v.history == w.history
  }

  /** `v` is `w` after some cancellations and popup changes. */
  ghost predicate Quieter(w: World, v: World) {
    && SameRest(w, v)
    && (SameExtraction(w, v) || SameExtraction(CancelPending(w), v))
    && (v.choice == w.choice || v.choice.None?)
    && (SameJob(w, v) || SameJob(DropJob(w), v))
  }

  lemma QuieterTrans(u: World, v: World, w: World)
    requires Quieter(u, v) && Quieter(v, w)
    ensures Quieter(u, w)
  {
    ExtractionTrans(u, v, w);
    JobTrans(u, v, w);
    hide SameExtraction, SameJob, CancelPending, DropJob;
  }

  lemma ExtractionTrans(u: World, v: World, w: World)
    requires SameExtraction(u, v) || SameExtraction(CancelPending(u), v)
    requires SameExtraction(v, w) || SameExtraction(CancelPending(v), w)
    requires u.hasWorker == v.hasWorker
    ensures SameExtraction(u, w) || SameExtraction(CancelPending(u), w)
  {
  }

  lemma JobTrans(u: World, v: World, w: World)
    requires SameJob(u, v) || SameJob(DropJob(u), v)
    requires SameJob(v, w) || SameJob(DropJob(v), w)
    ensures SameJob(u, w) || SameJob(DropJob(u), w)
  {
  }

  lemma QuieterKeepsHandoff(w: World, v: World)
    requires Handoff(w) && Quieter(w, v)
    ensures Handoff(v)
  {
  }

  lemma QuieterKeepsJobs(w: World, v: World)
    requires Jobs(w) && Quieter(w, v)
    ensures Jobs(v)
  {
  }

  lemma QuietSteps(w: World)
    ensures Quieter(w, w) && Quieter(w, CancelPending(w)) && Quieter(w, DropJob(w)) && Quieter(w, w.(choice := None))
    ensures forall popups, next :: Quieter(w, w.(popups := popups, nextPopupId := next))
    ensures forall popups :: Quieter(w, w.(popups := popups))
  {
  }

  lemma ReleasePendingQuiet(w: World, id: PopupId)
    ensures var v := ReleasePending(w, id);
            Quieter(w, v) && SameJob(w, v) && v.popups == w.popups && v.nextPopupId == w.nextPopupId
  {
    hide Concerns;
  }

  lemma ReleaseChoiceQuiet(w: World, id: PopupId)
    ensures var v := ReleaseChoice(w, id);
            Quieter(w, v) && SameJob(w, v) && v.popups == w.popups && v.nextPopupId == w.nextPopupId
  {
  }

  lemma ReleaseJobQuiet(w: World, id: PopupId)
    ensures var v := ReleaseJob(w, id);
            && Quieter(w, v) && v.popups == w.popups && v.nextPopupId == w.nextPopupId
            && v.activePopup == (if w.activePopup == Some(id) then None else w.activePopup)
            && (w.activePopup != Some(id) ==> v == w)
  {
  }

  lemma RemovePopupQuieter(w: World, id: PopupId)
    ensures Quieter(w, RemovePopup(w, id))
    ensures RemovePopup(w, id).popups == Without(w.popups, id)
    ensures RemovePopup(w, id).nextPopupId == w.nextPopupId
    ensures RemovePopup(w, id).activePopup == if w.activePopup == Some(id) then None else w.activePopup
    ensures w.activePopup != Some(id) ==> SameJob(w, RemovePopup(w, id))
  {
    hide Quieter, ReleasePending, ReleaseChoice, ReleaseJob, Without;
    var w1 := ReleasePending(w, id);
    var w2 := ReleaseChoice(w1, id);
    var w3 := ReleaseJob(w2, id);
    ReleasePendingQuiet(w, id);
    ReleaseChoiceQuiet(w1, id);
    ReleaseJobQuiet(w2, id);
    QuietSteps(w3);
    QuieterTrans(w, w1, w2);
    QuieterTrans(w, w2, w3);
    QuieterTrans(w, w3, RemovePopup(w, id));
  }

  lemma RemovePopupKeeps(w: World, id: PopupId)
    requires Inv(w)
    ensures Inv(RemovePopup(w, id))
  {
    RemovePopupQuieter(w, id);
    QuieterKeepsHandoff(w, RemovePopup(w, id));
    QuieterKeepsJobs(w, RemovePopup(w, id));
    WithoutKeeps(w.popups, id);
  }

  // -------------------------------------------------------- result surfaces

  /** A popup that may go: registered, not pinned, completed, neither the source
      nor the active destination. */
  ghost predicate Evictable(w: World, id: PopupId, source: Option<PopupId>) {
    exists i :: 0 <= i < |w.popups| && w.popups[i].id == id && CanBeEvicted(w.popups[i], source, w.activePopup)
  }

  /** An admission names a registered popup, or stages a new one at capacity. */
  ghost predicate Sound(w: World, a: Admission, source: Option<PopupId>) {
    if a.staged.Some? then
      && a.createdNew && a.staged.value.id == a.popupId && !Registered(w.popups, a.popupId)
      && |w.popups| == MAX_VISIBLE_POPUPS
      && a.evict.Some? && Evictable(w, a.evict.value, source)
    else Registered(w.popups, a.popupId) && a.evict.None?
  }

  lemma CreatePopupKeeps(w: World, parent: Option<PopupId>, native: Native)
    requires Registry(w)
    ensures var (v, a) := CreatePopup(w, parent, native);
            && v == w.(popups := v.popups, nextPopupId := v.nextPopupId)
            && Registry(v) && (a.Some? ==> Sound(v, a.value, parent))
            && (a.Some? && a.value.staged.Some? ==> |w.popups| >= MAX_VISIBLE_POPUPS)
  {
    hide Distinct;
    AllocatedUnused(w.nextPopupId, w.popups);
    RegisteredSnoc(w.popups, NewPopup(Allocated(w.nextPopupId, w.popups), parent));
  }

  lemma {:induction false} LastUnpinnedFacts(popups: seq<Popup>)
    ensures LastUnpinned(popups).Some? ==> Registered(popups, LastUnpinned(popups).value)
    ensures LastUnpinned(popups).None? ==> forall i :: 0 <= i < |popups| ==> popups[i].pinned
  {
    if popups != [] && popups[|popups| - 1].pinned {
      LastUnpinnedFacts(popups[..|popups| - 1]);
      if LastUnpinned(popups).Some? {
        var i :| 0 <= i < |popups| - 1 && popups[..|popups| - 1][i].id == LastUnpinned(popups).value;
        assert popups[i].id == LastUnpinned(popups).value;
      }
    }
  }

  /** What ensuring a popup may do: quiet changes, and a sound admission that is
      staged only when a new popup was forced. */
  ghost predicate Ensured(w: World, v: World, a: Option<Admission>, source: Option<PopupId>, forceNew: bool) {
    && Quieter(w, v) && Registry(v)
    && (a.Some? ==> Sound(v, a.value, source))
    && (a.Some? && a.value.staged.Some? ==> forceNew)
  }

  lemma EnsuredAfter(u: World, w: World, v: World, a: Option<Admission>, source: Option<PopupId>, forceNew: bool)
    requires Quieter(u, w) && Ensured(w, v, a, source, forceNew)
    ensures Ensured(u, v, a, source, forceNew)
  {
    hide Quieter, Registry, Sound;
    QuieterTrans(u, w, v);
  }

  lemma CreateEnsures(w: World, parent: Option<PopupId>, forceNew: bool, native: Native)
    requires Registry(w) && (forceNew || |w.popups| < MAX_VISIBLE_POPUPS || forall i :: 0 <= i < |w.popups| ==> w.popups[i].pinned)
    ensures var (v, a) := CreatePopup(w, parent, native); Ensured(w, v, a, parent, forceNew)
  {
    CreatePopupKeeps(w, parent, native);
    var (v, a) := CreatePopup(w, parent, native);
    NewPopupsQuiet(w, v);
  }

  lemma NewPopupsQuiet(w: World, v: World)
    requires v == w.(popups := v.popups, nextPopupId := v.nextPopupId)
    ensures Quieter(w, v)
  {
  }

  lemma ReuseEnsures(w: World, parent: Option<PopupId>, forceNew: bool, native: Native)
    requires Registry(w)
    ensures var (v, a) := ReusePopup(w, parent, forceNew, native); Ensured(w, v, a, parent, forceNew)
  {
    hide Quieter, RemovePopup, CreatePopup;
    LastUnpinnedFacts(w.popups);
    var candidate := LastUnpinned(w.popups);
    if forceNew || candidate.None? {
      CreateEnsures(w, parent, forceNew, native);
    } else if native.reuseAlive {
      QuietSteps(w);
    } else {
      var u := RemovePopup(w, candidate.value);
      RemovePopupQuieter(w, candidate.value);
      WithoutKeeps(w.popups, candidate.value);
      CreateEnsures(u, parent, forceNew, native);
      var (v, a) := CreatePopup(u, parent, native);
      EnsuredAfter(w, u, v, a, parent, forceNew);
    }
  }

  /** An admission that does not force a new popup never stages one. */
  lemma EnsurePopupEnsures(w: World, destination: Option<PopupId>, parent: Option<PopupId>, forceNew: bool, native: Native)
    requires Registry(w)
    ensures var (v, a) := EnsurePopup(w, destination, parent, forceNew, native); Ensured(w, v, a, parent, forceNew)
  {
    hide Quieter, RemovePopup, ReusePopup;
    if destination.None? {
      ReuseEnsures(w, parent, forceNew, native);
    } else if Registered(w.popups, destination.value) && native.destinationAlive {
      QuietSteps(w);
    } else {
      var u := RemovePopup(w, destination.value);
      RemovePopupQuieter(w, destination.value);
      WithoutKeeps(w.popups, destination.value);
      ReuseEnsures(u, parent, forceNew, native);
      var (v, a) := ReusePopup(u, parent, forceNew, native);
      EnsuredAfter(w, u, v, a, parent, forceNew);
    }
  }

  lemma EnsureSurfaceEnsures(w: World, spec: RequestSpec, native: Native)
    requires Registry(w)
    ensures var (v, a) := EnsureSurface(w, spec, native); Ensured(w, v, a, spec.source, ForcesNew(spec))
  {
    hide Quieter, RemovePopup, EnsurePopup;
    EnsurePopupEnsures(w, spec.destination, spec.source, ForcesNew(spec), native);
    QuietSteps(w);
    var (u, a) := EnsurePopup(w, spec.destination, spec.source, ForcesNew(spec), native);
    if a.Some? {
      RemovePopupQuieter(u, a.value.popupId);
      WithoutKeeps(u.popups, a.value.popupId);
      QuieterTrans(w, u, RemovePopup(u, a.value.popupId));
    }
  }

  /** Committing a staged popup removes the evicted one and registers the new one;
      it touches no job, because the evicted popup is not the active one. */
  lemma CommitStagedKeeps(w: World, a: Admission, source: Option<PopupId>)
    requires Registry(w) && Sound(w, a, source)
    ensures var v := CommitStaged(w, a);
            && Quieter(w, v) && SameJob(w, v) && Registry(v) && Registered(v.popups, a.popupId)
  {
    hide Quieter, RemovePopup, SameJob;
    QuietSteps(w);
    SameJobRefl(w);
    if a.staged.Some? {
      var id := a.evict.value;
      var u := RemovePopup(w, id);
      EvictedIsNotActive(w, id, source);
      RemovePopupQuieter(w, id);
      WithoutKeeps(w.popups, id);
      RegisteredSnoc(u.popups, a.staged.value);
      var v := CommitStaged(w, a);
      PopupsQuiet(u, v.popups);
      QuieterTrans(w, u, v);
      SameJobTrans(w, u, v);
    }
  }

  lemma EvictedIsNotActive(w: World, id: PopupId, source: Option<PopupId>)
    requires Evictable(w, id, source)
    ensures w.activePopup != Some(id) && source != Some(id) && Registered(w.popups, id)
  {
  }

  lemma PopupsQuiet(w: World, popups: seq<Popup>)
    ensures Quieter(w, w.(popups := popups)) && SameJob(w, w.(popups := popups))
  {
  }

  lemma SameJobRefl(w: World)
    ensures SameJob(w, w)
  {
  }

  lemma SameJobTrans(u: World, v: World, w: World)
    requires SameJob(u, v) && SameJob(v, w)
    ensures SameJob(u, w)
  {
  }

  lemma QuieterKeepsInv(w: World, v: World)
    requires Inv(w) && Quieter(w, v) && Registry(v)
    ensures Inv(v)
  {
    hide Quieter, Handoff, Jobs;
    QuieterKeepsHandoff(w, v);
    QuieterKeepsJobs(w, v);
  }

  lemma FlagsKeepRegistry(popups: seq<Popup>, changed: seq<Popup>)
    requires |changed| == |popups| && forall i :: 0 <= i < |popups| ==> changed[i].id == popups[i].id
    requires Distinct(popups) && |popups| <= MAX_VISIBLE_POPUPS
    ensures Distinct(changed) && |changed| <= MAX_VISIBLE_POPUPS
    ensures forall id :: Registered(changed, id) <==> Registered(popups, id)
  {
    SameIds(popups, changed);
  }

  // ---------------------------------------------------------------- handlers

  /** A local error takes over the presentation; it never carries the id of an
      active job, whose output it would otherwise claim. */
  lemma ShowLocalErrorKeeps(w: World, job: nat, native: Native)
    requires Inv(w) && (w.coordinator.active.None? || job == 0)
    ensures Inv(ShowLocalError(w, job, native))
    ensures ShowLocalError(w, job, native).coordinator.nextId == w.coordinator.nextId
    ensures SameRest(w, ShowLocalError(w, job, native))
  {
    hide Quieter, EnsurePopup, Handoff, JobsAgree, ResultsAgree, Distinct;
    EnsurePopupEnsures(w, None, None, false, native);
    var (u, a) := EnsurePopup(w, None, None, false, native);
    QuieterKeepsInv(w, u);
    QuieterFacts(w, u);
    if a.Some? && PresentsStaged(u.popups, a.value, native) {
      var v := ShowLocalError(w, job, native);
      assert a.value.staged.None?;
      FlagsKeepRegistry(u.popups, v.popups);
      PresentationKeepsHandoff(u, v);
      PresentationKeepsJobs(u, v, job);
    }
  }

  lemma QuieterFacts(w: World, v: World)
    requires Quieter(w, v)
    ensures v.coordinator == w.coordinator || v.coordinator == w.coordinator.(active := None)
    ensures SameRest(w, v)
    ensures w.pending.None? ==> v.pending.None?
    ensures w.choice.None? ==> v.choice.None?
  {
  }

  lemma PresentationKeepsHandoff(u: World, v: World)
    requires Handoff(u)
    requires v == u.(popupJob := v.popupJob, activePopup := v.activePopup, popups := v.popups)
    ensures Handoff(v)
  {
  }

  lemma PresentationKeepsJobs(u: World, v: World, job: nat)
    requires Jobs(u) && (u.coordinator.active.None? || job == 0)
    requires v == u.(popupJob := Some(job), activePopup := v.activePopup, popups := v.popups) && v.activePopup.Some?
    ensures Jobs(v)
  {
  }

  lemma {:induction false} QueuedNone(events: seq<Event>, job: nat)
    requires forall k :: 0 <= k < |events| && events[k].Delta? ==> events[k].job != job
    ensures QueuedText(events, job) == ""
    decreases |events|
  {
    if events != [] {
      QueuedNone(events[1..], job);
    }
  }

  lemma {:induction false} QueuedSnoc(events: seq<Event>, event: Event, job: nat)
    ensures QueuedText(events + [event], job) == QueuedText(events, job) + TextOf(event, job)
    decreases |events|
  {
    hide TextOf;
    var all := events + [event];
    if events == [] {
      assert all[1..] == [];
    } else {
      QueuedSnoc(events[1..], event, job);
      assert all[1..] == events[1..] + [event];
      var first, rest, last := TextOf(events[0], job), QueuedText(events[1..], job), TextOf(event, job);
      assert QueuedText(all, job) == first + (rest + last);
      assert first + (rest + last) == (first + rest) + last;
    }
  }

  lemma {:induction false} StreamRecordsSnoc(history: seq<Record>, record: Record)
    ensures StreamRecords(history + [record]) == StreamRecords(history) + StreamRecord(record)
    decreases |history|
  {
    hide StreamRecord;
    var all := history + [record];
    if history == [] {
      assert all[1..] == [];
    } else {
      StreamRecordsSnoc(history[1..], record);
      assert all[1..] == history[1..] + [record];
      var first, rest, last := StreamRecord(history[0]), StreamRecords(history[1..]), StreamRecord(record);
      assert StreamRecords(all) == first + (rest + last);
      assert first + (rest + last) == (first + rest) + last;
    }
  }

  /** The job and request fields right after a commit, in terms of the world before. */
  ghost predicate Committed(w: World, v: World, promptId: string, spawned: bool) {
    var job := w.coordinator.nextId;
    && v.events == (if spawned then w.events else w.events + [Finished(job, Failed)])
    && v.taken == w.taken && v.cached == w.cached && v.history == w.history
    && v.streams == w.streams[job := Stream(promptId, [], !spawned)]
    && v.token == Some(job)
    && v.cancelledStreams == w.cancelledStreams + (if w.token.Some? then {w.token.value} else {})
    && v.coordinator.active.Some? && v.coordinator.active.value.id == job
    && v.coordinator.nextId == job + 1
    && v.activePopup.Some? && v.popupJob == Some(job) && v.output == ""
    && v.request.Some? && v.request.value.promptId == promptId
  }

  lemma CommittedKeepsJobs(w: World, v: World, promptId: string, spawned: bool)
    requires Jobs(w) && Committed(w, v, promptId, spawned)
    ensures JobsAgree(v)
  {
    hide ResultsAgree, IdsAgree, EventsAgree, ActiveAgrees, ShownAgrees, Committed;
    CommittedEvents(w, v, promptId, spawned);
    CommittedActive(w, v, promptId, spawned);
    CommittedShown(w, v, promptId, spawned);
  }

  lemma CommittedEvents(w: World, v: World, promptId: string, spawned: bool)
    requires IdsAgree(w) && EventsAgree(w) && Committed(w, v, promptId, spawned)
    ensures IdsAgree(v) && EventsAgree(v)
  {
  }

  lemma CommittedActive(w: World, v: World, promptId: string, spawned: bool)
    requires ActiveAgrees(w) && Committed(w, v, promptId, spawned)
    ensures ActiveAgrees(v)
  {
  }

  lemma CommittedShown(w: World, v: World, promptId: string, spawned: bool)
    requires IdsAgree(w) && EventsAgree(w) && Committed(w, v, promptId, spawned)
    ensures ShownAgrees(v)
  {
    var job := w.coordinator.nextId;
    QueuedNone(w.events, job);
    QueuedSnoc(w.events, Finished(job, Failed), job);
    assert Flatten<char>([]) == [];
  }

  lemma CommittedKeepsResults(w: World, v: World, promptId: string, spawned: bool)
    requires Jobs(w) && Committed(w, v, promptId, spawned)
    ensures ResultsAgree(v)
  {
    forall i | 0 <= i < |v.cached| ensures IsResult(v, v.cached[i].0, v.cached[i].1) && v.cached[i].0 != w.coordinator.nextId {
      assert IsResult(w, w.cached[i].0, w.cached[i].1);
    }
  }

  /** After a commit answered from the cache, nothing is active. */
  ghost predicate Answered(w: World, v: World, promptId: string, cachedOutput: string) {
    var job := w.coordinator.nextId;
    && v.events == w.events && v.taken == w.taken && v.cached == w.cached && v.streams == w.streams
    && v.token == None
    && v.cancelledStreams == w.cancelledStreams + (if w.token.Some? then {w.token.value} else {})
    && v.coordinator.active.None? && v.coordinator.nextId == job + 1
    && v.history == w.history + Recorded(ResponseFormat.NormalizeTerminalResponse(promptId, cachedOutput), job, true)
  }

  lemma AnsweredKeepsJobs(w: World, v: World, promptId: string, cachedOutput: string)
    requires Jobs(w) && Answered(w, v, promptId, cachedOutput)
    ensures Jobs(v)
  {
    var output := ResponseFormat.NormalizeTerminalResponse(promptId, cachedOutput);
    StreamRecordsSnoc(w.history, Record(w.coordinator.nextId, output, true));
    assert w.history + [] == w.history;
    forall i | 0 <= i < |v.cached| ensures IsResult(v, v.cached[i].0, v.cached[i].1) {
      assert IsResult(w, w.cached[i].0, w.cached[i].1);
    }
  }

  /** The world in which the coordinator has just accepted the candidate. */
  function Accepted(w: World, candidate: Coordinator.Candidate): World {
    w.(coordinator := Coordinator.Started(w.coordinator, candidate))
  }

  /** Only stream events may have been queued, and nothing is pending. */
  ghost predicate ExtractionUntouched(w: World, v: World) {
    && v.pending.None? && (v.choice == w.choice || v.choice.None?) && v.mailbox == w.mailbox && v.stopped == w.stopped
    && v.worker == w.worker && v.hasWorker == w.hasWorker && v.nextAttempt == w.nextAttempt
    && v.generation == w.generation && v.taken == w.taken
    && |w.events| <= |v.events| && v.events[..|w.events|] == w.events
    && forall k :: |w.events| <= k < |v.events| ==> v.events[k].Finished?
  }

  lemma UntouchedKeepsHandoff(w: World, v: World)
    requires Handoff(w) && w.pending.None? && ExtractionUntouched(w, v)
    ensures Handoff(v)
  {
    assert forall k :: 0 <= k < |w.events| ==> v.events[k] == w.events[k];
  }

  /** The commit point: the accepted job survives the eviction of the old popup,
      its surface is registered, and the stream or the cached answer is the only
      other thing that changed. */
  lemma CommitEffect(w: World, a: Admission, spec: RequestSpec, text: TextContext, services: Services, now: nat)
    requires Registry(w) && Handoff(w) && Sound(w, a, spec.source) && w.pending.None?
    requires services.promptId.Some? && w.coordinator.nextId + 1 < Coordinator.U64_LIMIT
    ensures var x := Accepted(w, CandidateOf(spec, text, spec.promptId, now));
            var v := Commit(x, a, spec, text, services);
            && Registry(v) && Registered(v.popups, a.popupId)
            && Handoff(v)
            && (services.cachedOutput.None? ==> Committed(w, v, services.promptId.value, services.spawned))
            && (services.cachedOutput.Some? ==> Answered(w, v, services.promptId.value, services.cachedOutput.value))
  {
    hide Quieter, CommitStaged, Registry, Registered, Sound, SameJob, SameRest, Occupy, Answer, StartStream,
         Coordinator.FingerprintOf, Handoff, ExtractionUntouched, Committed, Answered;
    var x := Accepted(w, CandidateOf(spec, text, spec.promptId, now));
    SoundIgnoresCoordinator(w, x, a, spec.source);
    CommitStagedKeeps(x, a, spec.source);
    var y := CommitStaged(x, a);
    CommitStagedFacts(x, y);
    AcceptedKeepsHandoff(w, x);
    QuieterKeepsHandoff(x, y);
    var v := Commit(x, a, spec, text, services);
    if services.cachedOutput.None? {
      StreamCommitted(w, x, y, v, a.popupId, spec, text, services.promptId.value, services.spawned);
    } else {
      AnswerCommitted(w, x, y, v, a.popupId, spec, text, services);
    }
    UntouchedKeepsHandoff(y, v);
  }

  lemma StreamCommitted(w: World, x: World, y: World, v: World, id: PopupId, spec: RequestSpec, text: TextContext,
                        promptId: string, spawned: bool)
    requires x.coordinator.active.Some? && x.coordinator.active.value.id == w.coordinator.nextId
    requires x.coordinator.nextId == w.coordinator.nextId + 1 && x == w.(coordinator := x.coordinator)
    requires SameJob(x, y) && SameRest(x, y) && y.pending.None?
    requires Registry(y) && Registered(y.popups, id)
    requires v == StartStream(Occupy(y, w.coordinator.nextId, id, spec, text, promptId, false), w.coordinator.nextId, promptId, spawned)
    ensures Committed(w, v, promptId, spawned) && ExtractionUntouched(y, v)
    ensures Registry(v) && Registered(v.popups, id)
  {
    hide Distinct, Registered;
    FlagsKeepRegistry(y.popups, v.popups);
  }

  lemma AnswerCommitted(w: World, x: World, y: World, v: World, id: PopupId, spec: RequestSpec, text: TextContext,
                        services: Services)
    requires services.promptId.Some? && services.cachedOutput.Some?
    requires x.coordinator.active.Some? && x.coordinator.active.value.id == w.coordinator.nextId
    requires x.coordinator.nextId == w.coordinator.nextId + 1 && x == w.(coordinator := x.coordinator)
    requires SameJob(x, y) && SameRest(x, y) && y.pending.None?
    requires Registry(y) && Registered(y.popups, id)
    requires v == Answer(Occupy(y, w.coordinator.nextId, id, spec, text, services.promptId.value, true),
                         w.coordinator.nextId, spec, text, services.promptId.value, services.cachedOutput.value,
                         services.doneAt)
    ensures Answered(w, v, services.promptId.value, services.cachedOutput.value) && ExtractionUntouched(y, v)
    ensures Registry(v) && Registered(v.popups, id)
  {
    hide Distinct, Registered, Recorded, ResponseFormat.NormalizeTerminalResponse, Coordinator.FingerprintOf;
    FlagsKeepRegistry(y.popups, v.popups);
  }

  lemma AcceptedKeepsHandoff(w: World, x: World)
    requires Handoff(w) && w.pending.None? && x == w.(coordinator := x.coordinator)
    ensures Handoff(x)
  {
  }

  lemma SoundIgnoresCoordinator(w: World, x: World, a: Admission, source: Option<PopupId>)
    requires Sound(w, a, source) && Registry(w) && x == w.(coordinator := x.coordinator)
    ensures Sound(x, a, source) && Registry(x)
  {
  }

  lemma CommitStagedFacts(x: World, y: World)
    requires Quieter(x, y) && x.pending.None?
    ensures SameRest(x, y) && y.pending.None?
  {
  }

  ghost predicate NoWrap(w: World) { w.coordinator.nextId + 1 < Coordinator.U64_LIMIT }

  /** Invariant kept, and at most one job id spent. */
  ghost predicate Kept(w: World, v: World) {
    Inv(v) && w.coordinator.nextId <= v.coordinator.nextId <= w.coordinator.nextId + 1
  }

  /** The second coordinator check of an admission cannot fail: what happened in
      between only cancelled. */
  lemma CheckedStartStands(w: World, candidate: Coordinator.Candidate, spec: RequestSpec, native: Native)
    requires Registry(w) && Coordinator.CanStart(w.coordinator, false, candidate).Ok?
    ensures Coordinator.CanStart(EnsureSurface(w, spec, native).0.coordinator, false, candidate).Ok?
  {
    hide Quieter, EnsureSurface, Registry, Sound, Coordinator.FingerprintOf;
    EnsureSurfaceEnsures(w, spec, native);
    QuieterFacts(w, EnsureSurface(w, spec, native).0);
  }

  lemma CommitKeeps(w: World, a: Admission, spec: RequestSpec, text: TextContext, services: Services, now: nat)
    requires Inv(w) && Sound(w, a, spec.source) && w.pending.None?
    requires services.promptId.Some? && NoWrap(w)
    ensures var v := Commit(Accepted(w, CandidateOf(spec, text, spec.promptId, now)), a, spec, text, services);
            Inv(v) && v.coordinator.nextId == w.coordinator.nextId + 1
  {
    hide Handoff, Registry, Sound, Commit, JobsAgree, ResultsAgree, Registered;
    var v := Commit(Accepted(w, CandidateOf(spec, text, spec.promptId, now)), a, spec, text, services);
    CommitEffect(w, a, spec, text, services, now);
    if services.cachedOutput.None? {
      CommittedKeepsJobs(w, v, services.promptId.value, services.spawned);
      CommittedKeepsResults(w, v, services.promptId.value, services.spawned);
    } else {
      AnsweredKeepsJobs(w, v, services.promptId.value, services.cachedOutput.value);
    }
  }

  lemma ReportKeeps(w: World, pending: PendingAttempt, native: Native)
    requires Inv(w) && (pending.spec.trigger == Manual ==> w.coordinator.active.None?)
    ensures Kept(w, ReportIfManual(w, pending, native))
  {
    hide Inv, ShowLocalError;
    if pending.spec.trigger == Manual {
      ShowLocalErrorKeeps(w, pending.attempt, native);
    }
  }

  lemma AdmitKeeps(w: World, pending: PendingAttempt, text: TextContext, native: Native, services: Services)
    requires Inv(w) && w.pending.None? && NoWrap(w)
    requires pending.spec.trigger == Manual ==> w.coordinator.active.None?
    ensures Kept(w, Admit(w, pending, text, native, services))
  {
    hide Handoff, Jobs, Registry, Sound, Commit, EnsureSurface, ReportIfManual, Quieter, SourceReady,
         Coordinator.FingerprintOf, PresentsStaged;
    var spec := pending.spec;
    ReportKeeps(w, pending, native);
    if services.promptId.Some? {
      var candidate := CandidateOf(spec, text, spec.promptId, services.now);
      var (w1, surface) := EnsureSurface(w, spec, native);
      EnsureSurfaceEnsures(w, spec, native);
      QuieterKeepsInv(w, w1);
      QuieterFacts(w, w1);
      if Coordinator.CanStart(w.coordinator, false, candidate).Ok? {
        CheckedStartStands(w, candidate, spec, native);
        if surface.Some? && PresentsStaged(w1.popups, surface.value, native) {
          CommitKeeps(w1, surface.value, spec, text, services, services.now);
        }
      }
    }
  }

  lemma CancelKeeps(w: World)
    requires Inv(w)
    ensures Inv(CancelPending(w)) && CancelPending(w).pending.None? && CancelPending(w).choice == w.choice
    ensures CancelPending(w).coordinator == w.coordinator
    ensures Inv(CancelInflight(w)) && CancelInflight(w).pending.None? && CancelInflight(w).choice == w.choice
    ensures CancelInflight(w).coordinator == w.coordinator.(active := None)
  {
    hide Handoff, Jobs, Distinct;
    QuietSteps(w);
    var v := CancelPending(w);
    QuietSteps(v);
    QuieterKeepsHandoff(w, v);
    QuieterKeepsJobs(w, v);
    QuieterKeepsHandoff(v, DropJob(v));
    QuieterKeepsJobs(v, DropJob(v));
  }

  /** A fresh attempt enters the pending slot and the mailbox together. */
  lemma SubmitKeepsHandoff(w: World, spec: RequestSpec)
    requires Handoff(w) && w.pending.None? && w.choice.None?
    requires spec.trigger == Manual ==> w.coordinator.active.None?
    ensures Handoff(Submit(w, spec))
  {
    hide SlotAgrees, MailboxAgrees;
    SubmitOncePosted(w, spec);
    SubmitMailboxAgrees(w, spec);
    SubmitSlotAgrees(w, spec);
  }

  lemma SubmitOncePosted(w: World, spec: RequestSpec)
    requires OncePosted(w) && MailboxAgrees(w)
    ensures OncePosted(Submit(w, spec))
  {
  }

  lemma SubmitMailboxAgrees(w: World, spec: RequestSpec)
    requires MailboxAgrees(w) && w.pending.None?
    ensures MailboxAgrees(Submit(w, spec))
  {
  }

  lemma SubmitSlotAgrees(w: World, spec: RequestSpec)
    requires MailboxAgrees(w) && w.pending.None? && w.choice.None?
    requires spec.trigger == Manual ==> w.coordinator.active.None?
    ensures SlotAgrees(Submit(w, spec))
  {
    var v := Submit(w, spec);
    if !(w.hasWorker && !w.mailbox.shuttingDown) {
      assert v.events[|w.events|] == Extraction(w.nextAttempt, spec.trigger, None);
      assert Queued(v.events, w.nextAttempt, spec.trigger);
    }
  }

  lemma ExtractionEventKeepsJobs(w: World, v: World, event: Event)
    requires Jobs(w) && event.Extraction?
    requires v == w.(pending := v.pending, mailbox := v.mailbox, worker := v.worker, stopped := v.stopped,
                     nextAttempt := v.nextAttempt, events := v.events, generation := v.generation, choice := v.choice,
                     resting := v.resting, startupError := v.startupError, popups := v.popups, taken := v.taken)
    requires v.events == w.events || v.events == w.events + [event]
    ensures Jobs(v)
  {
    hide ResultsAgree;
    ResultsOnlyJobs(w, v);
    forall job {
      QueuedSnoc(w.events, event, job);
    }
  }

  lemma ResultsOnlyJobs(w: World, v: World)
    requires ResultsAgree(w)
    requires v.cached == w.cached && v.history == w.history && v.streams == w.streams
    requires v.coordinator.active == w.coordinator.active || v.coordinator.active.None?
    ensures ResultsAgree(v)
  {
    forall i | 0 <= i < |v.cached| ensures IsResult(v, v.cached[i].0, v.cached[i].1) {
      assert IsResult(w, w.cached[i].0, w.cached[i].1);
    }
  }

  lemma SubmitKeeps(w: World, spec: RequestSpec)
    requires Inv(w) && w.pending.None? && w.choice.None?
    requires spec.trigger == Manual ==> w.coordinator.active.None?
    ensures Kept(w, Submit(w, spec))
  {
    hide Handoff, Jobs, Distinct;
    SubmitKeepsHandoff(w, spec);
    ExtractionEventKeepsJobs(w, Submit(w, spec), Extraction(w.nextAttempt, spec.trigger, None));
  }

  lemma BeginRequestKeeps(w: World, trigger: Trigger, processId: nat, promptId: string, source: Option<PopupId>,
                          native: Native)
    requires Inv(w)
    ensures Kept(w, BeginRequest(w, trigger, processId, promptId, source, native))
  {
    hide Inv, RemovePopup, Submit, CancelPending, CancelInflight, ShowLocalError, Quieter;
    if !w.resting && w.startupError {
      ShowLocalErrorKeeps(w, 0, native);
    } else if !w.resting && !(w.choice.Some? && trigger == Hover) {
      var w1 := if w.choice.Some? then RemovePopup(w, w.choice.value.popupId) else w;
      ChoiceCloses(w);
      CancelKeeps(w1);
      var spec := RequestSpec(trigger, processId, promptId, false, if trigger == Hover then source else None, None);
      SubmitKeeps(if trigger == Manual then CancelInflight(w1) else CancelPending(w1), spec);
    }
  }

  lemma ChoiceCloses(w: World)
    requires Inv(w)
    ensures var w1 := if w.choice.Some? then RemovePopup(w, w.choice.value.popupId) else w;
            Inv(w1) && w1.choice.None? && w1.coordinator.nextId == w.coordinator.nextId
  {
    hide Handoff, Jobs, Registry;
    if w.choice.Some? {
      RemovePopupKeeps(w, w.choice.value.popupId);
      RemovedChoice(w, w.choice.value.popupId);
    }
  }

  lemma RemovedChoice(w: World, id: PopupId)
    ensures w.choice.Some? && w.choice.value.popupId == id ==> RemovePopup(w, id).choice.None?
    ensures w.choice.None? ==> RemovePopup(w, id).choice.None?
    ensures RemovePopup(w, id).coordinator.nextId == w.coordinator.nextId
    ensures w.pending.None? ==> RemovePopup(w, id).pending.None?
  {
    ChoiceRemoved(w, id);
    hide Quieter, RemovePopup;
    RemovePopupQuieter(w, id);
    QuieterFacts(w, RemovePopup(w, id));
  }

  lemma ChoiceRemoved(w: World, id: PopupId)
    ensures w.choice.Some? && w.choice.value.popupId == id ==> RemovePopup(w, id).choice.None?
  {
    hide Without, Concerns;
  }
}
