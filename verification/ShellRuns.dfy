/** The queue, the workers and whole runs: every reachable world keeps the invariant. */
module ShellRuns {
  import opened Common
  import opened Normalize
  import opened Popups
  import opened Shell
  import opened ShellInvariants
  import Coordinator
  import Mailbox
  import ResponseFormat

  // ---------------------------------------------------- extraction events

  /** For a live slot the attempt number alone decides whether an event is
      consumed: the trigger and the generation always agree. */
  lemma LiveSlotMatches(w: World)
    requires Handoff(w) && w.events != [] && w.events[0].Extraction?
    ensures var event := w.events[0];
            Matches(w.pending, event.attempt, event.trigger, w.generation)
            <==> w.pending.Some? && w.pending.value.attempt == event.attempt
  {
    if w.pending.Some? && w.pending.value.attempt == w.events[0].attempt {
      assert Located(w, w.pending.value);
      assert Queued(w.events, w.pending.value.attempt, w.pending.value.spec.trigger);
      var k :| 0 <= k < |w.events| && w.events[k].Extraction? && w.events[k].attempt == w.pending.value.attempt
               && w.events[k].trigger == w.pending.value.spec.trigger;
      assert k == 0;
    }
  }

  function Popped(w: World): World
    requires w.events != []
  {
    w.(events := w.events[1..])
  }

  lemma PoppedOncePosted(w: World)
    requires OncePosted(w) && w.events != []
    ensures OncePosted(Popped(w))
  {
    assert forall k :: 0 <= k < |w.events[1..]| ==> w.events[1..][k] == w.events[k + 1];
  }

  lemma PoppedLocated(w: World, p: PendingAttempt)
    requires w.events != [] && Located(w, p)
    requires w.events[0].Extraction? ==> w.events[0].attempt != p.attempt
    ensures Located(Popped(w), p)
  {
    if Queued(w.events, p.attempt, p.spec.trigger) {
      var k :| 0 <= k < |w.events| && w.events[k].Extraction? && w.events[k].attempt == p.attempt
               && w.events[k].trigger == p.spec.trigger;
      assert w.events[1..][k - 1] == w.events[k];
    }
  }

  lemma PoppedHandoff(w: World)
    requires Handoff(w) && w.events != []
    requires w.events[0].Extraction? && w.pending.Some? ==> w.pending.value.attempt != w.events[0].attempt
    ensures Handoff(Popped(w))
  {
    hide OncePosted, Located;
    PoppedOncePosted(w);
    if w.pending.Some? {
      PoppedLocated(w, w.pending.value);
    }
  }

  lemma PoppedQueuedText(events: seq<Event>, job: nat)
    requires events != []
    ensures QueuedText(events, job) == TextOf(events[0], job) + QueuedText(events[1..], job)
  {
  }

  lemma PoppedEvents(w: World, v: World)
    requires EventsAgree(w) && w.events != [] && v.events == w.events[1..] && v.streams == w.streams
    ensures EventsAgree(v)
  {
    assert forall k :: 0 <= k < |w.events[1..]| ==> w.events[1..][k] == w.events[k + 1];
  }

  /** Dropping an event that is not a delta of the presented job loses no text. */
  lemma PoppedJobs(w: World)
    requires Jobs(w) && w.events != []
    requires w.events[0].Delta? ==> !Live(w, w.events[0].job)
    ensures Jobs(Popped(w))
  {
    hide ResultsAgree, EventsAgree;
    PoppedEvents(w, Popped(w));
    ResultsOnlyJobs(w, Popped(w));
    if w.coordinator.active.Some? {
      PoppedQueuedText(w.events, w.coordinator.active.value.id);
    }
  }

  lemma PoppedKeeps(w: World)
    requires Inv(w) && w.events != []
    requires w.events[0].Extraction? && w.pending.Some? ==> w.pending.value.attempt != w.events[0].attempt
    requires w.events[0].Delta? ==> !Live(w, w.events[0].job)
    ensures Kept(w, Popped(w))
  {
    hide Handoff, Jobs, Distinct, Live;
    PoppedHandoff(w);
    PoppedJobs(w);
  }

  function Consumed(w: World): World
    requires w.events != [] && w.events[0].Extraction?
  {
    Popped(w).(pending := None, taken := w.taken + [w.events[0].attempt])
  }

  lemma ConsumedOncePosted(w: World)
    requires OncePosted(w) && w.events != [] && w.events[0].Extraction?
    ensures OncePosted(Consumed(w))
  {
    assert forall k :: 0 <= k < |w.events[1..]| ==> w.events[1..][k] == w.events[k + 1];
    var taken := w.taken + [w.events[0].attempt];
    assert forall a :: a in taken <==> a in w.taken || a == w.events[0].attempt;
  }

  lemma ConsumedHandoff(w: World)
    requires Handoff(w) && w.events != [] && w.events[0].Extraction?
    requires w.pending.Some? && w.pending.value.attempt == w.events[0].attempt
    ensures Handoff(Consumed(w))
  {
    ConsumedOncePosted(w);
    assert !Unposted(w, w.events[0].attempt);
    assert MailboxAgrees(Consumed(w)) by { hide Located, Queued; }
    assert SlotAgrees(Consumed(w)) by { hide OncePosted, MailboxAgrees; }
  }

  lemma ConsumedKeeps(w: World)
    requires Inv(w) && w.events != [] && w.events[0].Extraction?
    requires w.pending.Some? && w.pending.value.attempt == w.events[0].attempt
    ensures Kept(w, Consumed(w)) && Consumed(w).choice.None?
    ensures w.pending.value.spec.trigger == Manual ==> Consumed(w).coordinator.active.None?
  {
    hide OncePosted, MailboxAgrees, Jobs, Distinct;
    ConsumedHandoff(w);
    PoppedJobs(w);
    TakenKeepsJobs(Popped(w), Consumed(w));
  }

  lemma TakenKeepsJobs(w: World, v: World)
    requires Jobs(w) && v == w.(pending := v.pending, taken := v.taken)
    ensures Jobs(v)
  {
    hide ResultsAgree;
    ResultsOnlyJobs(w, v);
  }

  lemma OfferChoicesKeeps(w: World, pending: PendingAttempt, text: TextContext, native: Native, services: Services)
    requires Inv(w) && w.pending.None? && pending.spec.trigger == Selection
    ensures Kept(w, OfferChoices(w, pending, text, native, services))
  {
    hide Quieter, EnsurePopup, RemovePopup, Handoff, Jobs, Registry, Sound;
    if services.promptId.Some? {
      var (w1, a) := EnsurePopup(w, None, None, false, native);
      EnsurePopupEnsures(w, None, None, false, native);
      QuieterKeepsInv(w, w1);
      QuieterFacts(w, w1);
      if a.Some? {
        RemovePopupKeeps(w1, a.value.popupId);
        RemovedChoice(w1, a.value.popupId);
        OfferedKeeps(w1, w1.(popupJob := None, choice := Some(ProfileChoice(a.value.popupId, pending, text))));
      }
    }
  }

  lemma OfferedKeeps(w: World, v: World)
    requires Inv(w) && w.pending.None?
    requires v == w.(popupJob := v.popupJob, choice := v.choice) && v.popupJob.None?
    requires v.choice.Some? ==> v.choice.value.pending.spec.trigger == Selection
    ensures Inv(v)
  {
  }

  lemma HandleExtractionKeeps(w: World, native: Native, services: Services)
    requires Inv(w) && NoWrap(w) && w.events != [] && w.events[0].Extraction?
    ensures Kept(w, HandleEvent(w, native, services))
  {
    hide Inv, Admit, OfferChoices, ReportIfManual, Matches;
    var event := w.events[0];
    assert Handoff(w) by { hide Handoff, Jobs, Registry; InvParts(w); }
    LiveSlotMatches(w);
    if Matches(w.pending, event.attempt, event.trigger, w.generation) {
      var pending := w.pending.value;
      var w1 := Consumed(w);
      ConsumedKeeps(w);
      assert pending.spec.trigger == event.trigger by { MatchTrigger(w.pending, event.attempt, event.trigger, w.generation); }
      ReportKeeps(w1, pending, native);
      if event.extracted.Some? {
        if event.trigger == Selection {
          OfferChoicesKeeps(w1, pending, event.extracted.value, native, services);
        }
        AdmitKeeps(w1, pending, event.extracted.value, native, services);
      }
    } else {
      PoppedKeeps(w);
    }
  }

  lemma InvParts(w: World)
    requires Inv(w)
    ensures Handoff(w) && Jobs(w) && Registry(w)
  {
  }

  // -------------------------------------------------------- stream events

  /** A shown delta moves from the queue to the output. */
  lemma ShownKeepsJobs(w: World)
    requires Jobs(w) && w.events != [] && w.events[0].Delta? && Live(w, w.events[0].job)
    ensures Jobs(Popped(w).(output := w.output + w.events[0].text))
  {
    hide ResultsAgree, EventsAgree, ShownAgrees;
    var v := Popped(w).(output := w.output + w.events[0].text);
    PoppedEvents(w, v);
    ResultsOnlyJobs(w, v);
    ShownText(w, v);
  }

  lemma ShownText(w: World, v: World)
    requires ShownAgrees(w) && w.events != [] && w.events[0].Delta? && Live(w, w.events[0].job)
    requires v == Popped(w).(output := w.output + w.events[0].text)
    ensures ShownAgrees(v)
  {
    hide QueuedText, Flatten;
    var job, text := w.events[0].job, w.events[0].text;
    PoppedQueuedText(w.events, job);
    assert (w.output + text) + QueuedText(w.events[1..], job) == w.output + (text + QueuedText(w.events[1..], job));
  }

  lemma HandleDeltaKeeps(w: World, native: Native, services: Services)
    requires Inv(w) && w.events != [] && w.events[0].Delta?
    ensures Kept(w, HandleEvent(w, native, services))
  {
    hide Handoff, Jobs, Distinct;
    if Live(w, w.events[0].job) {
      ShownKeepsJobs(w);
      PoppedHandoff(w);
      OutputKeepsHandoff(Popped(w), Popped(w).(output := w.output + w.events[0].text));
    } else {
      PoppedKeeps(w);
    }
  }

  lemma OutputKeepsHandoff(w: World, v: World)
    requires Handoff(w) && v == w.(output := v.output)
    ensures Handoff(v)
  {
  }

  /** When the presented job's end arrives, all its text has been shown. */
  lemma AllShown(w: World)
    requires JobsAgree(w) && w.events != [] && w.events[0].Finished? && Live(w, w.events[0].job)
    ensures var job := w.events[0].job;
            && job in w.streams && w.streams[job].finished
            && w.output == Flatten(w.streams[job].posted)
            && w.token == Some(job)
            && w.request.Some? && w.request.value.promptId == w.streams[job].promptId
  {
    var job := w.events[0].job;
    var rest := w.events[1..];
    forall k | 0 <= k < |rest| && rest[k].Delta? ensures rest[k].job != job {
      assert rest[k] == w.events[k + 1] && !OfJob(w.events[k + 1], job);
    }
    QueuedNone(rest, job);
    PoppedQueuedText(w.events, job);
  }

  /** What settling job `job` leaves of the job fields. */
  ghost predicate Settled(w: World, v: World, job: nat) {
    && v.coordinator.nextId == w.coordinator.nextId && v.coordinator.active.None?
    && v.token.None? && v.events == w.events && v.streams == w.streams
    && v.cancelledStreams == w.cancelledStreams
  }

  lemma SettledKeepsJobs(w: World, v: World, job: nat)
    requires JobsAgree(w) && Settled(w, v, job) && w.token == Some(job)
    requires job in w.streams && w.streams[job].finished
    ensures JobsAgree(v)
  {
  }

  lemma StoredKeepsResults(w: World, v: World, job: nat, output: string)
    requires ResultsAgree(w) && IsResult(w, job, output)
    requires w.coordinator.active.Some? && w.coordinator.active.value.id == job
    requires v.streams == w.streams && v.coordinator.active.None?
    requires v.cached == w.cached + [(job, output)]
    requires v.history == w.history + Recorded(output, job, false)
    ensures ResultsAgree(v)
  {
    hide Recorded, StreamRecords, RecordsOf;
    forall i | 0 <= i < |v.cached|
      ensures IsResult(v, v.cached[i].0, v.cached[i].1)
    {
      if i < |w.cached| {
        assert v.cached[i] == w.cached[i];
      }
      ResultStays(w, v, v.cached[i].0, v.cached[i].1);
    }
    hide IsResult;
    StoredRecords(w.cached, w.history, job, output);
  }

  lemma ResultStays(w: World, v: World, job: nat, output: string)
    requires IsResult(w, job, output) && v.streams == w.streams
    ensures IsResult(v, job, output)
  {
  }

  lemma StoredRecords(cached: seq<(nat, string)>, history: seq<Record>, job: nat, output: string)
    requires StreamRecords(history) == RecordsOf(cached)
    ensures StreamRecords(history + Recorded(output, job, false)) == RecordsOf(cached + [(job, output)])
  {
    hide StreamRecords;
    assert (cached + [(job, output)])[..|cached|] == cached;
    assert history + [] == history && RecordsOf(cached) + [] == RecordsOf(cached);
    StreamRecordsSnoc(history, Record(job, output, false));
  }

  lemma ExtractionSide(w: World, v: World)
    requires Handoff(w) && v.coordinator.active.None?
    requires v == w.(coordinator := v.coordinator, token := v.token, output := v.output, request := v.request,
                     popups := v.popups, cached := v.cached, history := v.history)
    ensures Handoff(v)
  {
  }

  /** Stream integrity.  When the end of job `job` is accepted as a success, the
      text shown is exactly what its worker posted, in order; the cache gets the
      normalised whole once, history the same unless it is blank; and every other
      stream ever started is cancelled or over. */
  lemma AcceptedSuccess(w: World, native: Native, services: Services)
    requires Inv(w) && w.events != [] && w.events[0].Finished? && w.events[0].result == Success
    requires Live(w, w.events[0].job) && w.output != ""
    ensures var job, v := w.events[0].job, HandleEvent(w, native, services);
            && job in w.streams && w.output == Flatten(w.streams[job].posted)
            && IsResult(w, job, v.output)
            && v.cached == w.cached + [(job, v.output)]
            && (forall i :: 0 <= i < |w.cached| ==> w.cached[i].0 != job)
            && v.history == w.history + Recorded(v.output, job, false)
            && (forall j :: j in v.streams && j != job ==> j in v.cancelledStreams || v.streams[j].finished)
            && v.coordinator.active.None? && v.streams == w.streams
  {
    hide Handoff, Registry, ResponseFormat.NormalizeTerminalResponse, Coordinator.FingerprintOf, Recorded;
    AllShown(w);
  }

  lemma FlagsOnly(w: World, id: Option<PopupId>, completed: bool)
    ensures var v := SetCompleted(w, id, completed);
            && v == w.(popups := v.popups)
            && |v.popups| == |w.popups| && (forall i :: 0 <= i < |v.popups| ==> v.popups[i].id == w.popups[i].id)
  {
  }

  /** The fields an accepted end may change. */
  ghost predicate EndEffect(u: World, v: World, job: nat) {
    && Settled(u, v, job)
    && v == u.(coordinator := v.coordinator, token := v.token, output := v.output, request := v.request,
               popups := v.popups, cached := v.cached, history := v.history)
    && |v.popups| == |u.popups| && (forall i :: 0 <= i < |v.popups| ==> v.popups[i].id == u.popups[i].id)
  }

  /** The shape shared by all endings: job fields reset, then the flags. */
  lemma EndingEffect(u: World, x: World, id: Option<PopupId>, completed: bool, job: nat)
    requires Settled(u, x, job)
    requires x == u.(coordinator := x.coordinator, token := x.token, output := x.output, request := x.request,
                     cached := x.cached, history := x.history)
    ensures EndEffect(u, x, job) && EndEffect(u, SetCompleted(x, id, completed), job)
    ensures SetCompleted(x, id, completed).cached == x.cached && SetCompleted(x, id, completed).history == x.history
  {
    hide SetCompleted;
    FlagsOnly(x, id, completed);
  }

  lemma FinishedEffect(w: World, native: Native, services: Services)
    requires w.events != [] && w.events[0].Finished? && Live(w, w.events[0].job) && w.request.Some?
    ensures var job, v, u := w.events[0].job, HandleEvent(w, native, services), Popped(w);
            && EndEffect(u, v, job)
            && (!(w.events[0].result == Success && w.output != "") ==>
                  v.cached == w.cached && v.history == w.history)
  {
    hide ResponseFormat.NormalizeTerminalResponse, Coordinator.FingerprintOf, Recorded, SetCompleted, EndEffect;
    var event, u := w.events[0], Popped(w);
    var u1 := u.(token := None, request := None);
    if event.result == Success && w.output != "" {
      var active := w.request.value;
      var output := ResponseFormat.NormalizeTerminalResponse(active.promptId, w.output);
      var x := u1.(output := output, cached := u.cached + [(event.job, output)],
                   history := u.history + Recorded(output, event.job, false),
                   coordinator := Coordinator.Completed(u.coordinator, false, event.job, active.processId, active.text,
                                                        services.doneAt));
      EndingEffect(u, x, w.activePopup, true, event.job);
    } else {
      EndingEffect(u, u1.(coordinator := Coordinator.Finished(u.coordinator, event.job)), w.activePopup, false, event.job);
    }
  }

  lemma HandleFinishedKeeps(w: World, native: Native, services: Services)
    requires Inv(w) && w.events != [] && w.events[0].Finished?
    ensures Kept(w, HandleEvent(w, native, services))
  {
    hide Handoff, JobsAgree, ResultsAgree, Registry, HandleEvent, Live, Flatten, IsResult, Recorded;
    var job, v, u := w.events[0].job, HandleEvent(w, native, services), Popped(w);
    if Live(w, job) {
      AllShown(w);
      PoppedHandoff(w);
      PoppedJobs(w);
      FinishedEffect(w, native, services);
      ExtractionSide(u, v);
      SettledKeepsJobs(u, v, job);
      SettledRegistry(w, v);
      FinishedResults(w, native, services);
    } else {
      PoppedKeeps(w);
      assert v == u by { DeadEndIgnored(w, native, services); }
    }
  }

  lemma DeadEndIgnored(w: World, native: Native, services: Services)
    requires w.events != [] && w.events[0].Finished? && !Live(w, w.events[0].job)
    ensures HandleEvent(w, native, services) == Popped(w)
  {
  }

  lemma FinishedResults(w: World, native: Native, services: Services)
    requires Inv(w) && w.events != [] && w.events[0].Finished? && Live(w, w.events[0].job)
    ensures ResultsAgree(HandleEvent(w, native, services))
  {
    hide Handoff, JobsAgree, ResultsAgree, Registry, HandleEvent, Flatten, IsResult, Recorded;
    var job, v := w.events[0].job, HandleEvent(w, native, services);
    AllShown(w);
    FinishedEffect(w, native, services);
    if w.events[0].result == Success && w.output != "" {
      AcceptedSuccess(w, native, services);
      StoredKeepsResults(w, v, job, v.output);
    } else {
      ResultsOnlyJobs(w, v);
    }
  }

  lemma SettledRegistry(w: World, v: World)
    requires Registry(w) && |v.popups| == |w.popups| && v.nextPopupId == w.nextPopupId
    requires forall i :: 0 <= i < |v.popups| ==> v.popups[i].id == w.popups[i].id
    ensures Registry(v)
  {
    FlagsKeepRegistry(w.popups, v.popups);
  }

  lemma HandleEventKeeps(w: World, native: Native, services: Services)
    requires Inv(w) && NoWrap(w)
    ensures Kept(w, HandleEvent(w, native, services))
  {
    hide Inv, HandleEvent;
    if w.events == [] {
      assert HandleEvent(w, native, services) == w by { NothingQueued(w, native, services); }
    } else if w.events[0].Extraction? {
      HandleExtractionKeeps(w, native, services);
    } else if w.events[0].Delta? {
      HandleDeltaKeeps(w, native, services);
    } else {
      HandleFinishedKeeps(w, native, services);
    }
  }

  lemma NothingQueued(w: World, native: Native, services: Services)
    requires w.events == []
    ensures HandleEvent(w, native, services) == w
  {
  }

  // ----------------------------------------------------- the other handlers

  /** Invariant kept, and no job id spent. */
  ghost predicate Steady(w: World, v: World) { Inv(v) && v.coordinator.nextId == w.coordinator.nextId }

  lemma {:induction false} RemoveAllKept(w: World, ids: seq<PopupId>)
    requires Inv(w)
    ensures Steady(w, RemoveAll(w, ids))
    decreases |ids|
  {
    hide Inv, RemovePopup;
    if ids != [] {
      RemovePopupKeeps(w, ids[0]);
      RemovedChoice(w, ids[0]);
      RemoveAllKept(RemovePopup(w, ids[0]), ids[1..]);
    }
  }

  lemma CancelHoverKeeps(w: World)
    requires Inv(w)
    ensures Steady(w, CancelHoverExtraction(w))
  {
    hide Inv, CancelPending;
    CancelKeeps(w);
  }

  lemma DismissalsKeep(w: World, clicked: Option<PopupId>, isPopup: bool, stale: set<PopupId>)
    requires Inv(w)
    ensures Kept(w, OutsideClick(w, clicked)) && Kept(w, DisableHover(w)) && Kept(w, ForegroundChanged(w, isPopup, stale))
  {
    hide Inv, RemoveAll, CancelHoverExtraction;
    CancelHoverKeeps(w);
    var w1 := CancelHoverExtraction(w);
    RemoveAllKept(w, Matching(w.popups, (p: Popup) => Some(p.id) != clicked && !p.pinned));
    RemoveAllKept(w1, Matching(w1.popups, (p: Popup) => p.presented == Some(Hover)));
    RemoveAllKept(w1, Matching(w1.popups, (p: Popup) => p.presented == Some(Hover) && !p.pinned && p.id in stale));
  }

  lemma ReplayKeeps(w: World, id: PopupId, promptId: string, native: Native, services: Services)
    requires Inv(w) && NoWrap(w)
    ensures Kept(w, Replay(w, id, promptId, native, services))
  {
    hide Inv, Admit, CancelInflight;
    CancelKeeps(w);
    var popup := Find(w.popups, id);
    if popup.Some? && popup.value.admitted.Some? {
      var (spec, text) := popup.value.admitted.value;
      var again := spec.(promptId := promptId, bypassDuplicates := true, source := None, destination := Some(id));
      AdmitKeeps(CancelInflight(w), PendingAttempt(0, again, w.generation), text, native, services);
    }
  }

  /** While the chooser is open no extraction is pending; closing it is quiet. */
  lemma ChoiceTaken(w: World)
    requires Inv(w) && w.choice.Some?
    ensures Steady(w, w.(choice := None)) && w.pending.None? && w.choice.value.pending.spec.trigger == Selection
  {
    hide Jobs;
    QuietSteps(w);
    QuieterKeepsInv(w, w.(choice := None));
  }

  lemma SelectProfileKeeps(w: World, id: PopupId, promptId: Option<string>, stillConfigured: bool, native: Native,
                           services: Services)
    requires Inv(w) && NoWrap(w)
    ensures Kept(w, SelectProfile(w, id, promptId, stillConfigured, native, services))
  {
    hide Inv, Admit, RemovePopup;
    if w.choice.Some? && w.choice.value.popupId == id && promptId.Some?
       && w.choice.value.pending.generation == w.generation
    {
      var choice, w1 := w.choice.value, w.(choice := None);
      ChoiceTaken(w);
      RemovePopupKeeps(w1, id);
      RemovedChoice(w1, id);
      var spec := choice.pending.spec.(promptId := promptId.value, bypassDuplicates := true, destination := Some(id));
      AdmitKeeps(w1, choice.pending.(spec := spec), choice.text, native, services);
    }
  }

  /** A generation bump is harmless because it cancels in the same step. */
  lemma BumpKeeps(w: World, generation: nat, startupError: bool)
    requires Inv(w)
    ensures var v := CancelInflight(w.(generation := generation)).(startupError := startupError);
            Steady(w, v) && v.pending.None? && v.choice == w.choice && v.generation == generation
    ensures CancelInflight(w.(generation := generation, startupError := startupError))
         == CancelInflight(w.(generation := generation)).(startupError := startupError)
  {
    hide Inv;
    CancelKeeps(w);
    var v := CancelInflight(w);
    RelabelKeeps(v, v.(generation := generation, startupError := startupError));
  }

  lemma RelabelKeeps(w: World, v: World)
    requires Inv(w) && w.pending.None?
    requires v == w.(generation := v.generation, startupError := v.startupError, resting := v.resting,
                     popupJob := v.popupJob, choice := v.choice)
    requires v.popupJob == w.popupJob || v.popupJob.None?
    requires v.choice.Some? ==> w.choice.Some? && v.choice.value.pending.spec == w.choice.value.pending.spec
    ensures Inv(v)
  {
  }

  lemma SetRestKeeps(w: World, enabled: bool)
    requires Inv(w)
    ensures Kept(w, SetRest(w, enabled))
  {
    hide Inv, RemoveAll;
    CancelKeeps(w);
    var v := CancelInflight(w);
    var u := v.(resting := enabled, choice := None, popupJob := None);
    RelabelKeeps(v, u);
    RemoveAllKept(u, Matching(u.popups, (p: Popup) => true));
    assert u == CancelInflight(w.(resting := enabled)).(choice := None, popupJob := None);
  }

  lemma CloseChoiceKeeps(w: World)
    requires Inv(w)
    ensures Steady(w, CloseChoice(w))
  {
    hide Inv, RemovePopup;
    if w.choice.Some? {
      ChoiceTaken(w);
      RemovePopupKeeps(w.(choice := None), w.choice.value.popupId);
      RemovedChoice(w.(choice := None), w.choice.value.popupId);
    }
  }

  lemma ConfigurationKeeps(w: World, startupError: bool, refreshed: bool)
    requires Inv(w)
    ensures Kept(w, ConfigInvalid(w)) && Kept(w, ApplyConfig(w, startupError, refreshed))
    ensures Kept(w, RefreshProvider(w, startupError))
  {
    hide Inv, CancelInflight, CloseChoice, RemovePopup;
    BumpKeeps(w, w.generation + 1, true);
    BumpKeeps(w, w.generation + 1, startupError);
    CloseChoiceKeeps(CancelInflight(w.(generation := w.generation + 1)).(startupError := true));
    var w1 := CancelInflight(w.(generation := w.generation + 1)).(startupError := startupError);
    CloseChoiceKeeps(w1);
    if w1.choice.Some? {
      var id := w1.choice.value.popupId;
      RemovePopupKeeps(w1, id);
      RemovedChoice(w1, id);
      var renewed := w1.choice.value.(pending := w1.choice.value.pending.(generation := w1.generation));
      RelabelKeeps(w1, w1.(choice := Some(renewed)));
    }
  }

  // ---------------------------------------------------------------- workers

  lemma WorkerKeepsOncePosted(w: World, step: Step)
    requires OncePosted(w) && MailboxAgrees(w) && WorkerStep(step)
    ensures OncePosted(WorkerNext(w, step))
  {
  }

  lemma WorkerKeepsMailbox(w: World, step: Step)
    requires MailboxAgrees(w) && SlotAgrees(w) && WorkerStep(step)
    ensures MailboxAgrees(WorkerNext(w, step))
  {
    hide Located;
  }

  lemma WorkerKeepsSlot(w: World, step: Step)
    requires MailboxAgrees(w) && SlotAgrees(w) && WorkerStep(step)
    ensures SlotAgrees(WorkerNext(w, step))
  {
    var v := WorkerNext(w, step);
    if w.pending.Some? {
      var p := w.pending.value;
      if Queued(w.events, p.attempt, p.spec.trigger) {
        var k :| 0 <= k < |w.events| && w.events[k].Extraction? && w.events[k].attempt == p.attempt
                 && w.events[k].trigger == p.spec.trigger;
        assert v.events[k] == w.events[k];
      } else if step.WorkerPosts? && w.worker.Passed? {
        assert v.events[|w.events|].Extraction?;
      }
    }
  }

  lemma WorkerKeeps(w: World, step: Step)
    requires Inv(w) && WorkerStep(step)
    ensures Kept(w, WorkerNext(w, step))
  {
    hide OncePosted, MailboxAgrees, SlotAgrees, Jobs, Distinct;
    WorkerKeepsOncePosted(w, step);
    WorkerKeepsMailbox(w, step);
    WorkerKeepsSlot(w, step);
    var event := if w.worker.Passed? && step.WorkerPosts?
      then Extraction(w.worker.request.attempt, w.worker.request.trigger, step.extracted)
      else Extraction(0, Manual, None);
    ExtractionEventKeepsJobs(w, WorkerNext(w, step), event);
  }

  lemma StreamKeepsHandoff(w: World, v: World)
    requires Handoff(w)
    requires v == w.(streams := v.streams, events := v.events, cancelledStreams := v.cancelledStreams)
    requires |w.events| <= |v.events| && v.events[..|w.events|] == w.events
    requires forall k :: |w.events| <= k < |v.events| ==> !v.events[k].Extraction?
    ensures Handoff(v)
  {
    assert forall k :: 0 <= k < |w.events| ==> v.events[k] == w.events[k];
  }

  lemma PostedKeepsJobs(w: World, job: nat, text: string)
    requires JobsAgree(w) && job in w.streams && !w.streams[job].finished
    ensures JobsAgree(Posted(w, job, text))
  {
    hide Flatten, QueuedText;
    if w.coordinator.active.Some? {
      QueuedSnoc(w.events, Delta(job, text), w.coordinator.active.value.id);
    }
    FlattenSnoc(w.streams[job].posted, text);
  }

  lemma EndedKeepsJobs(w: World, job: nat, result: StreamResult)
    requires JobsAgree(w) && job in w.streams && !w.streams[job].finished
    ensures JobsAgree(Ended(w, job, result))
  {
    hide Flatten, QueuedText;
    if w.coordinator.active.Some? {
      QueuedSnoc(w.events, Finished(job, result), w.coordinator.active.value.id);
    }
  }

  lemma StreamKeepsJobs(w: World, step: Step)
    requires JobsAgree(w) && StreamStep(step)
    ensures JobsAgree(StreamNext(w, step))
  {
    hide Posted, Ended;
    if !step.StreamToken? && step.job in w.streams && !w.streams[step.job].finished {
      if step.StreamPosts? {
        PostedKeepsJobs(w, step.job, step.text);
      } else {
        EndedKeepsJobs(w, step.job, step.result);
      }
    }
  }

  /** A stored result stays the whole of its stream: a finished stream is final. */
  lemma StreamKeepsResults(w: World, step: Step)
    requires ResultsAgree(w) && StreamStep(step)
    ensures ResultsAgree(StreamNext(w, step))
  {
    hide RecordsOf, StreamRecords, ResponseFormat.NormalizeTerminalResponse, Flatten;
    var v := StreamNext(w, step);
    forall i | 0 <= i < |v.cached| ensures IsResult(v, v.cached[i].0, v.cached[i].1) {
      assert IsResult(w, w.cached[i].0, w.cached[i].1);
    }
  }

  lemma StreamKeeps(w: World, step: Step)
    requires Inv(w) && StreamStep(step)
    ensures Kept(w, StreamNext(w, step))
  {
    hide Handoff, JobsAgree, ResultsAgree, Distinct;
    StreamKeepsHandoff(w, StreamNext(w, step));
    StreamKeepsJobs(w, step);
    StreamKeepsResults(w, step);
  }

  lemma PopupChangeKeeps(w: World, id: PopupId, pinned: bool, lost: bool)
    requires Inv(w)
    ensures Kept(w, w.(popups := ChangePopup(w.popups, id, pinned, lost)))
  {
    hide Handoff, Jobs, Distinct;
    var v := w.(popups := ChangePopup(w.popups, id, pinned, lost));
    FlagsKeepRegistry(w.popups, v.popups);
    PopupsQuiet(w, v.popups);
    QuieterKeepsHandoff(w, v);
    QuieterKeepsJobs(w, v);
  }

  // ------------------------------------------------------------------- runs

  lemma LoopKeeps(w: World, step: Step)
    requires Inv(w) && NoWrap(w) && !WorkerStep(step) && !StreamStep(step)
    ensures Kept(w, Next(w, step))
  {
    hide Inv, BeginRequest, HandleEvent, RemovePopup, Replay, SelectProfile, OutsideClick, CancelHoverExtraction,
         DisableHover, ForegroundChanged, SetRest, ConfigInvalid, ApplyConfig, RefreshProvider, WorkerNext, StreamNext,
         ChangePopup;
    match step {
      case Trigger(trigger, processId, promptId, source, native) =>
        BeginRequestKeeps(w, trigger, processId, promptId, source, native);
      case Pump(native, services) => HandleEventKeeps(w, native, services);
      case Dismissed(id) => RemovePopupKeeps(w, id); RemovedChoice(w, id);
      case Retry(id, promptId, native, services) => ReplayKeeps(w, id, promptId, native, services);
      case ProfileSelected(id, profile, stillConfigured, native, services) =>
        SelectProfileKeeps(w, id, profile, stillConfigured, native, services);
      case ClickedOutside(clicked) => DismissalsKeep(w, clicked, false, {});
      case HoverInvalidated => CancelHoverKeeps(w);
      case HoverDisabled => DismissalsKeep(w, None, false, {});
      case Foreground(isPopup, stale) => DismissalsKeep(w, None, isPopup, stale);
      case Rest(enabled) => SetRestKeeps(w, enabled);
      case InvalidConfig => ConfigurationKeeps(w, true, false);
      case NewConfig(startupError, refreshed) => ConfigurationKeeps(w, startupError, refreshed);
      case NewCredentials(startupError) => ConfigurationKeeps(w, startupError, false);
      case PopupChanged(id, pinned, lost) => PopupChangeKeeps(w, id, pinned, lost);
    }
  }

  lemma NextKeeps(w: World, step: Step)
    requires Inv(w) && NoWrap(w)
    ensures Kept(w, Next(w, step))
  {
    hide Inv, WorkerNext, StreamNext;
    if WorkerStep(step) {
      WorkerKeeps(w, step);
    } else if StreamStep(step) {
      StreamKeeps(w, step);
    } else {
      hide Next;
      LoopKeeps(w, step);
    }
  }

  lemma InitialInv(hasWorker: bool, startupError: bool)
    ensures Inv(Initial(hasWorker, startupError)) && Initial(hasWorker, startupError).coordinator.nextId == 1
  {
  }

  /** Every run of the message loop, its workers and its streams, in every
      interleaving and with every answer of the outside world, keeps the
      invariant, as long as it is too short to wrap the job ids. */
  lemma {:induction false} RunKeeps(w: World, steps: seq<Step>)
    requires Inv(w) && w.coordinator.nextId + |steps| + 1 < Coordinator.U64_LIMIT
    ensures Inv(Run(w, steps))
    ensures Run(w, steps).coordinator.nextId <= w.coordinator.nextId + |steps|
    decreases |steps|
  {
    hide Inv, Next;
    if steps != [] {
      NextKeeps(w, steps[0]);
      RunKeeps(Next(w, steps[0]), steps[1..]);
    }
  }

  function Reached(hasWorker: bool, startupError: bool, steps: seq<Step>): World {
    Run(Initial(hasWorker, startupError), steps)
  }

  ghost predicate Short(steps: seq<Step>) { |steps| + 3 < Coordinator.U64_LIMIT }

  lemma ReachedInv(hasWorker: bool, startupError: bool, steps: seq<Step>)
    requires Short(steps)
    ensures Inv(Reached(hasWorker, startupError, steps)) && NoWrap(Reached(hasWorker, startupError, steps))
  {
    hide Inv, Run;
    InitialInv(hasWorker, startupError);
    RunKeeps(Initial(hasWorker, startupError), steps);
  }

  // --------------------------------------------------------- main theorems

  /** Hand-off.  In every reachable world the attempt in the pending slot waits in
      the mailbox, runs uncancelled, or is already queued; the mailbox and the
      worker hold no other request that could still run to its end unnoticed;
      an event is consumed exactly when it names the attempt of the slot; and no two
      events, queued or consumed, name one attempt. */
  lemma HandoffHolds(hasWorker: bool, startupError: bool, steps: seq<Step>)
    requires Short(steps)
    ensures var w := Reached(hasWorker, startupError, steps);
            && (w.pending.Some? ==> Located(w, w.pending.value))
            && (w.mailbox.pending.Some? ==> w.pending.Some? && w.mailbox.pending.value.attempt == w.pending.value.attempt)
            && (w.worker.Running? || w.worker.Passed? ==>
                  || (w.pending.Some? && w.pending.value.attempt == w.worker.request.attempt)
                  || w.worker.request.attempt in w.stopped)
            && (w.events != [] && w.events[0].Extraction? ==>
                  && w.events[0].attempt !in w.taken
                  && (Matches(w.pending, w.events[0].attempt, w.events[0].trigger, w.generation)
                      <==> w.pending.Some? && w.pending.value.attempt == w.events[0].attempt))
            && (forall i, j :: 0 <= i < j < |w.taken| ==> w.taken[i] != w.taken[j])
            && (forall i, j :: 0 <= i < j < |w.events| && w.events[i].Extraction? && w.events[j].Extraction? ==>
                  w.events[i].attempt != w.events[j].attempt)
            && (forall i :: 0 <= i < |w.events| && w.events[i].Extraction? ==> w.events[i].attempt !in w.taken)
  {
    hide Jobs, Registry, Located, Matches, Reached;
    ReachedInv(hasWorker, startupError, steps);
    var w := Reached(hasWorker, startupError, steps);
    if w.events != [] && w.events[0].Extraction? {
      LiveSlotMatches(w);
    }
  }

  /** Stream integrity over runs.  Everything in the cache is the normalised whole
      of a finished stream, once per job; history has the same results in the same
      order; whatever a live presentation shows, with what is still queued for it,
      is all its worker posted; and every stream but the token's is cancelled or over. */
  lemma StreamsHold(hasWorker: bool, startupError: bool, steps: seq<Step>)
    requires Short(steps)
    ensures var w := Reached(hasWorker, startupError, steps);
            && (forall i :: 0 <= i < |w.cached| ==> IsResult(w, w.cached[i].0, w.cached[i].1))
            && (forall i, j :: 0 <= i < j < |w.cached| ==> w.cached[i].0 != w.cached[j].0)
            && StreamRecords(w.history) == RecordsOf(w.cached)
            && (forall j :: j in w.streams && Live(w, j) ==>
                  w.output + QueuedText(w.events, j) == Flatten(w.streams[j].posted))
            && (forall j :: j in w.streams && w.token != Some(j) ==> j in w.cancelledStreams || w.streams[j].finished)
  {
    hide Handoff, Registry, Reached, IsResult;
    ReachedInv(hasWorker, startupError, steps);
  }

  /** Accepting a success, in any reachable world: see AcceptedSuccess. */
  lemma SuccessIsWhole(hasWorker: bool, startupError: bool, steps: seq<Step>, native: Native, services: Services)
    requires Short(steps)
    requires var w := Reached(hasWorker, startupError, steps);
             && w.events != [] && w.events[0].Finished? && w.events[0].result == Success
             && Live(w, w.events[0].job) && w.output != ""
    ensures var w := Reached(hasWorker, startupError, steps);
            var job, v := w.events[0].job, Next(w, Pump(native, services));
            && job in w.streams && w.output == Flatten(w.streams[job].posted) && w.streams[job].finished
            && v.output == ResponseFormat.NormalizeTerminalResponse(w.streams[job].promptId, w.output)
            && v.cached == w.cached + [(job, v.output)] && (forall i :: 0 <= i < |w.cached| ==> w.cached[i].0 != job)
            && v.history == w.history + Recorded(v.output, job, false)
            && forall j :: j in v.streams && j != job ==> j in v.cancelledStreams || v.streams[j].finished
  {
    hide Inv, Reached, Live, HandleEvent, Recorded;
    ReachedInv(hasWorker, startupError, steps);
    AcceptedSuccess(Reached(hasWorker, startupError, steps), native, services);
  }

  /** Registry.  Over all runs ids are distinct and at most four popups are
      registered.  Asking for a surface stages a popup only when a new one was
      forced; the popup it would evict is completed, not pinned, not the source and
      not the active one, so committing it changes no job, token or stream, and the
      popup to present is registered afterwards. */
  lemma PopupsHold(hasWorker: bool, startupError: bool, steps: seq<Step>, spec: RequestSpec, native: Native)
    requires Short(steps)
    ensures var w := Reached(hasWorker, startupError, steps);
            && Distinct(w.popups) && |w.popups| <= MAX_VISIBLE_POPUPS
            && var (v, a) := EnsureSurface(w, spec, native);
            && (a.Some? && a.value.staged.Some? ==> ForcesNew(spec) && a.value.evict.Some?
                                                    && Evictable(v, a.value.evict.value, spec.source))
            && (a.Some? ==> && SameJob(v, CommitStaged(v, a.value)) && SameRest(v, CommitStaged(v, a.value))
                            && Registered(CommitStaged(v, a.value).popups, a.value.popupId)
                            && |CommitStaged(v, a.value).popups| <= MAX_VISIBLE_POPUPS)
  {
    hide Handoff, Jobs, Reached, EnsureSurface, CommitStaged, SameJob, SameRest, Registered, Distinct, Evictable;
    ReachedInv(hasWorker, startupError, steps);
    var w := Reached(hasWorker, startupError, steps);
    EnsureSurfaceEnsures(w, spec, native);
    var (v, a) := EnsureSurface(w, spec, native);
    if a.Some? {
      CommitStagedKeeps(v, a.value, spec.source);
      QuietRest(v, CommitStaged(v, a.value));
    }
  }

  lemma QuietRest(w: World, v: World)
    requires Quieter(w, v)
    ensures SameRest(w, v)
  {
  }
}
