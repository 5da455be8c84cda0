/**
 Which job the presentation follows.  Stream events count only for the active job
 whose number the presentation holds; two steps of the message loop change that
 number and leave the job active.  Such a job is lost: it streams to its end, its
 end is dropped, and it stays active until something cancels or replaces it.
 */
module Presentation {
  import opened Common
  import opened Normalize
  import opened Popups
  import opened Shell
  import opened ShellInvariants
  import opened ShellRuns
  import Coordinator
  import Mailbox

  /** The active job, if any, is the one presented. */
  predicate Presents(w: World) {
    w.coordinator.active.Some? ==> w.popupJob == Some(w.coordinator.active.value.id)
  }

  /** A surface for a message is found, and finding it spares the active job. */
  predicate TakesSurface(w: World, native: Native) {
    var (w1, a) := EnsurePopup(w, None, None, false, native);
    a.Some? && w1.coordinator.active.Some?
  }

  /** The two steps that part the presentation from the active job: the local error
      of a Manual trigger while the configuration is broken, and the profile chooser. */
  predicate Unpresents(w: World, step: Step) {
    match step
    case Trigger(trigger, _, _, _, native) =>
      trigger == Manual && !w.resting && w.startupError && TakesSurface(w, native)
    case Pump(native, services) =>
      && w.events != [] && w.events[0].Extraction?
      && Matches(w.pending, w.events[0].attempt, w.events[0].trigger, w.generation)
      && w.events[0].trigger == Selection && w.events[0].extracted.Some? && !w.startupError
      && services.promptId.Some? && native.choicesShown && TakesSurface(Consumed(w), native)
    case _ => false
  }

  // ------------------------------------------------------- effects on the job

  /** The job and its presentation stay together, or the job is gone. */
  ghost predicate Follows(w: World, v: World) {
    && v.cached == w.cached
    && (v.coordinator.active.None?
        || (v.coordinator.active == w.coordinator.active && v.popupJob == w.popupJob))
  }

  /** A new job is active and presented. */
  ghost predicate TakesOver(w: World, v: World) {
    && v.cached == w.cached
    && v.coordinator.active.Some? && v.coordinator.active.value.id == w.coordinator.nextId
    && v.popupJob == Some(w.coordinator.nextId)
  }

  /** The end of the presented job was accepted. */
  ghost predicate Ends(w: World, v: World) {
    && v.coordinator.active.None?
    && (v.cached == w.cached
        || (w.coordinator.active.Some? && Presents(w) && |v.cached| == |w.cached| + 1 && v.cached[..|w.cached|] == w.cached
            && v.cached[|w.cached|].0 == w.coordinator.active.value.id))
  }

  /** The job stays active, and the presentation holds a number no job has. */
  ghost predicate Parts(w: World, v: World) {
    && v.cached == w.cached && v.coordinator.active.Some? && v.coordinator.active == w.coordinator.active
    && (v.popupJob.None? || v.popupJob == Some(0))
  }

  lemma QuieterFollows(w: World, v: World)
    requires Quieter(w, v)
    ensures Follows(w, v) && v.coordinator.nextId == w.coordinator.nextId
    ensures v.coordinator.active == w.coordinator.active || v.coordinator.active.None?
  {
  }

  lemma FollowsTrans(u: World, v: World, w: World)
    requires Follows(u, v) && v.coordinator.nextId == u.coordinator.nextId
    ensures Follows(v, w) ==> Follows(u, w)
    ensures TakesOver(v, w) ==> TakesOver(u, w)
  {
  }

  lemma ErrorEffect(w: World, job: nat, native: Native)
    requires Registry(w)
    ensures var v := ShowLocalError(w, job, native);
            && (w.coordinator.active.None? ==> Follows(w, v))
            && (job == 0 ==> if TakesSurface(w, native) then Parts(w, v) else Follows(w, v))
  {
    hide Quieter, EnsurePopup, Sound, Registry;
    EnsurePopupEnsures(w, None, None, false, native);
    var (u, a) := EnsurePopup(w, None, None, false, native);
    QuieterFollows(w, u);
    QuieterFacts(w, u);
    if a.Some? {
      assert a.value.staged.None?;
    }
  }

  lemma AdmitEffect(w: World, pending: PendingAttempt, text: TextContext, native: Native, services: Services)
    requires Inv(w) && w.pending.None? && NoWrap(w)
    requires pending.spec.trigger == Manual ==> w.coordinator.active.None?
    ensures var v := Admit(w, pending, text, native, services); Follows(w, v) || TakesOver(w, v)
  {
    hide Handoff, Jobs, Registry, Sound, Commit, EnsureSurface, ShowLocalError, Quieter, SourceReady,
         Coordinator.FingerprintOf, PresentsStaged;
    var spec := pending.spec;
    ErrorEffect(w, pending.attempt, native);
    if services.promptId.Some? {
      var candidate := CandidateOf(spec, text, spec.promptId, services.now);
      var (w1, surface) := EnsureSurface(w, spec, native);
      EnsureSurfaceEnsures(w, spec, native);
      QuieterKeepsInv(w, w1);
      QuieterFacts(w, w1);
      QuieterFollows(w, w1);
      if Coordinator.CanStart(w.coordinator, false, candidate).Ok? && surface.Some?
         && PresentsStaged(w1.popups, surface.value, native)
      {
        CommitEffect(w1, surface.value, spec, text, services, services.now);
      }
    }
  }

  lemma CancelEffect(w: World)
    ensures Follows(w, CancelPending(w)) && CancelPending(w).coordinator == w.coordinator
    ensures CancelPending(w).popupJob == w.popupJob
    ensures CancelInflight(w).coordinator.active.None? && CancelInflight(w).cached == w.cached
    ensures CancelInflight(w).coordinator.nextId == w.coordinator.nextId
  {
  }

  lemma RemoveEffect(w: World, id: PopupId)
    ensures Follows(w, RemovePopup(w, id)) && RemovePopup(w, id).coordinator.nextId == w.coordinator.nextId
  {
    hide Quieter, RemovePopup;
    RemovePopupQuieter(w, id);
    QuieterFollows(w, RemovePopup(w, id));
  }

  lemma {:induction false} RemoveAllEffect(w: World, ids: seq<PopupId>)
    ensures Follows(w, RemoveAll(w, ids)) && RemoveAll(w, ids).coordinator.nextId == w.coordinator.nextId
    decreases |ids|
  {
    hide RemovePopup;
    if ids != [] {
      var u := RemovePopup(w, ids[0]);
      RemoveEffect(w, ids[0]);
      RemoveAllEffect(u, ids[1..]);
      FollowsTrans(w, u, RemoveAll(u, ids[1..]));
    }
  }

  lemma BeginEffect(w: World, trigger: Trigger, processId: nat, promptId: string, source: Option<PopupId>, native: Native)
    requires Inv(w)
    ensures var v := BeginRequest(w, trigger, processId, promptId, source, native);
            if trigger == Manual && !w.resting && w.startupError && TakesSurface(w, native) then Parts(w, v) else Follows(w, v)
  {
    hide RemovePopup, CancelPending, CancelInflight, ShowLocalError, TakesSurface, Handoff, Jobs, Follows, Parts, Submit;
    ErrorEffect(w, 0, native);
    Unchanged(w);
    if !w.resting && !w.startupError && !(w.choice.Some? && trigger == Hover) {
      var w1 := if w.choice.Some? then RemovePopup(w, w.choice.value.popupId) else w;
      if w.choice.Some? {
        RemoveEffect(w, w.choice.value.popupId);
      }
      var spec := RequestSpec(trigger, processId, promptId, false, if trigger == Hover then source else None, None);
      CancelledFollows(w, w1, spec);
    }
  }

  lemma CancelledFollows(w: World, w1: World, spec: RequestSpec)
    requires Follows(w, w1)
    ensures Follows(w, Submit(CancelInflight(w1), spec)) && Follows(w, Submit(CancelPending(w1), spec))
  {
    hide CancelInflight, CancelPending;
    CancelEffect(w1);
  }

  lemma OfferEffect(w: World, pending: PendingAttempt, text: TextContext, native: Native, services: Services)
    requires Inv(w)
    ensures var v := OfferChoices(w, pending, text, native, services);
            if services.promptId.Some? && native.choicesShown && TakesSurface(w, native) then Parts(w, v) else Follows(w, v)
  {
    hide Quieter, EnsurePopup, RemovePopup, Handoff, Jobs, Distinct;
    var (u, a) := EnsurePopup(w, None, None, false, native);
    EnsurePopupEnsures(w, None, None, false, native);
    QuieterFollows(w, u);
    if a.Some? {
      assert Registered(u.popups, a.value.popupId);
      RemoveEffect(u, a.value.popupId);
      FollowsTrans(w, u, RemovePopup(u, a.value.popupId));
    }
  }

  lemma ExtractionEffect(w: World, native: Native, services: Services)
    requires Inv(w) && NoWrap(w) && w.events != [] && w.events[0].Extraction?
    ensures var v := HandleEvent(w, native, services);
            if Unpresents(w, Pump(native, services)) then Parts(w, v) else Follows(w, v) || TakesOver(w, v)
  {
    hide Inv, Admit, OfferChoices, ReportIfManual, Matches, TakesSurface, Follows, TakesOver, Parts, NoWrap;
    var event, v := w.events[0], HandleEvent(w, native, services);
    InvParts(w);
    LiveSlotMatches(w);
    if Matches(w.pending, event.attempt, event.trigger, w.generation) {
      var pending, w1 := w.pending.value, Consumed(w);
      MatchTrigger(w.pending, event.attempt, event.trigger, w.generation);
      ConsumedKeeps(w);
      ConsumedEffect(w, v);
      NoWrapAfter(w, w1);
      ReportEffect(w1, pending, native);
      if event.extracted.Some? {
        OfferEffect(w1, pending, event.extracted.value, native, services);
        AdmitEffect(w1, pending, event.extracted.value, native, services);
      }
    } else {
      PoppedEffect(w);
    }
  }

  lemma NoWrapAfter(w: World, v: World)
    requires NoWrap(w) && v.coordinator == w.coordinator
    ensures NoWrap(v)
  {
  }

  lemma PoppedEffect(w: World)
    requires w.events != []
    ensures Follows(w, Popped(w))
  {
  }

  lemma ConsumedEffect(w: World, v: World)
    requires w.events != [] && w.events[0].Extraction?
    ensures Follows(Consumed(w), v) ==> Follows(w, v)
    ensures TakesOver(Consumed(w), v) ==> TakesOver(w, v)
    ensures Parts(Consumed(w), v) ==> Parts(w, v)
    ensures Consumed(w).coordinator == w.coordinator && Consumed(w).startupError == w.startupError
    ensures Consumed(w).pending.None?
  {
  }

  lemma ReportEffect(w: World, pending: PendingAttempt, native: Native)
    requires Inv(w) && (pending.spec.trigger == Manual ==> w.coordinator.active.None?)
    ensures Follows(w, ReportIfManual(w, pending, native))
  {
    hide Handoff, Jobs, Registry, ShowLocalError;
    ErrorEffect(w, pending.attempt, native);
  }

  lemma DeltaEffect(w: World, native: Native, services: Services)
    requires w.events != [] && w.events[0].Delta?
    ensures Follows(w, HandleEvent(w, native, services))
  {
  }

  lemma EndEffects(w: World, native: Native, services: Services)
    requires Inv(w) && w.events != [] && w.events[0].Finished?
    ensures var v := HandleEvent(w, native, services); Follows(w, v) || Ends(w, v)
    ensures Live(w, w.events[0].job) ==>
              var v := HandleEvent(w, native, services);
              && v.coordinator.active.None?
              && (|v.cached| > |w.cached| <==> w.events[0].result == Success && w.output != "")
    ensures !Live(w, w.events[0].job) ==> HandleEvent(w, native, services) == Popped(w)
  {
    hide Handoff, JobsAgree, ResultsAgree, Registry, HandleEvent, Flatten, IsResult, Recorded;
    var job := w.events[0].job;
    if Live(w, job) {
      AllShown(w);
      FinishedEffect(w, native, services);
      if w.events[0].result == Success && w.output != "" {
        AcceptedSuccess(w, native, services);
      }
    } else {
      DeadEndIgnored(w, native, services);
    }
  }

  // ------------------------------------------------------------- every step

  /** After a cancellation only a new job can be active. */
  lemma IdleFollows(w: World, u: World, v: World)
    requires u.coordinator.active.None? && u.coordinator.nextId == w.coordinator.nextId && u.cached == w.cached
    ensures Follows(u, v) ==> Follows(w, v)
    ensures TakesOver(u, v) ==> TakesOver(w, v)
  {
  }

  lemma ReplayEffect(w: World, id: PopupId, promptId: string, native: Native, services: Services)
    requires Inv(w) && NoWrap(w)
    ensures var v := Replay(w, id, promptId, native, services); Follows(w, v) || TakesOver(w, v)
  {
    hide Inv, Admit, CancelInflight, Follows, TakesOver;
    CancelKeeps(w);
    CancelEffect(w);
    Unchanged(w);
    var popup := Find(w.popups, id);
    if popup.Some? && popup.value.admitted.Some? {
      var (spec, text) := popup.value.admitted.value;
      var again := spec.(promptId := promptId, bypassDuplicates := true, source := None, destination := Some(id));
      var pending := PendingAttempt(0, again, w.generation);
      AdmitEffect(CancelInflight(w), pending, text, native, services);
      IdleFollows(w, CancelInflight(w), Admit(CancelInflight(w), pending, text, native, services));
    }
  }

  lemma Unchanged(w: World)
    ensures Follows(w, w) && Follows(w, w.(choice := None))
  {
  }

  lemma SelectEffect(w: World, id: PopupId, promptId: Option<string>, stillConfigured: bool, native: Native,
                     services: Services)
    requires Inv(w) && NoWrap(w)
    ensures var v := SelectProfile(w, id, promptId, stillConfigured, native, services); Follows(w, v) || TakesOver(w, v)
  {
    hide Inv, Admit, RemovePopup, Follows, TakesOver;
    Unchanged(w);
    if w.choice.Some? && w.choice.value.popupId == id && promptId.Some?
       && w.choice.value.pending.generation == w.generation
    {
      var choice, w1 := w.choice.value, w.(choice := None);
      ChoiceTaken(w);
      RemoveEffect(w1, id);
      FollowsTrans(w, w1, RemovePopup(w1, id));
      var spec := choice.pending.spec.(promptId := promptId.value, bypassDuplicates := true, destination := Some(id));
      AdmitEffect(w1, choice.pending.(spec := spec), choice.text, native, services);
      FollowsTrans(w, w1, Admit(w1, choice.pending.(spec := spec), choice.text, native, services));
    }
  }

  lemma DismissalEffects(w: World, clicked: Option<PopupId>, isPopup: bool, stale: set<PopupId>)
    ensures Follows(w, OutsideClick(w, clicked)) && Follows(w, DisableHover(w))
    ensures Follows(w, ForegroundChanged(w, isPopup, stale)) && Follows(w, CancelHoverExtraction(w))
  {
    hide RemoveAll, CancelPending;
    CancelEffect(w);
    var w1 := CancelHoverExtraction(w);
    var hover := Matching(w1.popups, (p: Popup) => p.presented == Some(Hover));
    var guarded := Matching(w1.popups, (p: Popup) => p.presented == Some(Hover) && !p.pinned && p.id in stale);
    RemoveAllEffect(w, Matching(w.popups, (p: Popup) => Some(p.id) != clicked && !p.pinned));
    RemoveAllEffect(w1, hover);
    RemoveAllEffect(w1, guarded);
    FollowsTrans(w, w1, RemoveAll(w1, hover));
    FollowsTrans(w, w1, RemoveAll(w1, guarded));
  }

  lemma ResetEffects(w: World, enabled: bool, startupError: bool, refreshed: bool)
    ensures Follows(w, SetRest(w, enabled)) && Follows(w, ConfigInvalid(w))
    ensures Follows(w, ApplyConfig(w, startupError, refreshed)) && Follows(w, RefreshProvider(w, startupError))
  {
    hide RemoveAll, RemovePopup, CancelInflight;
    CancelEffect(w.(resting := enabled));
    var rested := CancelInflight(w.(resting := enabled)).(choice := None, popupJob := None);
    RemoveAllEffect(rested, Matching(rested.popups, (p: Popup) => true));
    CancelEffect(w.(generation := w.generation + 1, startupError := true));
    CloseChoiceEffect(CancelInflight(w.(generation := w.generation + 1, startupError := true)));
    CancelEffect(w.(generation := w.generation + 1));
    var renewed := CancelInflight(w.(generation := w.generation + 1)).(startupError := startupError);
    CloseChoiceEffect(renewed);
    if renewed.choice.Some? {
      RemoveEffect(renewed, renewed.choice.value.popupId);
    }
  }

  lemma CloseChoiceEffect(w: World)
    ensures Follows(w, CloseChoice(w))
  {
    hide RemovePopup;
    if w.choice.Some? {
      RemoveEffect(w.(choice := None), w.choice.value.popupId);
    }
  }

  lemma WorkerEffect(w: World, step: Step)
    requires WorkerStep(step)
    ensures Follows(w, Next(w, step)) && !Unpresents(w, step)
  {
  }

  lemma StreamEffect(w: World, step: Step)
    requires StreamStep(step)
    ensures Follows(w, Next(w, step)) && !Unpresents(w, step)
  {
  }

  lemma PumpEffect(w: World, native: Native, services: Services)
    requires Inv(w) && NoWrap(w)
    ensures var v := HandleEvent(w, native, services);
            if Unpresents(w, Pump(native, services)) then Parts(w, v) else Follows(w, v) || TakesOver(w, v) || Ends(w, v)
  {
    hide Inv, HandleEvent, Follows, TakesOver, Ends, Parts;
    Unchanged(w);
    if w.events == [] {
      NothingQueued(w, native, services);
    } else if w.events[0].Extraction? {
      ExtractionEffect(w, native, services);
    } else if w.events[0].Delta? {
      DeltaEffect(w, native, services);
    } else {
      EndEffects(w, native, services);
    }
  }

  /** What a step does to the active job and its presentation. */
  lemma StepEffect(w: World, step: Step)
    requires Inv(w) && NoWrap(w)
    ensures var v := Next(w, step);
            if Unpresents(w, step) then Parts(w, v) else Follows(w, v) || TakesOver(w, v) || Ends(w, v)
  {
    hide Next, Unpresents, Follows, TakesOver, Ends, Parts, Inv, NoWrap;
    if WorkerStep(step) {
      WorkerEffect(w, step);
    } else if StreamStep(step) {
      StreamEffect(w, step);
    } else {
      LoopEffect(w, step);
    }
  }

  lemma LoopEffect(w: World, step: Step)
    requires Inv(w) && NoWrap(w) && !WorkerStep(step) && !StreamStep(step)
    ensures var v := Next(w, step);
            if Unpresents(w, step) then Parts(w, v) else Follows(w, v) || TakesOver(w, v) || Ends(w, v)
  {
    hide Inv, BeginRequest, HandleEvent, RemovePopup, Replay, SelectProfile, OutsideClick, CancelHoverExtraction,
         DisableHover, ForegroundChanged, SetRest, ConfigInvalid, ApplyConfig, RefreshProvider, WorkerNext, StreamNext,
         ChangePopup, Follows, TakesOver, Ends, Parts, TakesSurface, Matches;
    match step {
      case Trigger(trigger, processId, promptId, source, native) =>
        BeginEffect(w, trigger, processId, promptId, source, native);
      case Pump(native, services) => PumpEffect(w, native, services);
      case Dismissed(id) => RemoveEffect(w, id);
      case Retry(id, promptId, native, services) => ReplayEffect(w, id, promptId, native, services);
      case ProfileSelected(id, profile, stillConfigured, native, services) =>
        SelectEffect(w, id, profile, stillConfigured, native, services);
      case ClickedOutside(clicked) => DismissalEffects(w, clicked, false, {});
      case HoverInvalidated => DismissalEffects(w, None, false, {});
      case HoverDisabled => DismissalEffects(w, None, false, {});
      case Foreground(isPopup, stale) => DismissalEffects(w, None, isPopup, stale);
      case Rest(enabled) => ResetEffects(w, enabled, false, false);
      case InvalidConfig => ResetEffects(w, false, false, false);
      case NewConfig(startupError, refreshed) => ResetEffects(w, false, startupError, refreshed);
      case NewCredentials(startupError) => ResetEffects(w, false, startupError, false);
      case PopupChanged(id, pinned, lost) => RegistryOnly(w, ChangePopup(w.popups, id, pinned, lost));
    }
  }

  lemma RegistryOnly(w: World, popups: seq<Popup>)
    ensures Follows(w, w.(popups := popups))
  {
  }

  // ----------------------------------------------------------- main results

  lemma ActiveIdPositive(w: World)
    requires Inv(w) && w.coordinator.active.Some?
    ensures 1 <= w.coordinator.active.value.id < w.coordinator.nextId
  {
    hide Handoff, Registry, ResultsAgree, EventsAgree, ShownAgrees;
    assert ActiveAgrees(w) && IdsAgree(w);
  }

  /** While the active job is presented, a step parts the two exactly if it is one of
      the two steps named above. */
  lemma PresentationKept(w: World, step: Step)
    requires Inv(w) && NoWrap(w) && Presents(w)
    ensures Presents(Next(w, step)) <==> !Unpresents(w, step)
  {
    hide Inv, Next, Unpresents, NoWrap;
    StepEffect(w, step);
    if w.coordinator.active.Some? {
      ActiveIdPositive(w);
    }
  }

  /** The end of the active job, at the head of the queue, is accepted exactly if the
      presentation holds the job's number; otherwise it is dropped and the job stays
      active.  Its text is stored exactly if it is accepted as a success with text. */
  lemma EndAcceptedIff(w: World, native: Native, services: Services)
    requires Inv(w) && w.events != [] && w.events[0].Finished?
    requires w.coordinator.active.Some? && w.coordinator.active.value.id == w.events[0].job
    ensures var job, v := w.events[0].job, Next(w, Pump(native, services));
            && job in w.streams
            && (v.coordinator.active.None? <==> w.popupJob == Some(job))
            && (w.popupJob != Some(job) ==> v == w.(events := w.events[1..]))
            && (|v.cached| > |w.cached| <==>
                  w.popupJob == Some(job) && w.events[0].result == Success && Flatten(w.streams[job].posted) != "")
  {
    hide Handoff, Registry, ResultsAgree, EventsAgree, ShownAgrees, HandleEvent;
    EndEffects(w, native, services);
    if Live(w, w.events[0].job) {
      AllShown(w);
    }
  }

  /** Job `job` was started, and its presentation is lost or over without a result. */
  ghost predicate Lost(w: World, job: nat) {
    && 1 <= job < w.coordinator.nextId
    && (forall i :: 0 <= i < |w.cached| ==> w.cached[i].0 != job)
    && (w.coordinator.active.Some? && w.coordinator.active.value.id == job ==> w.popupJob != Some(job))
  }

  lemma LostStays(w: World, step: Step, job: nat)
    requires Inv(w) && NoWrap(w) && Lost(w, job)
    ensures Lost(Next(w, step), job)
  {
    hide Inv, Next, Unpresents, NoWrap;
    StepEffect(w, step);
    NextKeeps(w, step);
    var v := Next(w, step);
    if v.cached != w.cached {
      assert Ends(w, v);
      forall i | 0 <= i < |v.cached| ensures v.cached[i].0 != job {
        assert i < |w.cached| ==> v.cached[i] == v.cached[..|w.cached|][i] == w.cached[i];
      }
    }
  }

  /** No step gives a lost job its presentation back: over every further run its
      result is never stored. */
  lemma {:induction false} LostForGood(w: World, steps: seq<Step>, job: nat)
    requires Inv(w) && w.coordinator.nextId + |steps| + 1 < Coordinator.U64_LIMIT && Lost(w, job)
    ensures Lost(Run(w, steps), job)
    decreases |steps|
  {
    hide Inv, Next, Lost;
    if steps != [] {
      LostStays(w, steps[0], job);
      NextKeeps(w, steps[0]);
      LostForGood(Next(w, steps[0]), steps[1..], job);
    }
  }

  /** Either of the two steps loses the job it leaves active. */
  lemma UnpresentedIsLost(w: World, step: Step)
    requires Inv(w) && NoWrap(w) && Presents(w) && Unpresents(w, step)
    ensures var v := Next(w, step);
            v.coordinator.active.Some? && v.coordinator.active == w.coordinator.active
            && Lost(v, v.coordinator.active.value.id)
  {
    hide Handoff, Registry, JobsAgree, Next, Unpresents;
    StepEffect(w, step);
    NextKeeps(w, step);
    ActiveIdPositive(w);
  }

  // ------------------------------------------------------ a run that gets stuck

  const WINDOWS := Native(true, true, true, true, true, true, true, true, true)
  const TEXT := TextContext("word", None, UiaSelection, None)
  const SERVICES := Services(Some("p"), None, true, 0, 0)

  /** A selection, and the extraction worker's whole turn with it. */
  function Select(): seq<Step> {
    [Trigger(Selection, 7, "p", None, WINDOWS), WorkerTakes, WorkerPasses, WorkerPosts(Some(TEXT)), WorkerEnds]
  }

  /** A selection whose profile is chosen, so that it streams; a second selection, which
      opens the chooser again; and then the stream delivers its text and ends well. */
  function StuckSteps(): seq<Step> {
    (Select() + [Pump(WINDOWS, SERVICES)]) + ([ProfileSelected(1, Some("p"), true, WINDOWS, SERVICES)]
    + ((Select() + [Pump(WINDOWS, SERVICES)]) + ([StreamPosts(1, "text"), StreamEnds(1, Success)]
    + [Pump(WINDOWS, SERVICES), Pump(WINDOWS, SERVICES)])))
  }

  lemma {:induction false} RunConcat(w: World, a: seq<Step>, b: seq<Step>)
    ensures Run(w, a + b) == Run(Run(w, a), b)
    decreases |a|
  {
    hide Next;
    if a == [] {
      assert a + b == b;
    } else {
      assert (a + b)[0] == a[0] && (a + b)[1..] == a[1..] + b;
      RunConcat(Next(w, a[0]), a[1..], b);
    }
  }

  lemma RunTwo(w: World, a: Step, b: Step)
    ensures Run(w, [a, b]) == Next(Next(w, a), b)
  {
    hide Next;
    assert [a, b][1..] == [b] && [b][1..] == [];
    assert Run(Next(w, a), [b]) == Run(Next(Next(w, a), b), []);
  }

  lemma RunThree(w: World, a: Step, b: Step, c: Step)
    ensures Run(w, [a, b, c]) == Next(Next(Next(w, a), b), c)
  {
    hide Next;
    assert [a, b, c][1..] == [b, c];
    RunTwo(Next(w, a), b, c);
  }

  lemma RunFive(w: World, a: Step, b: Step, c: Step, d: Step, e: Step)
    ensures Run(w, [a, b, c, d, e]) == Next(Next(Next(Next(Next(w, a), b), c), d), e)
  {
    RunThree(Next(Next(w, a), b), c, d, e);
    hide Next;
    assert [a, b, c, d, e][1..] == [b, c, d, e] && [b, c, d, e][1..] == [c, d, e];
  }

  /** A world at rest between two turns of the extraction worker. */
  ghost predicate Ready(w: World) {
    && !w.resting && !w.startupError && w.hasWorker && w.choice.None? && w.pending.None? && w.events == []
    && w.worker == Idle && w.mailbox == Mailbox.EMPTY && w.nextAttempt !in w.stopped
    && (w.coordinator.active.Some? ==> w.coordinator.active.value.trigger == Selection)
  }

  function Selected(w: World): PendingAttempt {
    PendingAttempt(w.nextAttempt, RequestSpec(Selection, 7, "p", false, None, None), w.generation)
  }

  lemma SelectSubmits(w: World)
    requires Ready(w)
    ensures Next(w, Trigger(Selection, 7, "p", None, WINDOWS))
         == w.(nextAttempt := w.nextAttempt + 1, pending := Some(Selected(w)),
               mailbox := Mailbox.State(Some(Mailbox.Request(w.nextAttempt, Selection)), None, false))
  {
    assert w.stopped + {} == w.stopped;
  }

  /** What selecting does, whatever else the world holds. */
  lemma SelectPosts(w: World)
    requires Ready(w)
    ensures Run(w, Select())
         == w.(nextAttempt := w.nextAttempt + 1, pending := Some(Selected(w)),
               events := [Extraction(w.nextAttempt, Selection, Some(TEXT))])
  {
    hide Next, Ready;
    var request := Mailbox.Request(w.nextAttempt, Selection);
    SelectSubmits(w);
    TurnPosts(Next(w, Trigger(Selection, 7, "p", None, WINDOWS)), request, TEXT) by { ReadyParts(w); }
    RunFive(w, Trigger(Selection, 7, "p", None, WINDOWS), WorkerTakes, WorkerPasses, WorkerPosts(Some(TEXT)), WorkerEnds);
    ReadyParts(w);
    assert [] + [Extraction(w.nextAttempt, Selection, Some(TEXT))] == [Extraction(w.nextAttempt, Selection, Some(TEXT))];
  }

  lemma ReadyParts(w: World)
    requires Ready(w)
    ensures w.hasWorker && w.worker == Idle && w.mailbox == Mailbox.EMPTY && w.nextAttempt !in w.stopped && w.events == []
  {
  }

  /** The extraction worker's turn with a request that nobody cancels. */
  lemma TurnPosts(w: World, request: Mailbox.Request, text: TextContext)
    requires w.hasWorker && w.worker == Idle && w.mailbox == Mailbox.State(Some(request), None, false)
    requires request.attempt !in w.stopped
    ensures Next(Next(Next(Next(w, WorkerTakes), WorkerPasses), WorkerPosts(Some(text))), WorkerEnds)
         == w.(mailbox := Mailbox.EMPTY, events := w.events + [Extraction(request.attempt, request.trigger, Some(text))])
  {
    var w2 := w.(mailbox := Mailbox.State(None, Some(request.attempt), false), worker := Running(request));
    var w3 := w2.(worker := Passed(request));
    TurnStarts(w, request);
    TurnEnds(w3, request, text);
  }

  lemma TurnStarts(w: World, request: Mailbox.Request)
    requires w.hasWorker && w.worker == Idle && w.mailbox == Mailbox.State(Some(request), None, false)
    requires request.attempt !in w.stopped
    ensures Next(Next(w, WorkerTakes), WorkerPasses)
         == w.(mailbox := Mailbox.State(None, Some(request.attempt), false), worker := Passed(request))
  {
    assert Next(w, WorkerTakes)
        == w.(mailbox := Mailbox.State(None, Some(request.attempt), false), worker := Running(request));
  }

  lemma TurnEnds(w: World, request: Mailbox.Request, text: TextContext)
    requires w.worker == Passed(request) && w.mailbox == Mailbox.State(None, Some(request.attempt), false)
    ensures Next(Next(w, WorkerPosts(Some(text))), WorkerEnds)
         == w.(mailbox := Mailbox.EMPTY, worker := Idle,
               events := w.events + [Extraction(request.attempt, request.trigger, Some(text))])
  {
    assert Next(w, WorkerPosts(Some(text)))
        == w.(worker := Ending(request.attempt),
              events := w.events + [Extraction(request.attempt, request.trigger, Some(text))]);
  }

  /** The worlds on the way. */
  function Fresh(): World { Initial(true, false) }

  function Choosing(): World {
    Fresh().(nextAttempt := 2, popups := [NewPopup(1, None)], nextPopupId := 2, taken := [1],
             choice := Some(ProfileChoice(1, Selected(Fresh()), TEXT)))
  }

  const CHOSEN := RequestSpec(Selection, 7, "p", true, None, Some(1))

  function Streaming(): World {
    Choosing().(choice := None, popups := [Popup(1, false, false, None, Some(Selection), Some((CHOSEN, TEXT)))],
                coordinator := Coordinator.Core(2, Some(Coordinator.JobInput(1, Selection, TEXT, "p")), None),
                activePopup := Some(1), popupJob := Some(1), token := Some(1),
                request := Some(ActiveRequest(7, TEXT, "p")), streams := map[1 := Stream("p", [], false)])
  }

  function ChoosingAgain(): World {
    Streaming().(nextAttempt := 3, taken := [1, 2], popupJob := None,
                 choice := Some(ProfileChoice(1, Selected(Streaming()), TEXT)))
  }

  function Stuck(): World {
    ChoosingAgain().(streams := map[1 := Stream("p", ["text"], true)])
  }

  lemma FirstChooser()
    ensures Run(Fresh(), Select() + [Pump(WINDOWS, SERVICES)]) == Choosing()
  {
    var w := Fresh();
    var posted := w.(nextAttempt := 2, pending := Some(Selected(w)), events := [Extraction(1, Selection, Some(TEXT))]);
    SelectPosts(w);
    hide Next, Run;
    RunConcat(w, Select(), [Pump(WINDOWS, SERVICES)]);
    RunOne(posted, Pump(WINDOWS, SERVICES));
    ChooserOpens(posted, w);
  }

  lemma RunOne(w: World, step: Step)
    ensures Run(w, [step]) == Next(w, step)
  {
    hide Next;
    assert [step][1..] == [] && Run(Next(w, step), []) == Next(w, step);
  }

  lemma ChooserOpens(posted: World, w: World)
    requires w == Fresh()
    requires posted == w.(nextAttempt := 2, pending := Some(Selected(w)), events := [Extraction(1, Selection, Some(TEXT))])
    ensures Next(posted, Pump(WINDOWS, SERVICES)) == Choosing()
  {
    assert !Registered([], 1) && Registered([NewPopup(1, None)], 1) by { assert [NewPopup(1, None)][0].id == 1; }
    assert [] + [1] == [1] && posted.events[1..] == [];
    assert [] + [NewPopup(1, None)] == [NewPopup(1, None)];
  }

  lemma ProfileStreams()
    ensures Next(Choosing(), ProfileSelected(1, Some("p"), true, WINDOWS, SERVICES)) == Streaming()
  {
    hide Admit;
    ProfileAdmitted(Choosing().(choice := None));
  }

  lemma ProfileAdmitted(w: World)
    requires w == Choosing().(choice := None)
    ensures Admit(w, Selected(Fresh()).(spec := CHOSEN), TEXT, WINDOWS, SERVICES) == Streaming()
  {
    var candidate := CandidateOf(CHOSEN, TEXT, "p", 0);
    var admission := Admission(1, false, None, None);
    assert EnsureSurface(w, CHOSEN, WINDOWS) == (w, Some(admission)) by {
      assert Registered(w.popups, 1) by { assert w.popups[0].id == 1; }
    }
    StreamStarts(w, candidate, admission);
  }

  lemma StreamStarts(w: World, candidate: Coordinator.Candidate, admission: Admission)
    requires w == Choosing().(choice := None) && candidate == CandidateOf(CHOSEN, TEXT, "p", 0)
    requires admission == Admission(1, false, None, None)
    ensures Commit(w.(coordinator := Coordinator.Started(w.coordinator, candidate)), admission, CHOSEN, TEXT, SERVICES)
         == Streaming()
  {
    assert w.popups[1..] == [];
  }

  lemma ChooserOpensAgain(posted: World)
    requires posted == Streaming().(nextAttempt := 3, pending := Some(Selected(Streaming())),
                                    events := [Extraction(2, Selection, Some(TEXT))])
    ensures Next(posted, Pump(WINDOWS, SERVICES)) == ChoosingAgain()
  {
    assert Registered(posted.popups, 1) by { assert posted.popups[0].id == 1; }
    assert [1] + [2] == [1, 2] && posted.events[1..] == [];
  }

  lemma StreamDelivers()
    ensures Run(ChoosingAgain(), [StreamPosts(1, "text"), StreamEnds(1, Success)])
         == Stuck().(events := [Delta(1, "text"), Finished(1, Success)])
  {
    var w := ChoosingAgain();
    RunTwo(w, StreamPosts(1, "text"), StreamEnds(1, Success));
    StreamTells(w);
  }

  lemma StreamTells(w: World)
    requires w.streams == map[1 := Stream("p", [], false)] && w.events == []
    ensures Next(Next(w, StreamPosts(1, "text")), StreamEnds(1, Success))
         == w.(streams := map[1 := Stream("p", ["text"], true)], events := [Delta(1, "text"), Finished(1, Success)])
  {
    FirstDelta(w);
    StreamCloses(w.(streams := map[1 := Stream("p", ["text"], false)], events := [Delta(1, "text")]));
  }

  lemma FirstDelta(w: World)
    requires w.streams == map[1 := Stream("p", [], false)] && w.events == []
    ensures Next(w, StreamPosts(1, "text"))
         == w.(streams := map[1 := Stream("p", ["text"], false)], events := [Delta(1, "text")])
  {
    hide Posted;
    PostedFirst(w);
  }

  lemma PostedFirst(w: World)
    requires w.streams == map[1 := Stream("p", [], false)] && w.events == []
    ensures Posted(w, 1, "text")
         == w.(streams := map[1 := Stream("p", ["text"], false)], events := [Delta(1, "text")])
  {
    assert [] + ["text"] == ["text"];
    assert w.streams[1 := Stream("p", ["text"], false)] == map[1 := Stream("p", ["text"], false)];
    assert [] + [Delta(1, "text")] == [Delta(1, "text")];
  }

  lemma StreamCloses(w: World)
    requires w.streams == map[1 := Stream("p", ["text"], false)] && w.events == [Delta(1, "text")]
    ensures Next(w, StreamEnds(1, Success))
         == w.(streams := map[1 := Stream("p", ["text"], true)], events := [Delta(1, "text"), Finished(1, Success)])
  {
    hide Ended;
    EndedThen(w);
  }

  lemma EndedThen(w: World)
    requires w.streams == map[1 := Stream("p", ["text"], false)] && w.events == [Delta(1, "text")]
    ensures Ended(w, 1, Success)
         == w.(streams := map[1 := Stream("p", ["text"], true)], events := [Delta(1, "text"), Finished(1, Success)])
  {
    assert w.streams[1 := Stream("p", ["text"], true)] == map[1 := Stream("p", ["text"], true)];
    assert [Delta(1, "text")] + [Finished(1, Success)] == [Delta(1, "text"), Finished(1, Success)];
  }

  /** Stream events of a job that is not presented are dropped. */
  lemma Dropped(w: World, native: Native, services: Services)
    requires w.events != [] && !w.events[0].Extraction? && w.popupJob.None?
    ensures Next(w, Pump(native, services)) == w.(events := w.events[1..])
  {
  }

  lemma StreamIsDropped()
    ensures Run(Stuck().(events := [Delta(1, "text"), Finished(1, Success)]), [Pump(WINDOWS, SERVICES), Pump(WINDOWS, SERVICES)])
         == Stuck()
  {
    hide Next, Stuck;
    var w := Stuck().(events := [Delta(1, "text"), Finished(1, Success)]);
    StuckFacts();
    RunTwo(w, Pump(WINDOWS, SERVICES), Pump(WINDOWS, SERVICES));
    Dropped(w, WINDOWS, SERVICES);
    assert w.events[1..] == [Finished(1, Success)] && [Finished(1, Success)][1..] == [];
    Dropped(w.(events := [Finished(1, Success)]), WINDOWS, SERVICES);
  }

  lemma StuckFacts()
    ensures var w := Stuck();
            && w.events == [] && w.popupJob.None? && w.coordinator.active.Some?
            && w.coordinator.active.value.trigger == Selection && Lost(w, w.coordinator.active.value.id)
            && 1 in w.streams && w.streams[1].finished && Flatten(w.streams[1].posted) == "text"
            && w.cached == [] && w.history == []
  {
    assert Flatten(["text"]) == "text" + Flatten<char>([]) == "text" by { assert ["text"][1..] == []; }
  }

  lemma RunParts(w: World, a: seq<Step>, b: seq<Step>, c: seq<Step>, d: seq<Step>, e: seq<Step>)
    ensures Run(w, a + (b + (c + (d + e)))) == Run(Run(Run(Run(Run(w, a), b), c), d), e)
  {
    RunConcat(w, a, b + (c + (d + e)));
    RunConcat(Run(w, a), b, c + (d + e));
    RunConcat(Run(Run(w, a), b), c, d + e);
    RunConcat(Run(Run(Run(w, a), b), c), d, e);
  }

  /** From the start to a world in which a job has streamed all its text and its end,
      both were dropped, and the job stays active: nothing is stored, a hover does
      nothing, and by LostForGood the text is never stored. */
  lemma RunGetsStuck()
    ensures var w := Run(Initial(true, false), StuckSteps());
            && w.events == [] && w.coordinator.active.Some? && Lost(w, w.coordinator.active.value.id)
            && 1 in w.streams && w.streams[1].finished && Flatten(w.streams[1].posted) == "text"
            && w.cached == [] && w.history == []
            && forall processId, promptId, source, native ::
                 BeginRequest(w, Hover, processId, promptId, source, native) == w
  {
    var choose := ProfileSelected(1, Some("p"), true, WINDOWS, SERVICES);
    FirstChooser();
    ProfileStreams();
    RunOne(Choosing(), choose);
    SecondChooser();
    StreamDelivers();
    StreamIsDropped();
    StuckFacts();
    hide Next, Run, Select, Stuck, ChoosingAgain, Streaming, Choosing, Initial;
    RunParts(Fresh(), Select() + [Pump(WINDOWS, SERVICES)], [choose], Select() + [Pump(WINDOWS, SERVICES)],
             [StreamPosts(1, "text"), StreamEnds(1, Success)], [Pump(WINDOWS, SERVICES), Pump(WINDOWS, SERVICES)]);
    assert Run(Initial(true, false), StuckSteps()) == Stuck();
  }

  lemma SecondChooser()
    ensures Run(Streaming(), Select() + [Pump(WINDOWS, SERVICES)]) == ChoosingAgain()
  {
    var w := Streaming();
    var posted := w.(nextAttempt := 3, pending := Some(Selected(w)), events := [Extraction(2, Selection, Some(TEXT))]);
    SelectPosts(w);
    RunConcat(w, Select(), [Pump(WINDOWS, SERVICES)]);
    RunOne(posted, Pump(WINDOWS, SERVICES));
    ChooserOpensAgain(posted);
  }

  /** The other way: a retry is admitted although the configuration is broken, since
      the old gate is kept, and the message of a Manual trigger then hides its job. */
  function Broken(): World {
    Streaming().(generation := 2, startupError := true, cancelledStreams := {1}, token := None, request := None,
                 coordinator := Coordinator.Core(2, None, None), activePopup := None, popupJob := None)
  }

  function Retried(): World {
    Broken().(coordinator := Coordinator.Core(3, Some(Coordinator.JobInput(2, Selection, TEXT, "p")), None),
              activePopup := Some(1), popupJob := Some(2), token := Some(2), request := Some(ActiveRequest(7, TEXT, "p")),
              streams := map[1 := Stream("p", [], false), 2 := Stream("p", [], false)])
  }

  lemma ConfigurationBreaks()
    ensures Next(Streaming(), InvalidConfig) == Broken()
  {
    assert {} + {1} == {1};
  }

  lemma RetryStreams()
    ensures Next(Broken(), Retry(1, "p", WINDOWS, SERVICES)) == Retried()
  {
    hide Admit;
    assert Find(Broken().popups, 1) == Some(Popup(1, false, false, None, Some(Selection), Some((CHOSEN, TEXT))));
    assert CancelInflight(Broken()) == Broken() by {
      assert {1} + {} == {1};
    }
    RetryAdmitted(Broken());
  }

  lemma RetryAdmitted(w: World)
    requires w == Broken()
    ensures Admit(w, PendingAttempt(0, CHOSEN, 2), TEXT, WINDOWS, SERVICES) == Retried()
  {
    hide Commit;
    var candidate := CandidateOf(CHOSEN, TEXT, "p", 0);
    var admission := Admission(1, false, None, None);
    assert EnsureSurface(w, CHOSEN, WINDOWS) == (w, Some(admission)) by {
      assert Registered(w.popups, 1) by { assert w.popups[0].id == 1; }
    }
    RetryStarts(w, candidate, admission);
  }

  lemma RetryStarts(w: World, candidate: Coordinator.Candidate, admission: Admission)
    requires w == Broken() && candidate == CandidateOf(CHOSEN, TEXT, "p", 0)
    requires admission == Admission(1, false, None, None)
    ensures Commit(w.(coordinator := Coordinator.Started(w.coordinator, candidate)), admission, CHOSEN, TEXT, SERVICES)
         == Retried()
  {
    assert w.popups[1..] == [] && {1} + {} == {1};
    assert w.streams[2 := Stream("p", [], false)] == map[1 := Stream("p", [], false), 2 := Stream("p", [], false)];
  }

  lemma ManualErrorHidesRetry()
    ensures var w := Run(Streaming(), [InvalidConfig, Retry(1, "p", WINDOWS, SERVICES), Trigger(Manual, 7, "p", None, WINDOWS)]);
            && w.startupError && w.coordinator.active == Retried().coordinator.active && w.popupJob == Some(0)
            && Lost(w, 2)
  {
    var w := Retried();
    RunThree(Streaming(), InvalidConfig, Retry(1, "p", WINDOWS, SERVICES), Trigger(Manual, 7, "p", None, WINDOWS));
    ConfigurationBreaks();
    RetryStreams();
    assert TakesSurface(w, WINDOWS) by {
      assert EnsurePopup(w, None, None, false, WINDOWS) == (w, Some(Admission(1, false, None, None)));
    }
  }
}
