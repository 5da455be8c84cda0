/**
 The resident's message loop with its workers, as one state and a step relation.

 Message-loop handlers interleave with the extraction worker and the streaming
 workers; every other thread reaches the resident only through the event queue.
 A cancellation token is named by the attempt or job it was made for, and the
 two `cancelled` sets are the tokens' flags, which are only ever set.  What
 native windows, the request gate, the cache and the clock answer is an input
 of the step that asks.
 */
module Shell {
  import opened Common
  import opened Normalize
  import opened Popups
  import Coordinator
  import Mailbox
  import ResponseFormat

  // ------------------------------------------------------------------ state

  datatype PendingAttempt = PendingAttempt(attempt: nat, spec: RequestSpec, generation: nat)
  datatype ProfileChoice = ProfileChoice(popupId: PopupId, pending: PendingAttempt, text: TextContext)
  datatype ActiveRequest = ActiveRequest(processId: nat, text: TextContext, promptId: string)

  datatype StreamResult = Success | Failed | StreamCancelled
  datatype Event =
    | Extraction(attempt: nat, trigger: Trigger, extracted: Option<TextContext>)
    | Delta(job: nat, text: string)
    | Finished(job: nat, result: StreamResult)

  /** `run_extraction` checks its token one last time before it posts. */
  datatype Worker = Idle | Running(request: Mailbox.Request) | Passed(request: Mailbox.Request) | Ending(attempt: nat)

  /** The profile a provider worker streams for, and what it posted. */
  datatype Stream = Stream(promptId: string, posted: seq<string>, finished: bool)

  datatype Record = Record(job: nat, output: string, fromCache: bool)

  datatype World = World(
    // the resident
    pending: Option<PendingAttempt>,
    choice: Option<ProfileChoice>,
    generation: nat,
    startupError: bool,
    resting: bool,
    popups: seq<Popup>,
    nextPopupId: nat,
    activePopup: Option<PopupId>,
    coordinator: Coordinator.Core,
    popupJob: Option<nat>,
    token: Option<nat>,
    output: string,
    request: Option<ActiveRequest>,
    // the event queue
    events: seq<Event>,
    // extraction
    hasWorker: bool,
    mailbox: Mailbox.State,
    worker: Worker,
    stopped: set<nat>,
    nextAttempt: nat,
    // provider workers
    streams: map<nat, Stream>,
    cancelledStreams: set<nat>,
    // what the handlers did for good
    taken: seq<nat>,
    cached: seq<(nat, string)>,
    history: seq<Record>)

  function Initial(hasWorker: bool, startupError: bool): World {
    World(None, None, 1, startupError, false, [], 1, None, Coordinator.FRESH, None, None, "", None,
          [], hasWorker, Mailbox.EMPTY, Idle, {}, 1, map[], {}, [], [], [])
  }

  /** Answers of the native windows to one handler. */
  datatype Native = Native(destinationAlive: bool, reuseAlive: bool, created: bool, available: bool,
                           hidden: bool, presented: bool, choicesShown: bool,
                           foregroundCurrent: bool, sourceReady: bool)

  /** Answers of the gate, the cache, the provider and the clock. */
  datatype Services = Services(promptId: Option<string>, cachedOutput: Option<string>, spawned: bool, now: nat,
                               doneAt: nat)

  // ------------------------------------------------------- cancelling work

  function CancelPending(w: World): World {
    if w.hasWorker
    then w.(pending := None, mailbox := Mailbox.Cleared(w.mailbox), stopped := w.stopped + Mailbox.Held(w.mailbox))
    else w.(pending := None)
  }

  function CancelProvider(w: World): World {
    w.(token := None, cancelledStreams := w.cancelledStreams + (if w.token.Some? then {w.token.value} else {}))
  }

  function DropJob(w: World): World {
    CancelProvider(w).(coordinator := w.coordinator.(active := None), request := None, activePopup := None,
                       popupJob := None, output := "")
  }

  function CancelInflight(w: World): World { DropJob(CancelPending(w)) }

  function CancelHoverExtraction(w: World): World {
    if w.pending.Some? && w.pending.value.spec.trigger == Hover then CancelPending(w) else w
  }

  predicate Concerns(spec: RequestSpec, id: PopupId) { spec.source == Some(id) || spec.destination == Some(id) }

  function ReleasePending(w: World, id: PopupId): World {
    if w.pending.Some? && Concerns(w.pending.value.spec, id) then CancelPending(w) else w
  }

  function ReleaseChoice(w: World, id: PopupId): World {
    if w.choice.Some? && w.choice.value.popupId == id then w.(choice := None) else w
  }

  function ReleaseJob(w: World, id: PopupId): World {
    if w.activePopup == Some(id) then DropJob(w) else w
  }

  function RemovePopup(w: World, id: PopupId): World {
    var released := ReleaseJob(ReleaseChoice(ReleasePending(w, id), id), id);
    released.(popups := Without(released.popups, id))
  }

  function RemoveAll(w: World, ids: seq<PopupId>): World
    decreases |ids|
  {
    if ids == [] then w else RemoveAll(RemovePopup(w, ids[0]), ids[1..])
  }

  // ------------------------------------------------------- result surfaces

  datatype Admission = Admission(popupId: PopupId, createdNew: bool, staged: Option<Popup>, evict: Option<PopupId>)

  function LastUnpinned(popups: seq<Popup>): Option<PopupId> {
    if popups == [] then None
    else if !popups[|popups| - 1].pinned then Some(popups[|popups| - 1].id)
    else LastUnpinned(popups[..|popups| - 1])
  }

  function NewPopup(id: PopupId, parent: Option<PopupId>): Popup {
    Popup(id, false, false, parent, None, None)
  }

  function CreatePopup(w: World, parent: Option<PopupId>, native: Native): (World, Option<Admission>) {
    var full := |w.popups| >= MAX_VISIBLE_POPUPS;
    var evict := OldestEvictable(w.popups, parent, w.activePopup);
    if full && evict.None? then (w, None)
    else
      var id := Allocated(w.nextPopupId, w.popups);
      var w1 := w.(nextPopupId := After(id));
      if !native.created then (w1, None)
      else if full then (w1, Some(Admission(id, true, Some(NewPopup(id, parent)), evict)))
      else (w1.(popups := w1.popups + [NewPopup(id, parent)]), Some(Admission(id, true, None, None)))
  }

  function ReusePopup(w: World, parent: Option<PopupId>, forceNew: bool, native: Native): (World, Option<Admission>) {
    var candidate := LastUnpinned(w.popups);
    if forceNew || candidate.None? then CreatePopup(w, parent, native)
    else if native.reuseAlive then (w, Some(Admission(candidate.value, false, None, None)))
    else CreatePopup(RemovePopup(w, candidate.value), parent, native)
  }

  function EnsurePopup(w: World, destination: Option<PopupId>, parent: Option<PopupId>, forceNew: bool, native: Native)
    : (World, Option<Admission>)
  {
    if destination.None? then ReusePopup(w, parent, forceNew, native)
    else if Registered(w.popups, destination.value) && native.destinationAlive
    then (w, Some(Admission(destination.value, false, None, None)))
    else ReusePopup(RemovePopup(w, destination.value), parent, forceNew, native)
  }

  predicate ForcesNew(spec: RequestSpec) { spec.source.Some? && spec.destination.None? }

  /** A result surface for `spec`; failure leaves what the attempts changed. */
  function EnsureSurface(w: World, spec: RequestSpec, native: Native): (World, Option<Admission>) {
    if ForcesNew(spec) && |w.popups| >= MAX_VISIBLE_POPUPS && OldestEvictable(w.popups, spec.source, w.activePopup).None?
    then (w, None)
    else
      var (w1, admission) := EnsurePopup(w, spec.destination, spec.source, ForcesNew(spec), native);
      if admission.None? then (w1, None)
      else
        var a := admission.value;
        if native.available && (a.staged.Some? || Registered(w1.popups, a.popupId)) then (w1, admission)
        else (if a.createdNew then RemovePopup(w1, a.popupId) else w1, None)
  }

  predicate PresentsStaged(popups: seq<Popup>, a: Admission, native: Native) {
    a.staged.None? || (a.evict.Some? && Registered(popups, a.evict.value) && native.hidden && native.presented)
  }

  function CommitStaged(w: World, a: Admission): World {
    if a.staged.None? || a.evict.None? then w
    else
      var w1 := RemovePopup(w, a.evict.value);
      w1.(popups := w1.popups + [a.staged.value])
  }

  function Updated(popups: seq<Popup>, id: PopupId, completed: bool): (r: seq<Popup>)
    ensures |r| == |popups| && forall i :: 0 <= i < |r| ==>
              r[i] == if popups[i].id == id then popups[i].(completed := completed) else popups[i]
  {
    if popups == [] then []
    else [if popups[0].id == id then popups[0].(completed := completed) else popups[0]]
         + Updated(popups[1..], id, completed)
  }

  function SetCompleted(w: World, id: Option<PopupId>, completed: bool): World {
    if id.Some? then w.(popups := Updated(w.popups, id.value, completed)) else w
  }

  function Presented(popups: seq<Popup>, id: PopupId, trigger: Option<Trigger>,
                     admitted: Option<(RequestSpec, TextContext)>): (r: seq<Popup>)
    ensures |r| == |popups| && forall i :: 0 <= i < |r| ==>
              r[i] == if popups[i].id != id then popups[i]
                      else popups[i].(presented := trigger,
                                      admitted := if admitted.Some? then admitted else popups[i].admitted)
  {
    if popups == [] then []
    else [if popups[0].id != id then popups[0]
          else popups[0].(presented := trigger, admitted := if admitted.Some? then admitted else popups[0].admitted)]
         + Presented(popups[1..], id, trigger, admitted)
  }

  /** Local errors never stage a popup, so there is nothing to commit or roll back. */
  function ShowLocalError(w: World, job: nat, native: Native): World {
    var (w1, admission) := EnsurePopup(w, None, None, false, native);
    if admission.None? || !PresentsStaged(w1.popups, admission.value, native) then w1
    else
      var a := admission.value;
      var w2 := CommitStaged(w1, a);
      w2.(popupJob := Some(job), activePopup := Some(a.popupId),
          popups := Updated(Presented(w2.popups, a.popupId, None, None), a.popupId, false))
  }

  // ------------------------------------------------------------- admission

  function StartStream(w: World, job: nat, promptId: string, spawned: bool): World {
    w.(token := Some(job),
       streams := w.streams[job := Stream(promptId, [], !spawned)],
       events := if spawned then w.events else w.events + [Finished(job, Failed)])
  }

  function Recorded(output: string, job: nat, fromCache: bool): seq<Record> {
    if NormalizeText(output) == "" then [] else [Record(job, output, fromCache)]
  }

  /** The accepted job takes over the presentation and the previous stream's token. */
  function Occupy(w: World, job: nat, id: PopupId, spec: RequestSpec, text: TextContext, promptId: string, answered: bool)
    : World
  {
    CancelProvider(w).(activePopup := Some(id), popupJob := Some(job), output := "",
                       popups := Updated(Presented(w.popups, id, Some(spec.trigger), Some((spec, text))), id, answered),
                       request := Some(ActiveRequest(spec.processId, text, promptId)))
  }

  /** A cached answer is recorded and completes the job at once. */
  function Answer(w: World, job: nat, spec: RequestSpec, text: TextContext, promptId: string, cachedOutput: string,
                  doneAt: nat): World
  {
    var output := ResponseFormat.NormalizeTerminalResponse(promptId, cachedOutput);
    w.(output := output, request := None, history := w.history + Recorded(output, job, true),
       coordinator := Coordinator.Completed(w.coordinator, false, job, spec.processId, text, doneAt))
  }

  /** Everything after the coordinator accepted: the commit point. */
  function Commit(w: World, a: Admission, spec: RequestSpec, text: TextContext, services: Services): World
    requires services.promptId.Some?
    requires w.coordinator.active.Some?
  {
    var job, promptId := w.coordinator.active.value.id, services.promptId.value;
    var occupied := Occupy(CommitStaged(w, a), job, a.popupId, spec, text, promptId, services.cachedOutput.Some?);
    if services.cachedOutput.Some?
    then Answer(occupied, job, spec, text, promptId, services.cachedOutput.value, services.doneAt)
    else StartStream(occupied, job, promptId, services.spawned)
  }

  function CandidateOf(spec: RequestSpec, text: TextContext, promptId: string, now: nat): Coordinator.Candidate {
    Coordinator.Candidate(spec.trigger, spec.processId, text, promptId, now, !spec.bypassDuplicates)
  }

  function ReportIfManual(w: World, pending: PendingAttempt, native: Native): World {
    if pending.spec.trigger == Manual then ShowLocalError(w, pending.attempt, native) else w
  }

  predicate SourceReady(w: World, spec: RequestSpec, native: Native) {
    spec.source.None?
    || (native.sourceReady && Find(w.popups, spec.source.value).Some? && Find(w.popups, spec.source.value).value.completed)
  }

  function Admit(w: World, pending: PendingAttempt, text: TextContext, native: Native, services: Services): World {
    var spec := pending.spec;
    if spec.trigger == Hover && !native.foregroundCurrent then w
    else if !SourceReady(w, spec, native) then w
    else if services.promptId.None? then ReportIfManual(w, pending, native)
    else
      var candidate := CandidateOf(spec, text, spec.promptId, services.now);
      if Coordinator.CanStart(w.coordinator, false, candidate).Err? then ReportIfManual(w, pending, native)
      else AdmitOn(w, candidate, spec, text, native, services)
  }

  /** The coordinator would accept: find a surface, and start on it. */
  function AdmitOn(w: World, candidate: Coordinator.Candidate, spec: RequestSpec, text: TextContext, native: Native,
                   services: Services): World
    requires services.promptId.Some?
  {
    var (w1, surface) := EnsureSurface(w, spec, native);
    if surface.None? || !PresentsStaged(w1.popups, surface.value, native) then w1
    else if Coordinator.CanStart(w1.coordinator, false, candidate).Err? then w1
    else Commit(w1.(coordinator := Coordinator.Started(w1.coordinator, candidate)), surface.value, spec, text, services)
  }

  // -------------------------------------------------------------- handlers

  function PriorityOf(trigger: Trigger): nat { Coordinator.Priority(trigger) }

  function Submit(w: World, spec: RequestSpec): World {
    var attempt := w.nextAttempt;
    var w1 := w.(nextAttempt := attempt + 1, pending := Some(PendingAttempt(attempt, spec, w.generation)));
    if w.hasWorker && !w.mailbox.shuttingDown
    then w1.(mailbox := Mailbox.Submitted(w.mailbox, Mailbox.Request(attempt, spec.trigger)),
             stopped := w.stopped + Mailbox.Held(w.mailbox))
    else w1.(events := w.events + [Extraction(attempt, spec.trigger, None)])
  }

  function BeginRequest(w: World, trigger: Trigger, processId: nat, promptId: string, source: Option<PopupId>,
                        native: Native): World
  {
    var spec := RequestSpec(trigger, processId, promptId, false, if trigger == Hover then source else None, None);
    if w.resting then w
    else if w.startupError then if trigger == Manual then ShowLocalError(w, 0, native) else w
    else if w.choice.Some? && trigger == Hover then w
    else
      var w1 := if w.choice.Some? then RemovePopup(w, w.choice.value.popupId) else w;
      if w1.pending.Some? && PriorityOf(w1.pending.value.spec.trigger) > PriorityOf(trigger) then w1
      else if w1.coordinator.active.Some? && PriorityOf(w1.coordinator.active.value.trigger) > PriorityOf(trigger) then w1
      else Submit(if trigger == Manual then CancelInflight(w1) else CancelPending(w1), spec)
  }

  predicate Matches(pending: Option<PendingAttempt>, attempt: nat, trigger: Trigger, generation: nat) {
    && pending.Some?
    && pending.value.attempt == attempt
    && pending.value.spec.trigger == trigger
    && pending.value.generation == generation
  }

  function OfferChoices(w: World, pending: PendingAttempt, text: TextContext, native: Native, services: Services): World {
    if services.promptId.None? then w
    else
      var (w1, admission) := EnsurePopup(w, None, None, false, native);
      if admission.None? then w1
      else if !Registered(w1.popups, admission.value.popupId) || !native.choicesShown
      then RemovePopup(w1, admission.value.popupId)
      else w1.(popupJob := None, choice := Some(ProfileChoice(admission.value.popupId, pending, text)))
  }

  function HandleExtraction(w: World, event: Event, native: Native, services: Services): World
    requires event.Extraction?
  {
    if !Matches(w.pending, event.attempt, event.trigger, w.generation) then w
    else
      var pending := w.pending.value;
      var w1 := w.(pending := None, taken := w.taken + [event.attempt]);
      if w1.startupError || event.extracted.None? then ReportIfManual(w1, pending, native)
      else if event.trigger == Selection then OfferChoices(w1, pending, event.extracted.value, native, services)
      else Admit(w1, pending, event.extracted.value, native, services)
  }

  /** The presentation that stream events may still change. */
  predicate Live(w: World, job: nat) {
    w.coordinator.active.Some? && w.coordinator.active.value.id == job && w.popupJob == Some(job)
  }

  function HandleDelta(w: World, event: Event): World
    requires event.Delta?
  {
    if !Live(w, event.job) then w else w.(output := w.output + event.text)
  }

  function HandleFinished(w: World, event: Event, doneAt: nat): World
    requires event.Finished?
  {
    if !Live(w, event.job) then w
    else
      var w1 := w.(token := None, request := None);
      if event.result == Success && w.output != "" then
        if w.request.None? then SetCompleted(w1, w.activePopup, true)
        else
          var active := w.request.value;
          var output := ResponseFormat.NormalizeTerminalResponse(active.promptId, w.output);
          SetCompleted(
            w1.(output := output,
                cached := w.cached + [(event.job, output)],
                history := w.history + Recorded(output, event.job, false),
                coordinator := Coordinator.Completed(w.coordinator, false, event.job, active.processId, active.text, doneAt)),
            w.activePopup, true)
      else
        var w2 := w1.(coordinator := Coordinator.Finished(w.coordinator, event.job));
        if event.result == StreamCancelled then w2 else SetCompleted(w2, w.activePopup, false)
  }

  function HandleEvent(w: World, native: Native, services: Services): World {
    if w.events == [] then w
    else
      var event := w.events[0];
      var w1 := w.(events := w.events[1..]);
      match event
      case Extraction(_, _, _) => HandleExtraction(w1, event, native, services)
      case Delta(_, _) => HandleDelta(w1, event)
      case Finished(_, _) => HandleFinished(w1, event, services.doneAt)
  }

  function Replay(w: World, id: PopupId, promptId: string, native: Native, services: Services): World {
    var popup := Find(w.popups, id);
    if popup.None? || popup.value.admitted.None? then w
    else
      var (spec, text) := popup.value.admitted.value;
      var again := spec.(promptId := promptId, bypassDuplicates := true, source := None, destination := Some(id));
      Admit(CancelInflight(w), PendingAttempt(0, again, w.generation), text, native, services)
  }

  function SelectProfile(w: World, id: PopupId, promptId: Option<string>, stillConfigured: bool, native: Native,
                         services: Services): World
  {
    if w.choice.None? || w.choice.value.popupId != id then w
    else if promptId.None? || w.choice.value.pending.generation != w.generation then w
    else
      var choice := w.choice.value;
      var w1 := w.(choice := None);
      if !stillConfigured then RemovePopup(w1, id)
      else
        var spec := choice.pending.spec.(promptId := promptId.value, bypassDuplicates := true, destination := Some(id));
        Admit(w1, choice.pending.(spec := spec), choice.text, native, services)
  }

  function Matching(popups: seq<Popup>, wanted: Popup -> bool): seq<PopupId>
    decreases |popups|
  {
    if popups == [] then []
    else (if wanted(popups[0]) then [popups[0].id] else []) + Matching(popups[1..], wanted)
  }

  function OutsideClick(w: World, clicked: Option<PopupId>): World {
    RemoveAll(w, Matching(w.popups, (p: Popup) => Some(p.id) != clicked && !p.pinned))
  }

  function DisableHover(w: World): World {
    var w1 := CancelHoverExtraction(w);
    RemoveAll(w1, Matching(w1.popups, (p: Popup) => p.presented == Some(Hover)))
  }

  /** `stale` are the popups whose guard window differs from the new foreground. */
  function ForegroundChanged(w: World, foregroundIsPopup: bool, stale: set<PopupId>): World {
    var w1 := if foregroundIsPopup then w else CancelHoverExtraction(w);
    if foregroundIsPopup then w1
    else RemoveAll(w1, Matching(w1.popups, (p: Popup) => p.presented == Some(Hover) && !p.pinned && p.id in stale))
  }

  function SetRest(w: World, enabled: bool): World {
    if w.resting == enabled then w
    else
      var w1 := CancelInflight(w.(resting := enabled)).(choice := None, popupJob := None);
      RemoveAll(w1, Matching(w1.popups, (p: Popup) => true))
  }

  function CloseChoice(w: World): World {
    if w.choice.Some? then RemovePopup(w.(choice := None), w.choice.value.popupId) else w
  }

  function ConfigInvalid(w: World): World {
    CloseChoice(CancelInflight(w.(generation := w.generation + 1, startupError := true)))
  }

  function ApplyConfig(w: World, startupError: bool, refreshed: bool): World {
    var w1 := CancelInflight(w.(generation := w.generation + 1)).(startupError := startupError);
    if w1.choice.None? then w1
    else
      var id := w1.choice.value.popupId;
      if Registered(w1.popups, id) && refreshed
      then w1.(choice := Some(w1.choice.value.(pending := w1.choice.value.pending.(generation := w1.generation))))
      else RemovePopup(w1, id)
  }

  function RefreshProvider(w: World, startupError: bool): World {
    CloseChoice(CancelInflight(w.(generation := w.generation + 1)).(startupError := startupError))
  }

  // ------------------------------------------------------------------ steps

  datatype Step =
    // the message loop
    | Trigger(trigger: Trigger, processId: nat, promptId: string, source: Option<PopupId>, native: Native)
    | Pump(native: Native, services: Services)
    | Dismissed(id: PopupId)
    | Retry(id: PopupId, promptId: string, native: Native, services: Services)
    | ProfileSelected(id: PopupId, profile: Option<string>, stillConfigured: bool, native: Native, services: Services)
    | ClickedOutside(clicked: Option<PopupId>)
    | HoverInvalidated
    | HoverDisabled
    | Foreground(isPopup: bool, stale: set<PopupId>)
    | Rest(enabled: bool)
    | InvalidConfig
    | NewConfig(startupError: bool, refreshed: bool)
    | NewCredentials(startupError: bool)
    // the popup windows
    | PopupChanged(id: PopupId, pinned: bool, lost: bool)
    // the extraction worker
    | WorkerTakes
    | WorkerStops
    | WorkerPasses
    | WorkerPosts(extracted: Option<TextContext>)
    | WorkerEnds
    // the provider workers
    | StreamPosts(job: nat, text: string)
    | StreamEnds(job: nat, result: StreamResult)
    | StreamToken(job: nat)

  /** A user may pin a popup, and a destroyed window reports neither flag. */
  function ChangePopup(popups: seq<Popup>, id: PopupId, pinned: bool, lost: bool): (r: seq<Popup>)
    ensures |r| == |popups| && forall i :: 0 <= i < |r| ==> r[i].id == popups[i].id
  {
    if popups == [] then []
    else [if popups[0].id == id then popups[0].(pinned := pinned && !lost, completed := popups[0].completed && !lost)
          else popups[0]] + ChangePopup(popups[1..], id, pinned, lost)
  }

  predicate WorkerStep(step: Step) {
    step.WorkerTakes? || step.WorkerStops? || step.WorkerPasses? || step.WorkerPosts? || step.WorkerEnds?
  }

  predicate StreamStep(step: Step) { step.StreamPosts? || step.StreamEnds? || step.StreamToken? }

  /** The extraction worker: take, check the token, pass the last check, post, end. */
  function WorkerNext(w: World, step: Step): World
    requires WorkerStep(step)
  {
    match step
    case WorkerTakes =>
      if w.hasWorker && w.worker.Idle? && w.mailbox.pending.Some? && !w.mailbox.shuttingDown
      then w.(mailbox := Mailbox.Taken(w.mailbox), worker := Running(w.mailbox.pending.value))
      else w
    case WorkerStops =>
      if w.worker.Running? && w.worker.request.attempt in w.stopped
      then w.(worker := Ending(w.worker.request.attempt))
      else w
    case WorkerPasses =>
      if w.worker.Running? && w.worker.request.attempt !in w.stopped
      then w.(worker := Passed(w.worker.request))
      else w
    case WorkerPosts(result) =>
      if w.worker.Passed?
      then w.(worker := Ending(w.worker.request.attempt),
              events := w.events + [Extraction(w.worker.request.attempt, w.worker.request.trigger, result)])
      else w
    case WorkerEnds =>
      if w.worker.Ending?
      then w.(worker := Idle, mailbox := Mailbox.Completed(w.mailbox, w.worker.attempt))
      else w
  }

  /** A provider worker posts a delta or its end, or somebody sets its token. */
  function StreamNext(w: World, step: Step): World
    requires StreamStep(step)
  {
    if step.StreamToken? then w.(cancelledStreams := w.cancelledStreams + {step.job})
    else if step.job !in w.streams || w.streams[step.job].finished then w
    else if step.StreamPosts? then if step.text == "" then w else Posted(w, step.job, step.text)
    else Ended(w, step.job, step.result)
  }

  function Posted(w: World, job: nat, text: string): World
    requires job in w.streams
  {
    w.(streams := w.streams[job := w.streams[job].(posted := w.streams[job].posted + [text])],
       events := w.events + [Delta(job, text)])
  }

  function Ended(w: World, job: nat, result: StreamResult): World
    requires job in w.streams
  {
    w.(streams := w.streams[job := w.streams[job].(finished := true)], events := w.events + [Finished(job, result)])
  }

  /** Steps that are not enabled leave the world as it is. */
  function Next(w: World, step: Step): World {
    match step
    case Trigger(trigger, processId, promptId, source, native) =>
      BeginRequest(w, trigger, processId, promptId, source, native)
    case Pump(native, services) => HandleEvent(w, native, services)
    case Dismissed(id) => RemovePopup(w, id)
    case Retry(id, promptId, native, services) => Replay(w, id, promptId, native, services)
    case ProfileSelected(id, profile, stillConfigured, native, services) =>
      SelectProfile(w, id, profile, stillConfigured, native, services)
    case ClickedOutside(clicked) => OutsideClick(w, clicked)
    case HoverInvalidated => CancelHoverExtraction(w)
    case HoverDisabled => DisableHover(w)
    case Foreground(isPopup, stale) => ForegroundChanged(w, isPopup, stale)
    case Rest(enabled) => SetRest(w, enabled)
    case InvalidConfig => ConfigInvalid(w)
    case NewConfig(startupError, refreshed) => ApplyConfig(w, startupError, refreshed)
    case NewCredentials(startupError) => RefreshProvider(w, startupError)
    case PopupChanged(id, pinned, lost) => w.(popups := ChangePopup(w.popups, id, pinned, lost))
    case WorkerTakes => WorkerNext(w, step)
    case WorkerStops => WorkerNext(w, step)
    case WorkerPasses => WorkerNext(w, step)
    case WorkerPosts(_) => WorkerNext(w, step)
    case WorkerEnds => WorkerNext(w, step)
    case StreamPosts(_, _) => StreamNext(w, step)
    case StreamEnds(_, _) => StreamNext(w, step)
    case StreamToken(_) => StreamNext(w, step)
  }

  function Run(w: World, steps: seq<Step>): World
    decreases |steps|
  {
    if steps == [] then w else Run(Next(w, steps[0]), steps[1..])
  }
}
