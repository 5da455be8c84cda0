/** Mouse input: selection releases with a delay, and the hover dwell. */
module Mouse {
  import opened Common
  import opened Normalize

  const SELECTION_DELAY := 80
  const HOVER_DELAY := 500
  const HOVER_MOVE_THRESHOLD := 4
  const DOUBLE_CLICK_HALF_SIZE := 8
  const DOUBLE_CLICK_DELAY := 500
  const I32_MIN := -0x8000_0000
  const I32_MAX := 0x7fff_ffff
  const U64_LIMIT := 0x1_0000_0000_0000_0000

  type U64 = x: nat | x < U64_LIMIT
  type I32 = x: int | I32_MIN <= x <= I32_MAX witness 0

  datatype Point = Point(x: I32, y: I32)
  datatype Spot = Spot(point: Point, processId: nat, root: int)
  datatype Release = Release(spot: Spot, rect: Option<ScreenRect>)
  datatype MouseTrigger = SelectionAt(release: Release) | HoverAt(spot: Spot)

  datatype State = State(leftDown: Option<Spot>, releases: seq<Release>, selectionDeadline: Option<nat>,
                         hoverEnabled: bool, hoverAnchor: Option<Spot>, hoverCandidate: Option<Spot>,
                         hoverDeadline: Option<nat>, hoverGeneration: U64, lastClick: Option<(Point, nat)>)

  const NEW := State(None, [], None, false, None, None, None, 0, None)

  // ------------------------------------------------------ selection rectangle

  function Min(a: int, b: int): int { if a < b then a else b }

  function Max(a: int, b: int): int { if a < b then b else a }

  function Abs(a: int): int { if a < 0 then -a else a }

  function Saturated(x: int): I32 { if x < I32_MIN then I32_MIN else if x > I32_MAX then I32_MAX else x }

  /** A rectangle that contains both points, is never empty even at the edges of the
      coordinate range, and is their bounding box where that is not flat. */
  function SelectionRect(start: Point, end: Point): (r: ScreenRect)
    ensures I32_MIN <= r.left < r.right <= I32_MAX && I32_MIN <= r.top < r.bottom <= I32_MAX
    ensures r.left <= start.x <= r.right && r.left <= end.x <= r.right
    ensures r.top <= start.y <= r.bottom && r.top <= end.y <= r.bottom
    ensures start.x != end.x ==> r.left in {start.x, end.x} && r.right in {start.x, end.x}
    ensures start.y != end.y ==> r.top in {start.y, end.y} && r.bottom in {start.y, end.y}
  {
    var left, right := Min(start.x, end.x), Max(start.x, end.x);
    var top, bottom := Min(start.y, end.y), Max(start.y, end.y);
    var wide := left != right;
    var tall := top != bottom;
    ScreenRect(if wide then left else Saturated(left - DOUBLE_CLICK_HALF_SIZE),
               if tall then top else Saturated(top - DOUBLE_CLICK_HALF_SIZE),
               if wide then right else Saturated(right + DOUBLE_CLICK_HALF_SIZE),
               if tall then bottom else Saturated(bottom + DOUBLE_CLICK_HALF_SIZE))
  }

  // ----------------------------------------------------------- one call each

  function Advanced(generation: U64): U64 { (generation + 1) % U64_LIMIT }

  function Invalidated(s: State): U64 {
    if s.hoverDeadline.Some? || s.hoverAnchor.Some? || s.hoverCandidate.Some?
    then Advanced(s.hoverGeneration) else s.hoverGeneration
  }

  function HoverReset(s: State): State {
    s.(hoverGeneration := Invalidated(s), hoverDeadline := None, hoverAnchor := None, hoverCandidate := None)
  }

  function Toggled(s: State, enabled: bool): State {
    s.(hoverGeneration := if s.hoverEnabled != enabled then Advanced(s.hoverGeneration) else s.hoverGeneration,
       hoverEnabled := enabled, hoverDeadline := None, hoverAnchor := None, hoverCandidate := None)
  }

  function LeftDown(s: State, spot: Spot): State { HoverReset(s.(leftDown := Some(spot))) }

  function Preferred<T(==)>(dragged: bool, down: T, up: T, unknown: T): T {
    if dragged && down != unknown then down else if up != unknown then up else down
  }

  /** The release that letting go of the button at `spot` queues. */
  function ReleaseOf(s: State, spot: Spot, now: nat): Release {
    var down := if s.leftDown.Some? then s.leftDown.value else spot;
    var dragged := down.point != spot.point;
    var doubleClicked :=
      && s.lastClick.Some?
      && now <= s.lastClick.value.1 + DOUBLE_CLICK_DELAY
      && Abs(s.lastClick.value.0.x - spot.point.x) <= HOVER_MOVE_THRESHOLD
      && Abs(s.lastClick.value.0.y - spot.point.y) <= HOVER_MOVE_THRESHOLD;
    Release(Spot(spot.point, Preferred(dragged, down.processId, spot.processId, 0), Preferred(dragged, down.root, spot.root, 0)),
            if dragged || doubleClicked then Some(SelectionRect(down.point, spot.point)) else None)
  }

  function LeftUp(s: State, spot: Spot, now: nat): State {
    var down := if s.leftDown.Some? then s.leftDown.value else spot;
    HoverReset(s.(leftDown := None,
                  lastClick := if down.point != spot.point then None else Some((spot.point, now)),
                  releases := s.releases + [ReleaseOf(s, spot, now)],
                  selectionDeadline := Some(now + SELECTION_DELAY)))
  }

  predicate Near(a: Point, b: Point) {
    (b.x - a.x) * (b.x - a.x) + (b.y - a.y) * (b.y - a.y) <= HOVER_MOVE_THRESHOLD * HOVER_MOVE_THRESHOLD
  }

  /** Jitter: the same window, within the threshold of the anchor. */
  predicate Jitter(anchor: Spot, spot: Spot) {
    anchor.processId == spot.processId && anchor.root == spot.root && Near(anchor.point, spot.point)
  }

  function Moved(s: State, spot: Spot, now: nat): State {
    if !s.hoverEnabled || s.leftDown.Some? then s
    else if s.hoverAnchor.Some? && Jitter(s.hoverAnchor.value, spot) then s
    else s.(hoverGeneration := if s.hoverAnchor.Some? then Advanced(s.hoverGeneration) else s.hoverGeneration,
            hoverAnchor := Some(spot), hoverCandidate := Some(spot), hoverDeadline := Some(now + HOVER_DELAY))
  }

  predicate IsDue(deadline: Option<nat>, now: nat) { deadline.Some? && deadline.value <= now }

  function DueSelections(s: State, now: nat): seq<MouseTrigger> {
    if IsDue(s.selectionDeadline, now) && s.releases != [] then [SelectionAt(s.releases[0])] else []
  }

  function DueHovers(s: State, now: nat): seq<MouseTrigger> {
    if IsDue(s.hoverDeadline, now) && s.hoverCandidate.Some? then [HoverAt(s.hoverCandidate.value)] else []
  }

  function Due(s: State, now: nat): seq<MouseTrigger> { DueSelections(s, now) + DueHovers(s, now) }

  function Taken(s: State, now: nat): State {
    var s1 :=
      if IsDue(s.selectionDeadline, now) then
        var left := if s.releases == [] then [] else s.releases[1..];
        s.(releases := left, selectionDeadline := if left == [] then None else Some(now + SELECTION_DELAY))
      else s;
    if IsDue(s.hoverDeadline, now) then s1.(hoverDeadline := None, hoverCandidate := None) else s1
  }

  class MouseState {
    var leftDown: Option<Spot>
    var releases: seq<Release>
    var selectionDeadline: Option<nat>
    var hoverEnabled: bool
    var hoverAnchor: Option<Spot>
    var hoverCandidate: Option<Spot>
    var hoverDeadline: Option<nat>
    var hoverGeneration: U64
    var lastClick: Option<(Point, nat)>

    ghost function View(): State
      reads this
    {
      State(leftDown, releases, selectionDeadline, hoverEnabled, hoverAnchor, hoverCandidate, hoverDeadline,
            hoverGeneration, lastClick)
    }

    constructor ()
      ensures View() == NEW
    {
      leftDown, releases, selectionDeadline, hoverEnabled := None, [], None, false;
      hoverAnchor, hoverCandidate, hoverDeadline, hoverGeneration, lastClick := None, None, None, 0, None;
    }

    method InvalidateHover()
      modifies `hoverGeneration
      ensures hoverGeneration == Invalidated(old(View()))
    {
      if hoverDeadline.Some? || hoverAnchor.Some? || hoverCandidate.Some? {
        hoverGeneration := Advanced(hoverGeneration);
      }
    }

    method CancelHoverCandidate()
      modifies this
      ensures View() == HoverReset(old(View()))
    {
      InvalidateHover();
      hoverDeadline, hoverAnchor, hoverCandidate := None, None, None;
    }

    method SetHoverEnabled(enabled: bool)
      modifies this
      ensures View() == Toggled(old(View()), enabled)
    {
      if hoverEnabled != enabled {
        hoverGeneration := Advanced(hoverGeneration);
      }
      hoverEnabled := enabled;
      hoverDeadline, hoverAnchor, hoverCandidate := None, None, None;
    }

    method OnLeftDown(spot: Spot)
      modifies this
      ensures View() == LeftDown(old(View()), spot)
    {
      leftDown := Some(spot);
      CancelHoverCandidate();
    }

    method OnLeftUp(spot: Spot, now: nat)
      modifies this
      ensures View() == LeftUp(old(View()), spot, now)
    {
      var down := if leftDown.Some? then leftDown.value else spot;
      leftDown := None;
      var dragged := down.point != spot.point;
      var pid := if dragged && down.processId != 0 then down.processId
                 else if spot.processId != 0 then spot.processId
                 else down.processId;
      var root := if dragged && down.root != 0 then down.root else if spot.root != 0 then spot.root else down.root;
      var doubleClicked := false;
      if lastClick.Some? {
        var (previous, at) := lastClick.value;
        var since := if now < at then 0 else now - at;
        doubleClicked := since <= DOUBLE_CLICK_DELAY
          && Abs(previous.x - spot.point.x) <= HOVER_MOVE_THRESHOLD
          && Abs(previous.y - spot.point.y) <= HOVER_MOVE_THRESHOLD;
      }
      var rect := if dragged || doubleClicked then Some(SelectionRect(down.point, spot.point)) else None;
      lastClick := if dragged then None else Some((spot.point, now));
      releases := releases + [Release(Spot(spot.point, pid, root), rect)];
      selectionDeadline := Some(now + SELECTION_DELAY);
      CancelHoverCandidate();
    }

    method OnMove(spot: Spot, now: nat)
      modifies this
      ensures View() == Moved(old(View()), spot, now)
    {
      if !hoverEnabled || leftDown.Some? {
        return;
      }
      var processChanged := false;
      var significantMove := false;
      if hoverAnchor.Some? {
        var anchor := hoverAnchor.value;
        processChanged := anchor.processId != spot.processId || anchor.root != spot.root;
        var dx, dy := spot.point.x - anchor.point.x, spot.point.y - anchor.point.y;
        significantMove := dx * dx + dy * dy > HOVER_MOVE_THRESHOLD * HOVER_MOVE_THRESHOLD;
      }
      if hoverAnchor.None? || processChanged || significantMove {
        if processChanged || significantMove {
          hoverGeneration := Advanced(hoverGeneration);
        }
        hoverAnchor, hoverCandidate := Some(spot), Some(spot);
        hoverDeadline := Some(now + HOVER_DELAY);
      }
    }

    method TakeDue(now: nat) returns (events: seq<MouseTrigger>)
      modifies this
      ensures View() == Taken(old(View()), now)
      ensures events == Due(old(View()), now)
    {
      events := [];
      if selectionDeadline.Some? && selectionDeadline.value <= now {
        selectionDeadline := None;
        if releases != [] {
          events := [SelectionAt(releases[0])];
          releases := releases[1..];
        }
        if releases != [] {
          selectionDeadline := Some(now + SELECTION_DELAY);
        }
      }
      if hoverDeadline.Some? && hoverDeadline.value <= now {
        hoverDeadline := None;
        if hoverCandidate.Some? {
          events := events + [HoverAt(hoverCandidate.value)];
          hoverCandidate := None;
        }
      }
    }
  }

  // ------------------------------------------------------------------ traces

  datatype Call =
    | Toggle(enabled: bool)
    | CancelHover
    | Down(spot: Spot)
    | Up(spot: Spot, at: nat)
    | Move(spot: Spot, at: nat)
    | Tick(at: nat)

  function Step(s: State, call: Call): State {
    match call
    case Toggle(enabled) => Toggled(s, enabled)
    case CancelHover => HoverReset(s)
    case Down(spot) => LeftDown(s, spot)
    case Up(spot, at) => LeftUp(s, spot, at)
    case Move(spot, at) => Moved(s, spot, at)
    case Tick(at) => Taken(s, at)
  }

  function Run(calls: seq<Call>): State {
    if calls == [] then NEW else Step(Run(calls[..|calls| - 1]), calls[|calls| - 1])
  }

  /** What the last call of a trace emitted. */
  function Emitted(calls: seq<Call>): seq<MouseTrigger>
    requires calls != []
  {
    var last := calls[|calls| - 1];
    if last.Tick? then Due(Run(calls[..|calls| - 1]), last.at) else []
  }

  // ------------------------------------------------------------- selections

  /** All releases, in the order of the button events. */
  function Released(calls: seq<Call>): seq<Release> {
    if calls == [] then []
    else
      var init, last := calls[..|calls| - 1], calls[|calls| - 1];
      Released(init) + (if last.Up? then [ReleaseOf(Run(init), last.spot, last.at)] else [])
  }

  function SelectionsOf(triggers: seq<MouseTrigger>): seq<Release> {
    if triggers == [] then []
    else (if triggers[0].SelectionAt? then [triggers[0].release] else []) + SelectionsOf(triggers[1..])
  }

  /** All selections emitted so far. */
  function Selected(calls: seq<Call>): seq<Release> {
    if calls == [] then [] else Selected(calls[..|calls| - 1]) + SelectionsOf(Emitted(calls))
  }

  lemma DueSelection(s: State, now: nat)
    ensures SelectionsOf(Due(s, now)) == if IsDue(s.selectionDeadline, now) && s.releases != [] then [s.releases[0]] else []
  {
    var hovers := DueHovers(s, now);
    assert SelectionsOf(hovers) == [];
    if DueSelections(s, now) != [] {
      assert Due(s, now)[1..] == hovers;
    }
  }

  ghost predicate DeadlineMatches(s: State) { s.selectionDeadline.Some? <==> s.releases != [] }

  lemma StepReleases(s: State, call: Call)
    requires DeadlineMatches(s)
    ensures DeadlineMatches(Step(s, call))
    ensures SelectionsOf(if call.Tick? then Due(s, call.at) else []) + Step(s, call).releases
         == s.releases + (if call.Up? then [ReleaseOf(s, call.spot, call.at)] else [])
  {
    hide ReleaseOf, Due, Invalidated;
    if call.Tick? {
      DueSelection(s, call.at);
      if s.releases != [] {
        assert s.releases == [s.releases[0]] + s.releases[1..];
      }
    }
  }

  /** No release is lost, repeated or reordered: emitted and then queued is all of
      them; and a deadline is set exactly while some are queued. */
  lemma {:induction false} SelectionsAreReleases(calls: seq<Call>)
    ensures Selected(calls) + Run(calls).releases == Released(calls)
    ensures Run(calls).selectionDeadline.Some? <==> Run(calls).releases != []
  {
    hide ReleaseOf, Step, Due, SelectionsOf;
    if calls != [] {
      var init := calls[..|calls| - 1];
      SelectionsAreReleases(init);
      StepReleases(Run(init), calls[|calls| - 1]);
      assert (Selected(init) + SelectionsOf(Emitted(calls))) + Run(calls).releases
          == Selected(init) + (SelectionsOf(Emitted(calls)) + Run(calls).releases);
    }
  }

  /** Calls between two button events. */
  predicate NoButton(call: Call) { call.Move? || call.Tick? || call.Toggle? || call.CancelHover? }

  lemma {:induction false} HeldMeanwhile(calls: seq<Call>, between: seq<Call>)
    requires forall i :: 0 <= i < |between| ==> NoButton(between[i])
    ensures Run(calls + between).leftDown == Run(calls).leftDown
    ensures Run(calls + between).lastClick == Run(calls).lastClick
    decreases |between|
  {
    if between == [] {
      assert calls + between == calls;
    } else {
      var init := between[..|between| - 1];
      HeldMeanwhile(calls, init);
      assert (calls + between)[..|calls + between| - 1] == calls + init;
    }
  }

  lemma OneMore(calls: seq<Call>, call: Call)
    ensures Run(calls + [call]) == Step(Run(calls), call)
  {
    assert (calls + [call])[..|calls|] == calls;
  }

  /** A drag selects the rectangle between its two points, in the window where the
      button went down if that is known, whatever lies under the pointer at the end. */
  lemma DragSelects(before: seq<Call>, down: Spot, between: seq<Call>, up: Spot, at: nat)
    requires forall i :: 0 <= i < |between| ==> NoButton(between[i])
    requires down.point != up.point
    ensures var release := ReleaseOf(Run(before + [Down(down)] + between), up, at);
            && release.rect == Some(SelectionRect(down.point, up.point))
            && release.spot.point == up.point
            && release.spot.processId == (if down.processId != 0 then down.processId else up.processId)
            && release.spot.root == (if down.root != 0 then down.root else up.root)
  {
    OneMore(before, Down(down));
    HeldMeanwhile(before + [Down(down)], between);
  }

  /** A click selects nothing, unless it is the second within half a second and four
      units of a click before it. */
  lemma ClickSelects(before: seq<Call>, first: Spot, held: seq<Call>, at: nat,
                     between: seq<Call>, second: Spot, again: seq<Call>, later: nat)
    requires forall i :: 0 <= i < |held| ==> NoButton(held[i])
    requires forall i :: 0 <= i < |between| ==> NoButton(between[i])
    requires forall i :: 0 <= i < |again| ==> NoButton(again[i])
    ensures var clicked := before + [Down(first)] + held + [Up(first, at)];
            var release := ReleaseOf(Run(clicked + between + [Down(second)] + again), second, later);
            && (release.rect.Some? <==> && later <= at + DOUBLE_CLICK_DELAY
                                        && Abs(first.point.x - second.point.x) <= HOVER_MOVE_THRESHOLD
                                        && Abs(first.point.y - second.point.y) <= HOVER_MOVE_THRESHOLD)
            && release.spot.point == second.point
  {
    hide Run, SelectionRect;
    var clicked := before + [Down(first)] + held + [Up(first, at)];
    FirstClick(before, first, held, at);
    Pressed(clicked, between, second, again);
  }

  lemma FirstClick(before: seq<Call>, spot: Spot, held: seq<Call>, at: nat)
    requires forall i :: 0 <= i < |held| ==> NoButton(held[i])
    ensures Run(before + [Down(spot)] + held + [Up(spot, at)]).lastClick == Some((spot.point, at))
  {
    hide Run, SelectionRect;
    Pressed(before, [], spot, held);
    assert before + [] == before;
    OneMore(before + [Down(spot)] + held, Up(spot, at));
  }

  /** A press holds, and leaves the last click alone. */
  lemma Pressed(calls: seq<Call>, between: seq<Call>, spot: Spot, held: seq<Call>)
    requires forall i :: 0 <= i < |between| ==> NoButton(between[i])
    requires forall i :: 0 <= i < |held| ==> NoButton(held[i])
    ensures var s := Run(calls + between + [Down(spot)] + held);
            s.leftDown == Some(spot) && s.lastClick == Run(calls).lastClick
  {
    hide Run;
    HeldMeanwhile(calls, between);
    OneMore(calls + between, Down(spot));
    HeldMeanwhile(calls + between + [Down(spot)], held);
  }

  // ------------------------------------------------------------------ hover

  /** The hover mode: what it was last set to. */
  function Enabled(calls: seq<Call>): bool {
    if calls == [] then false
    else
      var last := calls[|calls| - 1];
      if last.Toggle? then last.enabled else Enabled(calls[..|calls| - 1])
  }

  /** The button: down since the last time it changed. */
  function Held(calls: seq<Call>): bool {
    if calls == [] then false
    else
      var last := calls[|calls| - 1];
      if last.Down? then true else if last.Up? then false else Held(calls[..|calls| - 1])
  }

  /** The index of the move that began the current dwell: a move with hover on and the
      button up that is not jitter of the dwell before it. */
  function DwellStart(calls: seq<Call>): (m: Option<nat>)
    ensures m.Some? ==> m.value < |calls| && calls[m.value].Move?
  {
    if calls == [] then None
    else
      var init, last := calls[..|calls| - 1], calls[|calls| - 1];
      var m := DwellStart(init);
      match last
      case Tick(_) => m
      case Move(spot, _) =>
        if !Enabled(init) || Held(init) || (m.Some? && Jitter(init[m.value].spot, spot)) then m else Some(|calls| - 1)
      case Toggle(_) => None
      case CancelHover => None
      case Down(_) => None
      case Up(_, _) => None
  }

  /** A call that does not disturb a dwell at `anchor`. */
  predicate Still(call: Call, anchor: Spot) { call.Tick? || (call.Move? && Jitter(anchor, call.spot)) }

  function EmitsHover(calls: seq<Call>): bool
    requires calls != []
  {
    var last := calls[|calls| - 1];
    last.Tick? && DueHovers(Run(calls[..|calls| - 1]), last.at) != []
  }

  predicate HoverAtCall(calls: seq<Call>, k: nat) { k < |calls| && EmitsHover(calls[..k + 1]) }

  lemma HoverAtEarlierCall(calls: seq<Call>)
    requires calls != []
    ensures forall k :: 0 <= k < |calls| - 1 ==> (HoverAtCall(calls, k) <==> HoverAtCall(calls[..|calls| - 1], k))
    ensures HoverAtCall(calls, |calls| - 1) <==> EmitsHover(calls)
  {
    hide EmitsHover;
    var init := calls[..|calls| - 1];
    forall k | 0 <= k < |init| ensures HoverAtCall(calls, k) <==> HoverAtCall(init, k) {
      assert calls[..k + 1] == init[..k + 1];
    }
    assert calls[..|calls|] == calls;
  }

  ghost predicate HoverSince(calls: seq<Call>, m: nat) { exists k :: m < k < |calls| && HoverAtCall(calls, k) }

  /** The anchor is the move that began the dwell; nothing disturbed it since; and its
      timer runs exactly until the hover is emitted. */
  ghost predicate Dwelling(calls: seq<Call>) {
    var s, m := Run(calls), DwellStart(calls);
    && s.hoverEnabled == Enabled(calls) && s.leftDown.Some? == Held(calls)
    && (s.hoverAnchor.Some? <==> m.Some?)
    && (m.None? ==> s.hoverDeadline.None? && s.hoverCandidate.None?)
    && (m.Some? ==>
          && s.hoverAnchor == Some(calls[m.value].spot)
          && s.hoverEnabled && s.leftDown.None?
          && (forall k :: m.value < k < |calls| ==> Still(calls[k], s.hoverAnchor.value))
          && (if HoverSince(calls, m.value) then s.hoverDeadline.None? && s.hoverCandidate.None?
              else s.hoverDeadline == Some(calls[m.value].at + HOVER_DELAY) && s.hoverCandidate == s.hoverAnchor))
  }

  lemma {:induction false} AlwaysDwelling(calls: seq<Call>)
    ensures Dwelling(calls)
    decreases |calls|
  {
    if calls != [] {
      var init := calls[..|calls| - 1];
      AlwaysDwelling(init);
      DwellingGoesOn(calls);
    }
  }

  lemma HoverSinceGrows(calls: seq<Call>, m: nat)
    requires calls != []
    ensures HoverSince(calls, m) <==> HoverSince(calls[..|calls| - 1], m) || (m < |calls| - 1 && EmitsHover(calls))
  {
    hide EmitsHover, HoverAtCall;
    var init := calls[..|calls| - 1];
    HoverAtEarlierCall(calls);
    if HoverSince(init, m) {
      var k :| m < k < |init| && HoverAtCall(init, k);
      assert HoverAtCall(calls, k);
    }
    if m < |calls| - 1 && EmitsHover(calls) {
      assert HoverAtCall(calls, |calls| - 1);
    }
    if HoverSince(calls, m) {
      var k :| m < k < |calls| && HoverAtCall(calls, k);
      assert k == |calls| - 1 || HoverAtCall(init, k);
    }
  }

  lemma DwellingGoesOn(calls: seq<Call>)
    requires calls != [] && Dwelling(calls[..|calls| - 1])
    ensures Dwelling(calls)
  {
    hide Jitter, HoverSince, Invalidated, ReleaseOf, Preferred;
    var m := DwellStart(calls);
    if m.Some? {
      HoverSinceGrows(calls, m.value);
      NoHoverYet(calls[..|calls| - 1], m.value);
    }
  }

  lemma NoHoverYet(calls: seq<Call>, m: nat)
    ensures m >= |calls| ==> !HoverSince(calls, m)
  {
  }

  /** A tick since the move `m` came 500 ms or more after it. */
  ghost predicate DueSince(calls: seq<Call>, m: nat)
    requires m < |calls| && calls[m].Move?
  {
    exists k :: m < k < |calls| && DueTick(calls[k], calls[m].at)
  }

  predicate DueTick(call: Call, from: nat) { call.Tick? && from + HOVER_DELAY <= call.at }

  lemma DueSinceGrows(calls: seq<Call>, m: nat)
    requires m < |calls| - 1 && calls[m].Move?
    ensures DueSince(calls, m) <==> DueSince(calls[..|calls| - 1], m) || DueTick(calls[|calls| - 1], calls[m].at)
  {
    hide DueTick;
    var init := calls[..|calls| - 1];
    if DueSince(init, m) {
      var k :| m < k < |init| && DueTick(init[k], init[m].at);
      assert calls[k] == init[k];
    }
    if DueSince(calls, m) {
      var k :| m < k < |calls| && DueTick(calls[k], calls[m].at);
      assert k < |init| ==> init[k] == calls[k];
    }
  }

  /** A dwell has emitted its hover exactly if such a tick came. */
  lemma {:induction false} EmittedIff(calls: seq<Call>)
    requires DwellStart(calls).Some?
    ensures HoverSince(calls, DwellStart(calls).value) <==> DueSince(calls, DwellStart(calls).value)
    decreases |calls|
  {
    var init, m := calls[..|calls| - 1], DwellStart(calls).value;
    hide HoverSince, Jitter, DueSince;
    HoverSinceGrows(calls, m);
    NoHoverYet(init, m);
    if m == |calls| - 1 {
      NoTickYet(calls, m);
    } else {
      DueSinceGrows(calls, m);
      EmittedIff(init);
      AlwaysDwelling(init);
    }
  }

  lemma NoTickYet(calls: seq<Call>, m: nat)
    requires m == |calls| - 1 && calls[m].Move?
    ensures !DueSince(calls, m)
  {
  }

  /** A tick emits a hover exactly when a dwell is on, began at least 500 ms before,
      and no earlier tick came as late: all read off the calls. */
  lemma HoverIff(calls: seq<Call>, now: nat)
    ensures var m := DwellStart(calls);
            DueHovers(Run(calls), now)
            == if m.Some? && calls[m.value].at + HOVER_DELAY <= now && !DueSince(calls, m.value)
               then [HoverAt(calls[m.value].spot)] else []
  {
    hide HoverSince, DueSince, DwellStart;
    AlwaysDwelling(calls);
    if DwellStart(calls).Some? {
      EmittedIff(calls);
    }
  }

  /** A hover at `spot` emitted at time T means: the pointer moved there at least 500
      ms before; every later move stayed in the same window within the threshold; no
      button, cancellation or toggle came between; and no hover was emitted since. */
  lemma HoverMeansDwell(calls: seq<Call>, now: nat, spot: Spot)
    requires HoverAt(spot) in Due(Run(calls), now)
    ensures exists m ::
              && 0 <= m < |calls| && DwellStart(calls) == Some(m) && calls[m].spot == spot
              && calls[m].at + HOVER_DELAY <= now
              && (forall k :: m < k < |calls| ==> Still(calls[k], spot))
              && !HoverSince(calls, m)
  {
    hide Jitter, HoverSince;
    AlwaysDwelling(calls);
    var m := DwellStart(calls).value;
    assert calls[m].Move? && calls[m].spot == spot;
  }

  /** The generation tells an ended dwell from a continued one, with one exception:
      setting the hover mode to what it already is ends a dwell silently.  Dwells and
      the mode are read off the calls. */
  lemma GenerationTells(calls: seq<Call>, call: Call)
    requires DwellStart(calls).Some?
    ensures DwellStart(calls + [call]) == DwellStart(calls) || call == Toggle(Enabled(calls))
            <==> Run(calls + [call]).hoverGeneration == Run(calls).hoverGeneration
  {
    hide Jitter, Step, HoverSince;
    AlwaysDwelling(calls);
    StillThere(calls, call);
    GenerationStep(Run(calls), call);
  }

  lemma GenerationStep(s: State, call: Call)
    requires s.hoverAnchor.Some? && s.hoverEnabled && s.leftDown.None?
    ensures Step(s, call).hoverGeneration == s.hoverGeneration
            <==> Still(call, s.hoverAnchor.value) || call == Toggle(s.hoverEnabled)
  {
    hide Jitter, ReleaseOf;
  }

  /** The state after one more call, by what the call is. */
  lemma StillThere(calls: seq<Call>, call: Call)
    requires DwellStart(calls).Some? && Dwelling(calls)
    ensures DwellStart(calls + [call]) == DwellStart(calls) <==> Still(call, Run(calls).hoverAnchor.value)
    ensures Run(calls + [call]) == Step(Run(calls), call)
  {
    hide Jitter, Step, HoverSince;
    assert (calls + [call])[..|calls|] == calls;
  }
}
