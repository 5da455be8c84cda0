/** The popup registry: identities, and which popup may be evicted. */
module Popups {
  import opened Common
  import opened Normalize

  const MAX_VISIBLE_POPUPS := 4
  const USIZE_LIMIT := 0x1_0000_0000_0000_0000

  type PopupId = nat

  /** The part of a request that later decisions look at. */
  datatype RequestSpec = RequestSpec(trigger: Trigger, processId: nat, promptId: string, bypassDuplicates: bool,
                                     source: Option<PopupId>, destination: Option<PopupId>)

  /** A registered popup; `createdOrder` is its id. */
  datatype Popup = Popup(id: PopupId, pinned: bool, completed: bool, parent: Option<PopupId>,
                         presented: Option<Trigger>, admitted: Option<(RequestSpec, TextContext)>)

  predicate Registered(popups: seq<Popup>, id: PopupId) {
    exists i :: 0 <= i < |popups| && popups[i].id == id
  }

  ghost predicate Distinct(popups: seq<Popup>) {
    forall i, j :: 0 <= i < j < |popups| ==> popups[i].id != popups[j].id
  }

  function Find(popups: seq<Popup>, id: PopupId): (r: Option<Popup>)
    ensures r.Some? <==> Registered(popups, id)
    ensures r.Some? ==> r.value in popups && r.value.id == id
  {
    if popups == [] then None
    else if popups[0].id == id then Some(popups[0])
    else
      var r := Find(popups[1..], id);
      assert Registered(popups, id) <==> Registered(popups[1..], id) by {
        if Registered(popups[1..], id) {
          var i :| 0 <= i < |popups[1..]| && popups[1..][i].id == id;
          assert popups[i + 1].id == id;
        }
        if Registered(popups, id) {
          var i :| 0 <= i < |popups| && popups[i].id == id;
          assert popups[1..][i - 1].id == id;
        }
      }
      r
  }

  // ------------------------------------------------------------ identities

  /** The candidate id `steps` places after `next`, wrapping past zero. */
  function Candidate(next: PopupId, steps: nat): (id: PopupId)
    requires 1 <= next < USIZE_LIMIT
    ensures 1 <= id < USIZE_LIMIT
  {
    (next - 1 + steps) % (USIZE_LIMIT - 1) + 1
  }

  lemma CandidatesDistinct(next: PopupId, i: nat, j: nat)
    requires 1 <= next < USIZE_LIMIT && i < j < USIZE_LIMIT - 1
    ensures Candidate(next, i) != Candidate(next, j)
  {
    var m := USIZE_LIMIT - 1;
    var a, b := next - 1 + i, next - 1 + j;
    if a % m == b % m {
      assert b - a == m * (b / m - a / m);
      assert 0 < b - a < m;
    }
  }

  lemma CandidateZero(next: PopupId)
    requires 1 <= next < USIZE_LIMIT
    ensures Candidate(next, 0) == next
  {
  }

  function After(id: PopupId): PopupId {
    var wrapped := (id + 1) % USIZE_LIMIT;
    if wrapped < 1 then 1 else wrapped
  }

  lemma CandidateAfter(next: PopupId, steps: nat)
    requires 1 <= next < USIZE_LIMIT
    ensures Candidate(next, steps + 1) == After(Candidate(next, steps))
  {
    var m := USIZE_LIMIT - 1;
    var a := next - 1 + steps;
    if a % m == m - 1 {
      assert (a + 1) % m == 0;
    } else {
      assert (a + 1) % m == a % m + 1;
    }
  }

  function First(nextId: nat): PopupId {
    if nextId < 1 then 1 else nextId
  }

  /** The first candidate that is not registered, as far as `fuel` looks. */
  function UnusedFrom(id: PopupId, popups: seq<Popup>, fuel: nat): PopupId
    decreases fuel
  {
    if fuel == 0 || !Registered(popups, id) then id else UnusedFrom(After(id), popups, fuel - 1)
  }

  function Allocated(nextId: nat, popups: seq<Popup>): PopupId {
    UnusedFrom(First(nextId), popups, |popups|)
  }

  /** The id loop stops at the first candidate not yet registered.  With fewer
      registered ids than there are ids it does stop, even across a wrap. */
  method NextUnusedPopupId(nextId: nat, popups: seq<Popup>) returns (id: PopupId, next: PopupId)
    requires nextId < USIZE_LIMIT && |popups| < USIZE_LIMIT - 1
    ensures id == Allocated(nextId, popups) && next == After(id)
    ensures 1 <= id < USIZE_LIMIT && !Registered(popups, id)
  {
    hide Candidate;
    ghost var existing := set popup | popup in popups :: popup.id;
    ghost var steps: nat := 0;
    ghost var seen: set<PopupId> := {};
    ExistingSize(popups);
    CandidateZero(First(nextId));
    next := nextId;
    while true
      invariant next < USIZE_LIMIT && First(next) == Candidate(First(nextId), steps)
      invariant seen <= existing && |seen| == steps <= |popups|
      invariant forall x :: x in seen ==> exists k: nat :: k < steps && Candidate(First(nextId), k) == x
      invariant Allocated(nextId, popups) == UnusedFrom(First(next), popups, |popups| - steps)
      decreases |existing| - steps
    {
      id := First(next);
      next := After(id);
      CandidateAfter(First(nextId), steps);
      SubsetSize(seen, existing);
      if !Registered(popups, id) {
        return;
      }
      var i :| 0 <= i < |popups| && popups[i].id == id;
      assert popups[i] in popups;
      if id in seen {
        var k: nat :| k < steps && Candidate(First(nextId), k) == id;
        CandidatesDistinct(First(nextId), k, steps);
      }
      SubsetSize(seen + {id}, existing);
      forall x | x in seen + {id} ensures exists k: nat :: k < steps + 1 && Candidate(First(nextId), k) == x {
        if x == id {
          assert Candidate(First(nextId), steps) == x;
        } else {
          var k: nat :| k < steps && Candidate(First(nextId), k) == x;
        }
      }
      seen := seen + {id};
      steps := steps + 1;
    }
  }

  lemma {:induction false} ExistingSize(popups: seq<Popup>)
    ensures |(set popup | popup in popups :: popup.id)| <= |popups|
  {
    if popups != [] {
      ExistingSize(popups[1..]);
      assert (set popup | popup in popups :: popup.id)
          == {popups[0].id} + (set popup | popup in popups[1..] :: popup.id);
    }
  }

  /** An allocated id is never already registered. */
  lemma AllocatedUnused(nextId: nat, popups: seq<Popup>)
    requires nextId < USIZE_LIMIT && |popups| < USIZE_LIMIT - 1
    ensures 1 <= Allocated(nextId, popups) < USIZE_LIMIT && !Registered(popups, Allocated(nextId, popups))
  {
    UnusedBeyond(First(nextId), popups, First(nextId), 0);
  }

  lemma {:induction false} UnusedBeyond(first: PopupId, popups: seq<Popup>, id: PopupId, steps: nat)
    requires 1 <= first < USIZE_LIMIT && steps <= |popups| < USIZE_LIMIT - 1
    requires id == Candidate(first, steps)
    requires forall k: nat :: k < steps ==> Registered(popups, Candidate(first, k))
    ensures var found := UnusedFrom(id, popups, |popups| - steps);
            1 <= found < USIZE_LIMIT && !Registered(popups, found)
    decreases |popups| - steps
  {
    if Registered(popups, id) {
      if steps == |popups| {
        SomeIdIsFree(first, popups);
      } else {
        CandidateAfter(first, steps);
        UnusedBeyond(first, popups, After(id), steps + 1);
      }
    }
  }

  lemma SomeIdIsFree(first: PopupId, popups: seq<Popup>)
    requires 1 <= first < USIZE_LIMIT && |popups| < USIZE_LIMIT - 1
    ensures exists k: nat :: k <= |popups| && !Registered(popups, Candidate(first, k))
  {
    var existing := set popup | popup in popups :: popup.id;
    ExistingSize(popups);
    var candidates := CandidateSet(first, |popups| + 1);
    if candidates <= existing {
      SubsetSize(candidates, existing);
    } else {
      var x :| x in candidates && x !in existing;
      var k: nat :| k < |popups| + 1 && Candidate(first, k) == x;
      RegisteredIsExisting(popups, x);
    }
  }

  lemma RegisteredIsExisting(popups: seq<Popup>, id: PopupId)
    ensures Registered(popups, id) <==> id in (set popup | popup in popups :: popup.id)
  {
    if Registered(popups, id) {
      var i :| 0 <= i < |popups| && popups[i].id == id;
      assert popups[i] in popups;
    }
  }

  ghost function CandidateSet(first: PopupId, n: nat): (s: set<PopupId>)
    requires 1 <= first < USIZE_LIMIT && n < USIZE_LIMIT
    ensures |s| == n
    ensures forall x :: x in s ==> exists k: nat :: k < n && Candidate(first, k) == x
  {
    if n == 0 then {}
    else
      var before := CandidateSet(first, n - 1);
      var id := Candidate(first, n - 1);
      assert id !in before by {
        if id in before {
          var k: nat :| k < n - 1 && Candidate(first, k) == id;
          CandidatesDistinct(first, k, n - 1);
        }
      }
      before + {id}
  }

  // -------------------------------------------------------------- eviction

  predicate CanBeEvicted(popup: Popup, source: Option<PopupId>, activeDestination: Option<PopupId>) {
    Some(popup.id) != source && Some(popup.id) != activeDestination && !popup.pinned && popup.completed
  }

  /** The evictable popup created first. */
  function OldestEvictable(popups: seq<Popup>, source: Option<PopupId>, active: Option<PopupId>): (r: Option<PopupId>)
    ensures r.None? <==> forall i :: 0 <= i < |popups| ==> !CanBeEvicted(popups[i], source, active)
    ensures r.Some? ==>
              && (exists i :: 0 <= i < |popups| && popups[i].id == r.value && CanBeEvicted(popups[i], source, active))
              && (forall i :: 0 <= i < |popups| && CanBeEvicted(popups[i], source, active) ==> r.value <= popups[i].id)
  {
    if popups == [] then None
    else
      var last := popups[|popups| - 1];
      var rest := OldestEvictable(popups[..|popups| - 1], source, active);
      if !CanBeEvicted(last, source, active) then
        rest
      else if rest.None? || last.id < rest.value then Some(last.id)
      else rest
  }

  method FindOldestEvictable(popups: seq<Popup>, source: Option<PopupId>, active: Option<PopupId>)
    returns (r: Option<PopupId>)
    ensures r == OldestEvictable(popups, source, active)
  {
    r := None;
    var i := 0;
    while i < |popups|
      invariant 0 <= i <= |popups|
      invariant r == OldestEvictable(popups[..i], source, active)
    {
      assert popups[..i + 1][..i] == popups[..i];
      if CanBeEvicted(popups[i], source, active) && (r.None? || popups[i].id < r.value) {
        r := Some(popups[i].id);
      }
      i := i + 1;
    }
    assert popups[..i] == popups;
  }

  // --------------------------------------------------------------- removal

  function Orphaned(popup: Popup, parent: PopupId): Popup {
    if popup.parent == Some(parent) then popup.(parent := None) else popup
  }

  /** Drop one popup; its children lose their parent. */
  function Without(popups: seq<Popup>, id: PopupId): seq<Popup> {
    if popups == [] then []
    else if popups[0].id == id then OrphanAll(popups[1..], id)
    else [Orphaned(popups[0], id)] + Without(popups[1..], id)
  }

  function OrphanAll(popups: seq<Popup>, id: PopupId): (r: seq<Popup>)
    ensures |r| == |popups|
    ensures forall i :: 0 <= i < |r| ==> r[i] == Orphaned(popups[i], id)
  {
    if popups == [] then [] else [Orphaned(popups[0], id)] + OrphanAll(popups[1..], id)
  }

  lemma {:induction false} WithoutKeeps(popups: seq<Popup>, id: PopupId)
    requires Distinct(popups)
    ensures Distinct(Without(popups, id)) && !Registered(Without(popups, id), id)
    ensures |Without(popups, id)| == |popups| - (if Registered(popups, id) then 1 else 0)
    ensures forall x :: Registered(Without(popups, id), x) <==> Registered(popups, x) && x != id
  {
    if popups != [] {
      var rest := popups[1..];
      assert Distinct(rest);
      assert forall x :: Registered(popups, x) <==> popups[0].id == x || Registered(rest, x) by {
        RegisteredHead(popups);
      }
      if popups[0].id == id {
        SameIds(rest, OrphanAll(rest, id));
        assert !Registered(rest, id);
      } else {
        WithoutKeeps(rest, id);
        var r := Without(popups, id);
        assert r[1..] == Without(rest, id);
        RegisteredHead(r);
        forall i, j | 0 <= i < j < |r| ensures r[i].id != r[j].id {
          if i == 0 {
            assert r[j] == r[1..][j - 1];
            assert Registered(r[1..], r[j].id);
          } else {
            assert r[i] == r[1..][i - 1] && r[j] == r[1..][j - 1];
          }
        }
      }
    }
  }

  lemma RegisteredHead(popups: seq<Popup>)
    requires popups != []
    ensures forall x :: Registered(popups, x) <==> popups[0].id == x || Registered(popups[1..], x)
  {
    forall x ensures Registered(popups, x) <==> popups[0].id == x || Registered(popups[1..], x) {
      if Registered(popups[1..], x) {
        var i :| 0 <= i < |popups[1..]| && popups[1..][i].id == x;
        assert popups[i + 1].id == x;
      }
      if Registered(popups, x) {
        var i :| 0 <= i < |popups| && popups[i].id == x;
        if i > 0 { assert popups[1..][i - 1].id == x; }
      }
    }
  }

  lemma SameIds(a: seq<Popup>, b: seq<Popup>)
    requires |a| == |b| && forall i :: 0 <= i < |a| ==> a[i].id == b[i].id
    ensures forall x :: Registered(a, x) <==> Registered(b, x)
    ensures Distinct(a) <==> Distinct(b)
  {
    forall x ensures Registered(a, x) <==> Registered(b, x) {
      if Registered(a, x) {
        var i :| 0 <= i < |a| && a[i].id == x;
        assert b[i].id == x;
      }
      if Registered(b, x) {
        var i :| 0 <= i < |b| && b[i].id == x;
        assert a[i].id == x;
      }
    }
  }

  lemma RegisteredSnoc(popups: seq<Popup>, popup: Popup)
    ensures forall x :: Registered(popups + [popup], x) <==> Registered(popups, x) || x == popup.id
    ensures Distinct(popups) && !Registered(popups, popup.id) ==> Distinct(popups + [popup])
  {
    var all := popups + [popup];
    forall x ensures Registered(all, x) <==> Registered(popups, x) || x == popup.id {
      if Registered(popups, x) {
        var i :| 0 <= i < |popups| && popups[i].id == x;
        assert all[i].id == x;
      }
      assert all[|popups|].id == popup.id;
    }
  }
}
