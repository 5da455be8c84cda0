/**
 Grouping recognised lines that belong to one paragraph: the closure of geometric
 contiguity around the target line.  Coordinates are reals; a box with a
 coordinate that is not finite is its own case.
 */
module OcrLines {
  import opened Common

  datatype Box = NotFinite | Box(left: real, top: real, right: real, bottom: real)

  predicate ValidBounds(b: Box) { b.Box? && b.right > b.left && b.bottom > b.top }

  function Gap(low: real, high: real, otherLow: real, otherHigh: real): real {
    if otherHigh < low then low - otherHigh else if otherLow > high then otherLow - high else 0.0
  }

  predicate Contiguous(a: Box, b: Box) {
    && ValidBounds(a) && ValidBounds(b)
    && var maxHeight := if a.bottom - a.top < b.bottom - b.top then b.bottom - b.top else a.bottom - a.top;
       && Gap(a.top, a.bottom, b.top, b.bottom) <= maxHeight * 1.5
       && Gap(a.left, a.right, b.left, b.right) <= maxHeight * 2.0
  }

  lemma ContiguousBothWays(a: Box, b: Box)
    ensures Contiguous(a, b) == Contiguous(b, a)
    ensures ValidBounds(a) ==> Contiguous(a, a)
  {
  }

  // ------------------------------------------------------------- components

  predicate ValidLine(lines: seq<Box>, i: nat) { i < |lines| && ValidBounds(lines[i]) }

  predicate Touch(lines: seq<Box>, i: nat, j: nat) {
    i < |lines| && j < |lines| && Contiguous(lines[i], lines[j])
  }

  ghost predicate Path(lines: seq<Box>, path: seq<nat>, from: nat, to: nat) {
    && path != [] && path[0] == from && path[|path| - 1] == to && ValidLine(lines, from)
    && forall k :: 0 <= k < |path| - 1 ==> Touch(lines, path[k], path[k + 1])
  }

  /** In the same connected component of valid lines. */
  ghost predicate Connected(lines: seq<Box>, from: nat, to: nat) { exists path :: Path(lines, path, from, to) }

  lemma ConnectedSelf(lines: seq<Box>, i: nat)
    requires ValidLine(lines, i)
    ensures Connected(lines, i, i)
  {
    assert Path(lines, [i], i, i);
  }

  lemma ConnectedStep(lines: seq<Box>, from: nat, mid: nat, to: nat)
    requires Connected(lines, from, mid) && Touch(lines, mid, to)
    ensures Connected(lines, from, to)
  {
    hide Contiguous, ValidBounds;
    var path :| Path(lines, path, from, mid);
    assert Path(lines, path + [to], from, to);
  }

  lemma {:induction false} PathConnects(lines: seq<Box>, path: seq<nat>, from: nat, mid: nat, to: nat)
    requires Connected(lines, from, mid) && Path(lines, path, mid, to)
    ensures Connected(lines, from, to)
    decreases |path|
  {
    hide Contiguous, Connected;
    if |path| > 1 {
      ConnectedStep(lines, from, mid, path[1]);
      TouchIsValid(lines, mid, path[1]);
      assert Path(lines, path[1..], path[1], to);
      PathConnects(lines, path[1..], from, path[1], to);
    }
  }

  lemma TouchIsValid(lines: seq<Box>, i: nat, j: nat)
    requires Touch(lines, i, j)
    ensures ValidLine(lines, i) && ValidLine(lines, j) && Touch(lines, j, i)
  {
    ContiguousBothWays(lines[i], lines[j]);
  }

  lemma ConnectedTransitive(lines: seq<Box>, a: nat, b: nat, c: nat)
    requires Connected(lines, a, b) && Connected(lines, b, c)
    ensures Connected(lines, a, c)
  {
    hide Path;
    var path :| Path(lines, path, b, c);
    PathConnects(lines, path, a, b, c);
  }

  lemma {:induction false} PathBack(lines: seq<Box>, path: seq<nat>, from: nat, to: nat)
    requires Path(lines, path, from, to)
    ensures Connected(lines, to, from)
    decreases |path|
  {
    hide Contiguous, Connected;
    if |path| == 1 {
      ConnectedSelf(lines, from);
    } else {
      TouchIsValid(lines, from, path[1]);
      assert Path(lines, path[1..], path[1], to);
      PathBack(lines, path[1..], path[1], to);
      ConnectedStep(lines, to, path[1], from);
    }
  }

  lemma ConnectedSymmetric(lines: seq<Box>, a: nat, b: nat)
    requires Connected(lines, a, b)
    ensures Connected(lines, b, a)
  {
    hide Path;
    var path :| Path(lines, path, a, b);
    PathBack(lines, path, a, b);
  }

  /** A set of lines that nothing outside touches holds the whole component. */
  lemma {:induction false} ClosedHoldsPath(lines: seq<Box>, group: set<nat>, path: seq<nat>, from: nat, to: nat)
    requires from in group && Path(lines, path, from, to)
    requires forall i, j :: i in group && Touch(lines, i, j) ==> j in group
    ensures to in group
    decreases |path|
  {
    hide Contiguous;
    if |path| > 1 {
      TouchIsValid(lines, from, path[1]);
      ClosedHoldsPath(lines, group, path[1..], path[1], to);
    }
  }

  // --------------------------------------------------------------- grouping

  ghost predicate StrictlySorted(s: seq<nat>) { forall i, j :: 0 <= i < j < |s| ==> s[i] < s[j] }

  /** The group of a line, as it is returned: in order, without repetition. */
  ghost predicate IsGroup(lines: seq<Box>, target: nat, group: seq<nat>) {
    StrictlySorted(group) && forall i: nat :: i in group <==> Connected(lines, target, i)
  }

  predicate TouchesAny(lines: seq<Box>, included: seq<nat>, index: nat) {
    exists k :: 0 <= k < |included| && Touch(lines, included[k], index)
  }

  method ContiguousLineGroup(lines: seq<Box>, target: nat) returns (group: seq<nat>)
    ensures !ValidLine(lines, target) ==> group == []
    ensures ValidLine(lines, target) ==> IsGroup(lines, target, group)
  {
    hide Contiguous, Connected, ValidBounds;
    if target >= |lines| || !ValidBounds(lines[target]) {
      return [];
    }
    var out: seq<nat> := [target];
    ConnectedSelf(lines, target);
    var changed := true;
    while changed
      invariant target in out && AllDistinct(out) && Below(out, |lines|)
      invariant forall i :: i in out ==> Connected(lines, target, i)
      invariant !changed ==> ClosedUpTo(lines, out, |lines|)
      decreases |lines| - |out|, changed
    {
      ghost var before := |out|;
      changed := false;
      var index := 0;
      DistinctFit(out, |lines|);
      while index < |lines|
        invariant 0 <= index <= |lines|
        invariant target in out && AllDistinct(out) && Below(out, |lines|)
        invariant forall i :: i in out ==> Connected(lines, target, i)
        invariant |out| >= before && (changed <==> |out| > before)
        invariant !changed ==> ClosedUpTo(lines, out, index)
      {
        if index !in out && ValidBounds(lines[index]) && TouchesAny(lines, out, index) {
          var k :| 0 <= k < |out| && Touch(lines, out[k], index);
          ConnectedStep(lines, target, out[k], index);
          out := out + [index];
          changed := true;
        } else {
          StillClosed(lines, out, index);
        }
        index := index + 1;
      }
      DistinctFit(out, |lines|);
    }
    ClosedIsComponent(lines, target, out);
    group := SortUnstable(out);
  }

  ghost predicate AllDistinct(s: seq<nat>) { forall i, j :: 0 <= i < j < |s| ==> s[i] != s[j] }

  ghost predicate Below(s: seq<nat>, n: nat) { forall i :: 0 <= i < |s| ==> s[i] < n }

  /** No line before `n` outside of `out` touches it. */
  ghost predicate ClosedUpTo(lines: seq<Box>, out: seq<nat>, n: nat) {
    forall j: nat :: j < n && j !in out ==> !TouchesAny(lines, out, j)
  }

  lemma StillClosed(lines: seq<Box>, out: seq<nat>, index: nat)
    requires index in out || !ValidLine(lines, index) || !TouchesAny(lines, out, index)
    ensures index in out || !TouchesAny(lines, out, index)
  {
    hide Contiguous, ValidBounds;
    if TouchesAny(lines, out, index) {
      var k :| 0 <= k < |out| && Touch(lines, out[k], index);
      TouchIsValid(lines, out[k], index);
    }
  }

  lemma {:induction false} DistinctFit(s: seq<nat>, n: nat)
    requires AllDistinct(s) && Below(s, n)
    ensures |s| <= n
    decreases n
  {
    if s != [] {
      assert n > s[0];
      if n - 1 in s {
        var k :| 0 <= k < |s| && s[k] == n - 1;
        DistinctFit(s[..k] + s[k + 1..], n - 1);
      } else {
        DistinctFit(s, n - 1);
      }
    }
  }

  lemma ClosedIsComponent(lines: seq<Box>, target: nat, out: seq<nat>)
    requires target in out && Below(out, |lines|) && ClosedUpTo(lines, out, |lines|)
    ensures forall i: nat :: Connected(lines, target, i) ==> i in out
  {
    hide Contiguous, Path;
    var group := set i | i in out;
    forall i, j | i in group && Touch(lines, i, j) ensures j in group {
      var k :| 0 <= k < |out| && out[k] == i;
      assert TouchesAny(lines, out, j);
    }
    forall i: nat | Connected(lines, target, i) ensures i in out {
      var path :| Path(lines, path, target, i);
      ClosedHoldsPath(lines, group, path, target, i);
    }
  }

  // ----------------------------------------------------------------- sorting

  function Inserted(s: seq<nat>, x: nat): seq<nat> {
    if s == [] then [x] else if x < s[0] then [x] + s else [s[0]] + Inserted(s[1..], x)
  }

  lemma {:induction false} InsertedSorts(s: seq<nat>, x: nat)
    requires StrictlySorted(s) && x !in s
    ensures StrictlySorted(Inserted(s, x))
    ensures forall i :: i in Inserted(s, x) <==> i in s || i == x
  {
    if s != [] {
      HeadFirst(s);
      assert s == [s[0]] + s[1..];
      if x >= s[0] {
        InsertedSorts(s[1..], x);
        HeadBefore(s[0], Inserted(s[1..], x));
      } else {
        HeadBefore(x, s);
      }
    }
  }

  lemma HeadFirst(s: seq<nat>)
    requires StrictlySorted(s) && s != []
    ensures StrictlySorted(s[1..]) && forall y :: y in s[1..] ==> s[0] < y
  {
  }

  lemma HeadBefore(x: nat, s: seq<nat>)
    requires StrictlySorted(s) && forall y :: y in s ==> x < y
    ensures StrictlySorted([x] + s)
  {
    assert forall i :: 0 <= i < |s| ==> s[i] in s;
  }

  method SortUnstable(s: seq<nat>) returns (sorted: seq<nat>)
    requires AllDistinct(s)
    ensures StrictlySorted(sorted) && forall i :: i in sorted <==> i in s
  {
    sorted := [];
    var k := 0;
    while k < |s|
      invariant 0 <= k <= |s|
      invariant StrictlySorted(sorted) && forall i :: i in sorted <==> i in s[..k]
    {
      assert s[k] !in s[..k];
      InsertedSorts(sorted, s[k]);
      sorted := Inserted(sorted, s[k]);
      assert s[..k + 1] == s[..k] + [s[k]];
      k := k + 1;
    }
    assert s[..k] == s;
  }

  /** A strictly sorted sequence is determined by its members. */
  lemma {:induction false} SortedIsUnique(a: seq<nat>, b: seq<nat>)
    requires StrictlySorted(a) && StrictlySorted(b) && forall i: nat :: i in a <==> i in b
    ensures a == b
    decreases |a|
  {
    assert |b| > 0 ==> b[0] in a;
    if a != [] {
      assert a[0] in b;
      assert b[0] in a;
      assert a[0] == b[0];
      forall i: nat ensures i in a[1..] <==> i in b[1..] {
        assert i in a <==> i == a[0] || i in a[1..];
        assert i in b <==> i == b[0] || i in b[1..];
        assert a[0] !in a[1..] && b[0] !in b[1..];
      }
      SortedIsUnique(a[1..], b[1..]);
    }
  }

  // ------------------------------------------------------------ the partition

  /** Groups partition the valid lines: two lines have the same group exactly when
      each is in the group of the other, and one way implies the other. */
  lemma GroupsPartition(lines: seq<Box>, a: nat, b: nat, groupA: seq<nat>, groupB: seq<nat>)
    requires ValidLine(lines, a) && ValidLine(lines, b)
    requires IsGroup(lines, a, groupA) && IsGroup(lines, b, groupB)
    ensures groupA == groupB <==> b in groupA
    ensures b in groupA <==> a in groupB
  {
    hide Connected, ValidBounds;
    ConnectedSelf(lines, b);
    if Connected(lines, a, b) {
      ConnectedSymmetric(lines, a, b);
      forall i: nat ensures Connected(lines, a, i) <==> Connected(lines, b, i) {
        if Connected(lines, a, i) {
          ConnectedTransitive(lines, b, a, i);
        }
        if Connected(lines, b, i) {
          ConnectedTransitive(lines, a, b, i);
        }
      }
      SortedIsUnique(groupA, groupB);
    }
    if Connected(lines, b, a) {
      ConnectedSymmetric(lines, b, a);
    }
  }

  // -------------------------------------------------------- the joined text

  predicate HaveTexts(group: seq<nat>, texts: seq<string>, n: nat)
    requires n <= |group|
  {
    forall k :: 0 <= k < n ==> group[k] < |texts|
  }

  /** The first `n` lines of a group, with a space before each that follows some text. */
  function Joined(group: seq<nat>, texts: seq<string>, n: nat): string
    requires n <= |group| && HaveTexts(group, texts, n)
  {
    if n == 0 then "" else Spaced(Joined(group, texts, n - 1)) + texts[group[n - 1]]
  }

  function Spaced(text: string): string { if text == "" then "" else text + " " }

  /** The place of the target's text in the joined text: behind the lines before it. */
  predicate IsOffset(group: seq<nat>, texts: seq<string>, place: nat, target: nat, offsetInLine: nat, offset: nat) {
    && place < |group| && group[place] == target && HaveTexts(group, texts, place + 1)
    && offsetInLine <= |texts[target]|
    && offset == |Spaced(Joined(group, texts, place))| + offsetInLine
  }

  /** What follows the offset in the joined text starts with what followed it in its line. */
  lemma {:induction false} OffsetMeans(group: seq<nat>, texts: seq<string>, place: nat, target: nat, offsetInLine: nat,
                                       offset: nat, n: nat)
    requires IsOffset(group, texts, place, target, offsetInLine, offset)
    requires place < n <= |group| && HaveTexts(group, texts, n)
    ensures var all := Joined(group, texts, n); offset <= |all| && texts[target][offsetInLine..] <= all[offset..]
    decreases n
  {
    hide Joined, Spaced;
    JoinedStep(group, texts, n);
    var text, last := Joined(group, texts, n - 1), texts[group[n - 1]];
    if place == n - 1 {
      Behind(Spaced(text), last, offsetInLine);
    } else {
      OffsetMeans(group, texts, place, target, offsetInLine, offset, n - 1);
      hide IsOffset;
      SpacedGrows(text, last, offset, texts[target][offsetInLine..]);
    }
  }

  lemma JoinedNone(group: seq<nat>, texts: seq<string>)
    ensures Joined(group, texts, 0) == ""
  {
  }

  lemma JoinedStep(group: seq<nat>, texts: seq<string>, n: nat)
    requires 0 < n <= |group| && HaveTexts(group, texts, n)
    ensures Joined(group, texts, n) == Spaced(Joined(group, texts, n - 1)) + texts[group[n - 1]]
  {
  }

  lemma Behind(before: string, last: string, offset: nat)
    requires offset <= |last|
    ensures last[offset..] <= (before + last)[|before| + offset..]
  {
  }

  lemma SpacedGrows(text: string, last: string, offset: nat, part: string)
    requires offset <= |text| && part <= text[offset..]
    ensures offset <= |Spaced(text) + last| && part <= (Spaced(text) + last)[offset..]
  {
    var all := Spaced(text) + last;
    assert all[..|text|] == text;
    assert part == text[offset..][..|part|] == all[offset..][..|part|];
  }

  /** Join the lines of a group with spaces, and carry the target's offset over. */
  method JoinLines(group: seq<nat>, texts: seq<string>, target: nat, offsetInLine: nat)
    returns (joined: Option<(string, nat)>)
    requires StrictlySorted(group) && target in group
    ensures joined.None? <==> !HaveTexts(group, texts, |group|) || offsetInLine > |texts[target]|
    ensures joined.Some? ==> joined.value.0 == Joined(group, texts, |group|)
    ensures joined.Some? ==> exists place :: IsOffset(group, texts, place, target, offsetInLine, joined.value.1)
    ensures joined.Some? ==>
              && joined.value.1 <= |joined.value.0|
              && texts[target][offsetInLine..] <= joined.value.0[joined.value.1..]
  {
    hide StrictlySorted, Joined;
    JoinedNone(group, texts);
    var source := "";
    var targetOffset: Option<nat> := None;
    ghost var place := 0;
    var k := 0;
    while k < |group|
      invariant 0 <= k <= |group|
      invariant HaveTexts(group, texts, k) && source == Joined(group, texts, k)
      invariant targetOffset.None? ==> forall i :: 0 <= i < k ==> group[i] != target
      invariant targetOffset.Some? ==>
                  place < k && IsOffset(group, texts, place, target, offsetInLine, targetOffset.value)
    {
      var index := group[k];
      if index >= |texts| {
        return None;
      }
      var line := texts[index];
      if source != "" {
        source := source + " ";
      }
      var lineStart := |source|;
      source := source + line;
      if index == target {
        if offsetInLine > |line| {
          return None;
        }
        targetOffset, place := Some(lineStart + offsetInLine), k;
      }
      k := k + 1;
      JoinedStep(group, texts, k);
    }
    OffsetMeans(group, texts, place, target, offsetInLine, targetOffset.value, |group|);
    return Some((source, targetOffset.value));
  }
}
