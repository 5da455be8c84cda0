/**
 Sentence extraction around a target.  Offsets count scalars; where the code cuts
 by byte length, so does the model.  `lower` is the language's lower-casing.
 */
module Sentence {
  import opened Common
  import opened Normalize

  type Lower = string -> string

  predicate IsTerminator(c: char) {
    c in {'.', '!', '?', '\U{3002}', '\U{FF01}', '\U{FF1F}', '\U{FF1B}', ';'}
  }

  predicate IsClosingQuote(c: char) {
    c in {'"', '\'', ')', ']', '}', '\U{201D}', '\U{2019}', '\U{BB}', '\U{300F}', '\U{300D}', '\U{300B}', '\U{FF09}',
          '\U{FF3D}', '\U{FF5D}'}
  }

  predicate StartsToken(c: char) { IsWhitespace(c) || c in {'(', '[', '"', '\''} }

  predicate Listed(token: string) {
    token in ["mr.", "mrs.", "ms.", "dr.", "prof.", "sr.", "jr.", "st.", "vs.", "etc.", "e.g.", "i.e.",
              "fig.", "no.", "u.s.", "u.k."]
  }

  predicate AllCapitals(token: string) { forall i :: 0 <= i < |token| ==> 'A' <= token[i] <= 'Z' || token[i] == '.' }

  /** Where the token that ends before `index` starts. */
  function TokenStart(text: string, index: nat): (start: nat)
    requires index <= |text|
    ensures start <= index
    ensures forall k :: start <= k < index ==> !StartsToken(text[k])
    ensures start > 0 ==> StartsToken(text[start - 1])
  {
    if index == 0 || StartsToken(text[index - 1]) then index else TokenStart(text, index - 1)
  }

  /** The capitals are looked for in the lower-cased token. */
  predicate Abbreviates(lower: Lower, token: string) { Listed(lower(token)) || AllCapitals(lower(token)) }

  predicate LowercaseAt(text: string, i: nat) { i < |text| && 'a' <= text[i] <= 'z' }

  predicate IsAbbreviation(lower: Lower, text: string, index: nat)
    requires index < |text|
  {
    Abbreviates(lower, text[TokenStart(text, index)..index + 1]) || LowercaseAt(text, index + 1)
  }

  predicate IsBoundary(lower: Lower, text: string, index: nat)
    requires index < |text|
  {
    IsTerminator(text[index]) && !(text[index] == '.' && IsAbbreviation(lower, text, index))
  }

  // --------------------------------------------------------------- bounds

  /** Past closing quotes and whitespace. */
  function SkipGap(text: string, index: nat): (r: nat)
    requires index <= |text|
    ensures index <= r <= |text|
    ensures forall k :: index <= k < r ==> IsClosingQuote(text[k]) || IsWhitespace(text[k])
    ensures r < |text| ==> !IsClosingQuote(text[r]) && !IsWhitespace(text[r])
    decreases |text| - index
  {
    if index < |text| && (IsClosingQuote(text[index]) || IsWhitespace(text[index])) then SkipGap(text, index + 1) else index
  }

  function SkipClosers(text: string, index: nat): (r: nat)
    requires index <= |text|
    ensures index <= r <= |text|
    ensures forall k :: index <= k < r ==> IsClosingQuote(text[k])
    ensures r < |text| ==> !IsClosingQuote(text[r])
    decreases |text| - index
  {
    if index < |text| && IsClosingQuote(text[index]) then SkipClosers(text, index + 1) else index
  }

  function LastBoundary(lower: Lower, text: string, offset: nat): (r: Option<nat>)
    requires offset <= |text|
    ensures r.Some? ==> r.value < offset && IsBoundary(lower, text, r.value)
    ensures forall k :: (if r.Some? then r.value + 1 else 0) <= k < offset ==> !IsBoundary(lower, text, k)
  {
    if offset == 0 then None
    else if IsBoundary(lower, text, offset - 1) then Some(offset - 1)
    else LastBoundary(lower, text, offset - 1)
  }

  function FirstBoundary(lower: Lower, text: string, offset: nat): (r: Option<nat>)
    requires offset <= |text|
    ensures r.Some? ==> offset <= r.value < |text| && IsBoundary(lower, text, r.value)
    ensures forall k :: offset <= k < (if r.Some? then r.value else |text|) ==> !IsBoundary(lower, text, k)
    decreases |text| - offset
  {
    if offset == |text| then None
    else if IsBoundary(lower, text, offset) then Some(offset)
    else FirstBoundary(lower, text, offset + 1)
  }

  function Clamp(text: string, offset: nat): nat { if offset < |text| then offset else |text| }

  function Left(lower: Lower, text: string, offset: nat): (r: nat)
    ensures r <= |text|
  {
    var last := LastBoundary(lower, text, Clamp(text, offset));
    if last.Some? then SkipGap(text, last.value + 1) else 0
  }

  function Right(lower: Lower, text: string, offset: nat): (r: nat)
    ensures r <= |text|
  {
    var first := FirstBoundary(lower, text, Clamp(text, offset));
    if first.Some? then SkipClosers(text, first.value + 1) else |text|
  }

  method SentenceBounds(lower: Lower, text: string, offset: nat) returns (left: nat, right: nat)
    ensures left == Left(lower, text, offset) && right == Right(lower, text, offset)
  {
    hide IsBoundary, IsClosingQuote, IsWhitespace, LastBoundary, FirstBoundary, SkipGap, SkipClosers;
    LeftOfNothing(lower, text);
    var clamped := if offset < |text| then offset else |text|;
    left := 0;
    var index := 0;
    while index < clamped
      invariant 0 <= index <= clamped
      invariant left == Left(lower, text, index)
    {
      LeftStep(lower, text, index);
      if IsBoundary(lower, text, index) {
        left := PastGap(text, index + 1);
      }
      index := index + 1;
    }
    right := |text|;
    while index < |text|
      invariant clamped <= index <= |text|
      invariant FirstBoundary(lower, text, index) == FirstBoundary(lower, text, clamped)
      invariant right == |text|
    {
      FirstStep(lower, text, index);
      if IsBoundary(lower, text, index) {
        right := PastClosers(text, index + 1);
        break;
      }
      index := index + 1;
    }
    FirstOfNothing(lower, text);
  }

  lemma LeftOfNothing(lower: Lower, text: string)
    ensures Left(lower, text, 0) == 0
  {
  }

  lemma LeftStep(lower: Lower, text: string, index: nat)
    requires index < |text|
    ensures Left(lower, text, index + 1)
         == if IsBoundary(lower, text, index) then SkipGap(text, index + 1) else Left(lower, text, index)
  {
    hide IsBoundary, SkipGap;
  }

  lemma FirstStep(lower: Lower, text: string, index: nat)
    requires index < |text|
    ensures FirstBoundary(lower, text, index)
         == if IsBoundary(lower, text, index) then Some(index) else FirstBoundary(lower, text, index + 1)
  {
    hide IsBoundary;
  }

  lemma FirstOfNothing(lower: Lower, text: string)
    ensures FirstBoundary(lower, text, |text|).None?
  {
  }

  method PastGap(text: string, start: nat) returns (index: nat)
    requires start <= |text|
    ensures index == SkipGap(text, start)
  {
    index := start;
    while index < |text| && (IsClosingQuote(text[index]) || IsWhitespace(text[index]))
      invariant start <= index <= |text|
      invariant SkipGap(text, index) == SkipGap(text, start)
    {
      index := index + 1;
    }
  }

  method PastClosers(text: string, start: nat) returns (index: nat)
    requires start <= |text|
    ensures index == SkipClosers(text, start)
  {
    index := start;
    while index < |text|
      invariant start <= index <= |text|
      invariant SkipClosers(text, index) == SkipClosers(text, start)
    {
      if !IsClosingQuote(text[index]) {
        break;
      }
      index := index + 1;
    }
  }

  lemma TerminatorIsSolid(c: char)
    requires IsTerminator(c)
    ensures !IsClosingQuote(c) && !IsWhitespace(c) && !StartsToken(c)
  {
  }

  lemma BoundaryIsSolid(lower: Lower, text: string, index: nat)
    requires index < |text| && IsBoundary(lower, text, index)
    ensures !IsClosingQuote(text[index]) && !IsWhitespace(text[index])
  {
    TerminatorIsSolid(text[index]);
  }

  /** The bounds are ordered, and inside them there is no boundary other than the
      final terminator, which only closing quotes follow. */
  lemma BoundsHoldOneSentence(lower: Lower, text: string, offset: nat)
    ensures var left, right := Left(lower, text, offset), Right(lower, text, offset);
            && left <= right <= |text|
            && (forall k :: left <= k < right && IsBoundary(lower, text, k) ==>
                  Clamp(text, offset) <= k && forall m :: k < m < right ==> IsClosingQuote(text[m]))
            && (right < |text| ==> exists k :: left <= k < right && IsBoundary(lower, text, k))
  {
    hide IsBoundary, IsClosingQuote, IsWhitespace;
    var o := Clamp(text, offset);
    var last, first := LastBoundary(lower, text, o), FirstBoundary(lower, text, o);
    var left, right := Left(lower, text, offset), Right(lower, text, offset);
    forall k | 0 <= k < |text| && IsBoundary(lower, text, k)
      ensures !IsClosingQuote(text[k]) && !IsWhitespace(text[k])
    {
      BoundaryIsSolid(lower, text, k);
    }
    assert first.Some? ==> left <= first.value < right;
  }

  /** Two offsets give the same sentence, or two that do not overlap, in order. */
  lemma BoundsPartition(lower: Lower, text: string, a: nat, b: nat)
    requires a <= b
    ensures var (la, ra) := (Left(lower, text, a), Right(lower, text, a));
            var (lb, rb) := (Left(lower, text, b), Right(lower, text, b));
            (la == lb && ra == rb) || ra <= lb
  {
    hide IsBoundary, IsClosingQuote, IsWhitespace;
    var x, y := Clamp(text, a), Clamp(text, b);
    var first := FirstBoundary(lower, text, x);
    if first.Some? && first.value < y {
      var j := first.value;
      var last := LastBoundary(lower, text, y).value;
      BoundaryIsSolid(lower, text, last);
      assert last >= j;
      assert SkipClosers(text, j + 1) <= SkipGap(text, last + 1) by {
        GapsGrow(text, j, last);
      }
    } else {
      SameLast(lower, text, x, y);
      SameFirst(lower, text, x, y);
    }
  }

  lemma GapsGrow(text: string, j: nat, last: nat)
    requires j <= last < |text| && !IsClosingQuote(text[last])
    ensures SkipClosers(text, j + 1) <= SkipGap(text, last + 1)
  {
    hide IsClosingQuote, IsWhitespace;
    if j == last {
      ClosersInGap(text, j + 1);
    }
  }

  lemma {:induction false} ClosersInGap(text: string, index: nat)
    requires index <= |text|
    ensures SkipClosers(text, index) <= SkipGap(text, index)
    decreases |text| - index
  {
    hide IsClosingQuote, IsWhitespace;
    if index < |text| {
      ClosersInGap(text, index + 1);
    }
  }

  lemma {:induction false} SameLast(lower: Lower, text: string, x: nat, y: nat)
    requires x <= y <= |text| && forall k :: x <= k < y ==> !IsBoundary(lower, text, k)
    ensures LastBoundary(lower, text, x) == LastBoundary(lower, text, y)
    decreases y
  {
    hide IsBoundary;
    if x < y {
      SameLast(lower, text, x, y - 1);
    }
  }

  lemma {:induction false} SameFirst(lower: Lower, text: string, x: nat, y: nat)
    requires x <= y <= |text| && forall k :: x <= k < y ==> !IsBoundary(lower, text, k)
    ensures FirstBoundary(lower, text, x) == FirstBoundary(lower, text, y)
    decreases y - x
  {
    hide IsBoundary;
    if x < y {
      SameFirst(lower, text, x + 1, y);
    }
  }

  // -------------------------------------------------------------- targets

  /** How many scalars make up exactly `n` bytes, if a cut there is between scalars. */
  function ScalarsIn(text: string, n: nat): (r: Option<nat>)
    ensures r.Some? ==> r.value <= |text| && Bytes(text[..r.value]) == n
  {
    if n == 0 then Some(0)
    else if text == "" || Width(text[0]) > n then None
    else
      var rest := ScalarsIn(text[1..], n - Width(text[0]));
      if rest.None? then None
      else
        assert text[..rest.value + 1][1..] == text[1..][..rest.value];
        Some(rest.value + 1)
  }

  function SentenceForTargetAt(lower: Lower, context: string, target: string, offset: nat): Option<string> {
    var needle := Trim(target);
    if needle == "" || offset > |context| then None
    else
      var length := ScalarsIn(context[offset..], Bytes(needle));
      if length.None? then None
      else if NormalizeText(context[offset..offset + length.value]) != NormalizeText(needle) then None
      else
        BoundsHoldOneSentence(lower, context, offset);
        var sentence := Trim(context[Left(lower, context, offset)..Right(lower, context, offset)]);
        if sentence == "" then None else Some(sentence)
  }

  function FindFrom(source: string, needle: string, i: nat): (r: Option<nat>)
    requires i <= |source|
    ensures r.Some? ==> i <= r.value && OccursAt(source, needle, r.value)
    ensures forall k :: i <= k < (if r.Some? then r.value else |source| + 1) ==> !OccursAt(source, needle, k)
    decreases |source| - i
  {
    if OccursAt(source, needle, i) then Some(i)
    else if i == |source| then None
    else FindFrom(source, needle, i + 1)
  }

  predicate IsAscii(text: string) { forall i :: 0 <= i < |text| ==> text[i] < '\U{80}' }

  function AsciiLower(c: char): char { if 'A' <= c <= 'Z' then (c as int + 32) as char else c }

  predicate EqIgnoreAsciiCase(a: string, b: string) {
    |a| == |b| && forall i :: 0 <= i < |a| ==> AsciiLower(a[i]) == AsciiLower(b[i])
  }

  function FindIgnoringCase(source: string, needle: string, i: nat): (r: Option<nat>)
    requires i <= |source|
    ensures r.Some? ==> r.value <= |source| && OccursIgnoringCase(source, needle, r.value)
    decreases |source| - i
  {
    if i == |source| then None
    else if OccursIgnoringCase(source, needle, i) then Some(i)
    else FindIgnoringCase(source, needle, i + 1)
  }

  /** As many bytes as `needle` has, from `i` on, equal it but for ASCII case. */
  predicate OccursIgnoringCase(source: string, needle: string, i: nat)
    requires i <= |source|
  {
    var length := ScalarsIn(source[i..], Bytes(needle));
    length.Some? && EqIgnoreAsciiCase(source[i..i + length.value], needle)
  }

  function FindTarget(source: string, target: string): (r: Option<nat>)
    ensures r.Some? ==> r.value <= |source|
  {
    var needle := Trim(target);
    if needle == "" then None
    else
      var exact := FindFrom(source, needle, 0);
      if exact.Some? then exact
      else if IsAscii(needle) then FindIgnoringCase(source, needle, 0)
      else None
  }

  function SentenceForTarget(lower: Lower, context: string, target: string): Option<string> {
    var start := FindTarget(context, target);
    if start.None? then None else SentenceForTargetAt(lower, context, target, start.value)
  }

  /** The text of the context that was compared with the target. */
  function Candidate(context: string, target: string, offset: nat): string
    requires offset <= |context| && ScalarsIn(context[offset..], Bytes(Trim(target))).Some?
  {
    context[offset..offset + ScalarsIn(context[offset..], Bytes(Trim(target))).value]
  }

  /** The ASCII case-insensitive fallback never changes an answer: the comparison
      after it is exact. */
  lemma FallbackNeverMatters(lower: Lower, context: string, target: string)
    ensures var exact := if Trim(target) == "" then None else FindFrom(context, Trim(target), 0);
            SentenceForTarget(lower, context, target)
            == if exact.None? then None else SentenceForTargetAt(lower, context, target, exact.value)
  {
    hide Left, Right, Trim, NormalizeText, FindFrom, FindIgnoringCase, IsAscii, EqIgnoreAsciiCase;
    var needle := Trim(target);
    if needle != "" && FindFrom(context, needle, 0).None? && IsAscii(needle) {
      var found := FindIgnoringCase(context, needle, 0);
      if found.Some? {
        FallbackMatchesExactly(context, target, found.value);
      }
    }
  }

  lemma FallbackMatchesExactly(context: string, target: string, i: nat)
    requires IsAscii(Trim(target))
    requires i <= |context| && ScalarsIn(context[i..], Bytes(Trim(target))).Some?
    ensures NormalizeText(Candidate(context, target, i)) == NormalizeText(Trim(target)) ==> OccursAt(context, Trim(target), i)
  {
    hide Trim, NormalizeText, Bytes, Normal;
    var needle, candidate := Trim(target), Candidate(context, target, i);
    assert candidate == context[i..][..|candidate|];
    AsciiTrimmedIsNormal(target);
    if NormalizeText(candidate) == NormalizeText(needle) {
      ExactMatch(candidate, needle);
    }
  }

  lemma AsciiTrimmedIsNormal(target: string)
    requires IsAscii(Trim(target))
    ensures Normal(Trim(target))
  {
    var lo, hi := TrimSlice(target);
  }

  /** A candidate of the same byte length that normalizes like normal text is it. */
  lemma ExactMatch(candidate: string, needle: string)
    requires Normal(needle) && Bytes(candidate) == Bytes(needle) && NormalizeText(candidate) == NormalizeText(needle)
    ensures candidate == needle
  {
    NormalizeFixed(needle);
    SameBytesSameText(candidate);
  }

  // ---------------------------------------- containment and re-extraction

  lemma {:induction false} ScalarsOfPrefix(prefix: string, rest: string)
    ensures ScalarsIn(prefix + rest, Bytes(prefix)) == Some(|prefix|)
  {
    if prefix == "" {
      assert prefix + rest == rest;
    } else {
      ScalarsOfPrefix(prefix[1..], rest);
      assert (prefix + rest)[1..] == prefix[1..] + rest;
    }
  }

  /** The target lies in words that no boundary and no skipped gap touches. */
  ghost predicate Undivided(lower: Lower, context: string, offset: nat, length: nat) {
    && offset < |context| && offset + length <= |context|
    && !IsClosingQuote(context[offset]) && !IsWhitespace(context[offset])
    && forall k :: offset <= k < offset + length ==> !IsBoundary(lower, context, k)
  }

  lemma BoundsSurround(lower: Lower, context: string, offset: nat, length: nat)
    requires Undivided(lower, context, offset, length)
    ensures Left(lower, context, offset) <= offset && offset + length <= Right(lower, context, offset)
  {
    hide IsBoundary, IsClosingQuote, IsWhitespace;
    var last := LastBoundary(lower, context, offset);
    if last.Some? {
      assert last.value + 1 <= offset;
      assert SkipGap(context, last.value + 1) <= offset;
    }
  }

  predicate InGap(c: char) { IsClosingQuote(c) || IsWhitespace(c) }

  /** Something solid stands between every earlier boundary and the end of `offset`. */
  ghost predicate OutsideGaps(lower: Lower, context: string, offset: nat)
    requires offset < |context|
  {
    forall j :: 0 <= j < offset && IsBoundary(lower, context, j) ==> exists k :: j < k <= offset && !InGap(context[k])
  }

  /** Only closing quotes follow a boundary among the `length` scalars at `offset`. */
  ghost predicate EndsWithBoundary(lower: Lower, context: string, offset: nat, length: nat)
    requires offset + length <= |context|
  {
    forall k, m :: offset <= k < m < offset + length && IsBoundary(lower, context, k) ==> IsClosingQuote(context[m])
  }

  /** The bounds cover the text at an offset exactly when it starts outside the gaps
      between sentences and a boundary in it can only be its end. */
  lemma BoundsCoverIff(lower: Lower, context: string, offset: nat, length: nat)
    requires 0 < length && offset + length <= |context|
    ensures Left(lower, context, offset) <= offset && offset + length <= Right(lower, context, offset)
            <==> OutsideGaps(lower, context, offset) && EndsWithBoundary(lower, context, offset, length)
  {
    hide IsBoundary, IsClosingQuote, IsWhitespace;
    CoversLeft(lower, context, offset);
    CoversRight(lower, context, offset, length);
  }

  lemma CoversLeft(lower: Lower, context: string, offset: nat)
    requires offset < |context|
    ensures Left(lower, context, offset) <= offset <==> OutsideGaps(lower, context, offset)
  {
    hide IsBoundary, IsClosingQuote, IsWhitespace;
    var last := LastBoundary(lower, context, offset);
    if last.Some? {
      BoundaryIsSolid(lower, context, last.value);
      var left := SkipGap(context, last.value + 1);
      forall j | 0 <= j < offset && IsBoundary(lower, context, j) && left <= offset
        ensures exists k :: j < k <= offset && !InGap(context[k])
      {
        var k := if j < last.value then last.value else left;
        assert j < k <= offset && !InGap(context[k]);
      }
    }
  }

  lemma CoversRight(lower: Lower, context: string, offset: nat, length: nat)
    requires 0 < length && offset + length <= |context|
    ensures offset + length <= Right(lower, context, offset) <==> EndsWithBoundary(lower, context, offset, length)
  {
    hide IsBoundary, IsClosingQuote, IsWhitespace;
    var first := FirstBoundary(lower, context, offset);
    if first.Some? {
      var right := SkipClosers(context, first.value + 1);
      forall k, m | offset <= k < m < offset + length <= right && IsBoundary(lower, context, k)
        ensures IsClosingQuote(context[m])
      {
        assert first.value <= k;
      }
      if right < offset + length {
        assert offset <= first.value < right < offset + length && !IsClosingQuote(context[right]);
      }
    }
  }

  /** A trimmed slice of the context. */
  lemma TrimmedSlice(context: string, left: nat, right: nat) returns (a: nat, b: nat)
    requires left <= right <= |context|
    ensures left <= a <= b <= right && Trim(context[left..right]) == context[a..b]
    ensures forall k :: left <= k < a || b <= k < right ==> IsWhitespace(context[k])
  {
    hide IsWhitespace;
    var slice := context[left..right];
    var lo, hi := TrimSlice(slice);
    a, b := left + lo, left + hi;
    SliceOfSlice(context, left, right, lo, hi);
    forall k | left <= k < a || b <= k < right ensures IsWhitespace(context[k]) {
      assert context[k] == slice[k - left];
    }
  }

  /** Trimming a slice does not cut into text that starts with no whitespace. */
  lemma KeptByTrimming(context: string, left: nat, right: nat, a: nat, b: nat, offset: nat, candidate: string)
    requires left <= offset && OccursAt(context, candidate, offset) && offset + |candidate| <= right <= |context|
    requires candidate != "" && !IsWhitespace(candidate[0])
    requires left <= a <= b <= right
    requires forall k :: left <= k < a || b <= k < right ==> IsWhitespace(context[k])
    ensures a <= offset && offset + |Trim(candidate)| <= b
    ensures Trim(candidate) != "" && Trim(candidate) <= candidate
  {
    hide IsWhitespace;
    var l, h := TrimSlice(candidate);
    assert context[offset] == candidate[0];
    assert l == 0 && h > 0;
    assert context[offset + h - 1] == candidate[h - 1] == Trim(candidate)[h - 1];
  }

  lemma OccursInSlice(context: string, a: nat, b: nat, offset: nat, found: string)
    requires a <= offset && offset + |found| <= b <= |context| && OccursAt(context, found, offset)
    ensures OccursAt(context[a..b], found, offset - a)
  {
    SliceOfSlice(context, a, b, offset - a, offset - a + |found|);
  }

  lemma CandidateOccurs(lower: Lower, context: string, target: string, offset: nat)
    requires SentenceForTargetAt(lower, context, target, offset).Some?
    ensures var candidate := Candidate(context, target, offset);
            && candidate != "" && OccursAt(context, candidate, offset)
            && NormalizeText(candidate) == NormalizeText(Trim(target))
            && (Normal(Trim(target)) ==> candidate == Trim(target))
  {
    hide NormalizeText, Normal, Left, Right;
    var candidate := Candidate(context, target, offset);
    assert candidate == context[offset..][..|candidate|];
    if Normal(Trim(target)) {
      ExactMatch(candidate, Trim(target));
    }
  }

  lemma OccursInContext(context: string, a: nat, b: nat, p: nat, part: string)
    requires a <= b <= |context| && OccursAt(context[a..b], part, p)
    ensures OccursAt(context, part, a + p) && a + p + |part| <= b
  {
    SliceOfSlice(context, a, b, p, p + |part|);
  }

  /** The sentence contains the text that was compared with the target, whenever that
      text starts outside a gap and contains no boundary. */
  lemma SentenceContains(lower: Lower, context: string, target: string, offset: nat) returns (p: nat)
    requires SentenceForTargetAt(lower, context, target, offset).Some?
    requires Undivided(lower, context, offset, |Candidate(context, target, offset)|)
    ensures var candidate := Candidate(context, target, offset);
            && OccursAt(SentenceForTargetAt(lower, context, target, offset).value, Trim(candidate), p)
            && NormalizeText(candidate) == NormalizeText(Trim(target))
            && (Normal(Trim(target)) ==> candidate == Trim(target))
  {
    hide IsBoundary, IsClosingQuote, IsWhitespace, Left, Right, NormalizeText, Normal, Trim, ScalarsIn, Candidate;
    var candidate := Candidate(context, target, offset);
    var left, right := Left(lower, context, offset), Right(lower, context, offset);
    CandidateOccurs(lower, context, target, offset);
    BoundsSurround(lower, context, offset, |candidate|);
    var a, b := TrimmedSlice(context, left, right);
    KeptByTrimming(context, left, right, a, b, offset, candidate);
    assert OccursAt(context, Trim(candidate), offset) by {
      assert context[offset..offset + |Trim(candidate)|] == candidate[..|Trim(candidate)|];
    }
    OccursInSlice(context, a, b, offset, Trim(candidate));
    p := offset - a;
  }

  /** An abbreviation of the context that reaches back over the start of the sentence,
      whose part inside is none, and behind which the sentence goes on. */
  ghost predicate Splits(lower: Lower, context: string, left: nat, end: nat, i: nat)
    requires end <= |context|
  {
    && left <= i < end && context[i] == '.' && TokenStart(context, i) < left
    && Abbreviates(lower, context[TokenStart(context, i)..i + 1]) && !Abbreviates(lower, context[left..i + 1])
    && !LowercaseAt(context, i + 1)
    && exists k :: i < k < end && !IsClosingQuote(context[k])
  }

  ghost predicate NoneSplits(lower: Lower, context: string, left: nat, end: nat)
    requires end <= |context|
  {
    forall i: nat :: !Splits(lower, context, left, end, i)
  }

  /** The sentence around `offset` without the whitespace at its ends. */
  ghost predicate Framed(lower: Lower, context: string, offset: nat, a: nat, b: nat) {
    var left, right := Left(lower, context, offset), Right(lower, context, offset);
    && left <= a <= b <= right
    && forall k :: left <= k < a || b <= k < right ==> IsWhitespace(context[k])
  }

  lemma {:induction false} TokenStartSlice(context: string, a: nat, b: nat, i: nat)
    requires a <= i <= b <= |context| && a <= TokenStart(context, i)
    ensures TokenStart(context[a..b], i - a) == TokenStart(context, i) - a
    decreases i
  {
    hide StartsToken;
    if i > a && !StartsToken(context[i - 1]) {
      TokenStartSlice(context, a, b, i - 1);
    }
  }

  /** Trimmed whitespace is not part of a token. */
  lemma TokenInside(context: string, left: nat, a: nat, i: nat)
    requires left <= a <= i < |context| && left <= TokenStart(context, i)
    requires forall k :: left <= k < a ==> IsWhitespace(context[k])
    ensures a <= TokenStart(context, i)
  {
    hide IsWhitespace;
    assert a == left || StartsToken(context[a - 1]);
  }

  lemma SameToken(lower: Lower, context: string, left: nat, a: nat, b: nat, i: nat)
    requires left <= a <= i < b <= |context| && left <= TokenStart(context, i)
    requires forall k :: left <= k < a ==> IsWhitespace(context[k])
    ensures context[a..b][TokenStart(context[a..b], i - a)..i - a + 1] == context[TokenStart(context, i)..i + 1]
  {
    hide IsWhitespace, TokenStart, StartsToken;
    var start := TokenStart(context, i);
    TokenInside(context, left, a, i);
    TokenStartSlice(context, a, b, i);
    SliceOfSlice(context, a, b, start - a, i - a + 1);
  }

  /** A token that is cut by the start of the sentence starts with the sentence. */
  lemma CutToken(context: string, left: nat, b: nat, i: nat)
    requires left <= i < b <= |context| && TokenStart(context, i) < left
    ensures context[left..b][TokenStart(context[left..b], i - left)..i - left + 1] == context[left..i + 1]
  {
    hide StartsToken;
    assert forall k :: 0 <= k < i - left ==> context[left..b][k] == context[left + k];
    SliceOfSlice(context, left, b, 0, i - left + 1);
  }

  lemma SolidStart(lower: Lower, context: string, offset: nat, a: nat, b: nat)
    requires Framed(lower, context, offset, a, b) && a < b
    ensures Left(lower, context, offset) > 0 ==> a == Left(lower, context, offset)
  {
    hide IsBoundary, IsClosingQuote, IsWhitespace;
  }

  /** What follows a position of the sentence, in the context and in the sentence. */
  lemma SameNext(lower: Lower, context: string, offset: nat, a: nat, b: nat, m: nat)
    requires Framed(lower, context, offset, a, b) && a + m < b && context[a + m] == '.'
    requires !IsBoundary(lower, context, a + m)
    ensures LowercaseAt(context, a + m + 1) == LowercaseAt(context[a..b], m + 1)
  {
    hide IsBoundary, IsClosingQuote, IsWhitespace, Left, Right;
    var right := Right(lower, context, offset);
    if right < |context| {
      DotGoesOn(lower, context, offset, a + m);
    }
    if a + m + 1 < b {
      assert context[a..b][m + 1] == context[a + m + 1];
    } else if b < right {
      WhitespaceIsNotLower(context[b]);
    }
  }

  /** A sentence that ends before the text does not end with a dot that is no boundary. */
  lemma DotGoesOn(lower: Lower, context: string, offset: nat, i: nat)
    requires Left(lower, context, offset) <= i < Right(lower, context, offset) < |context|
    requires context[i] == '.' && !IsBoundary(lower, context, i)
    ensures i + 1 < Right(lower, context, offset)
  {
    hide IsBoundary, IsClosingQuote, IsWhitespace, Left, Right;
    BoundsHoldOneSentence(lower, context, offset);
    DotIsNotClosing();
    var k :| Left(lower, context, offset) <= k < Right(lower, context, offset) && IsBoundary(lower, context, k);
  }

  /** A boundary of the sentence is one of the context, or a split, or only closing
      quotes follow it. */
  lemma BoundaryInSentence(lower: Lower, context: string, offset: nat, a: nat, b: nat, m: nat)
    requires Framed(lower, context, offset, a, b) && a + m < b && IsBoundary(lower, context[a..b], m)
    ensures var left := Left(lower, context, offset);
            || IsBoundary(lower, context, a + m)
            || (a == left && Splits(lower, context, left, b, a + m))
            || (forall k :: a + m < k < b ==> IsClosingQuote(context[k]))
  {
    hide IsWhitespace, IsTerminator, IsClosingQuote, Abbreviates, TokenStart, Left, Right;
    var left := Left(lower, context, offset);
    if !IsBoundary(lower, context, a + m) {
      SameNext(lower, context, offset, a, b, m);
      if left <= TokenStart(context, a + m) {
        SameToken(lower, context, left, a, b, a + m);
      } else {
        SolidStart(lower, context, offset, a, b);
        CutToken(context, left, b, a + m);
      }
    }
  }

  /** A split is a boundary of the sentence. */
  lemma SplitIsBoundary(lower: Lower, context: string, left: nat, end: nat, i: nat)
    requires left <= end <= |context| && Splits(lower, context, left, end, i)
    ensures IsBoundary(lower, context[left..end], i - left)
  {
    hide Abbreviates, TokenStart, IsClosingQuote;
    CutToken(context, left, end, i);
    if i + 1 < end {
      assert context[left..end][i - left + 1] == context[i + 1];
    }
  }

  lemma WhitespaceIsNotLower(c: char)
    ensures IsWhitespace(c) ==> !('a' <= c <= 'z')
  {
  }

  /** Re-extracting a target from the sentence it was extracted from gives the same
      sentence exactly if no abbreviation splits at the start of the sentence. */
  lemma SentenceIsStable(lower: Lower, context: string, target: string, offset: nat)
    requires SentenceForTargetAt(lower, context, target, offset).Some? && Normal(Trim(target))
    requires Undivided(lower, context, offset, |Candidate(context, target, offset)|)
    ensures var s, left := SentenceForTargetAt(lower, context, target, offset), Left(lower, context, offset);
            && left + |s.value| <= |context|
            && (SentenceForTarget(lower, s.value, target) == s <==> NoneSplits(lower, context, left, left + |s.value|))
  {
    hide IsBoundary, IsClosingQuote, IsWhitespace, Left, Right, Normal, NoneSplits, Undivided, NormalizeText, Trim;
    var needle := Trim(target);
    var left, right := Left(lower, context, offset), Right(lower, context, offset);
    CandidateOccurs(lower, context, target, offset);
    BoundsSurround(lower, context, offset, |needle|);
    var a, b := TrimmedSlice(context, left, right);
    var s := context[a..b];
    StartsSolid(lower, context, offset, |needle|);
    TrimAgain(target);
    KeptByTrimming(context, left, right, a, b, offset, needle);
    OccursInSlice(context, a, b, offset, needle);
    var at := FindFrom(s, needle, 0).value;
    FallbackNeverMatters(lower, s, target);
    if NoneSplits(lower, context, left, left + |s|) {
      assert needle[0] == context[offset];
      WholeSentence(lower, context, offset, needle, a, b, at);
      FoundAgain(lower, context, target, left, right, s, at);
    } else {
      BrokenSentence(lower, context, offset, needle, a, b, at);
      FoundLess(lower, s, target, at);
    }
  }

  /** A sentence whose bounds are not all of it is not extracted whole. */
  lemma FoundLess(lower: Lower, s: string, target: string, at: nat)
    requires at <= |s| && (Left(lower, s, at) > 0 || Right(lower, s, at) < |s|)
    ensures SentenceForTargetAt(lower, s, target, at) != Some(s)
  {
    hide Left, Right, NormalizeText, ScalarsIn;
    BoundsHoldOneSentence(lower, s, at);
    var lo, hi := TrimSlice(s[Left(lower, s, at)..Right(lower, s, at)]);
  }

  /** A sentence whose bounds are all of it is extracted whole. */
  lemma FoundAgain(lower: Lower, context: string, target: string, left: nat, right: nat, s: string, at: nat)
    requires left <= right <= |context| && s == Trim(context[left..right]) && s != "" && Trim(target) != ""
    requires OccursAt(s, Trim(target), at) && Left(lower, s, at) == 0 && Right(lower, s, at) == |s|
    ensures SentenceForTargetAt(lower, s, target, at) == Some(s)
  {
    hide Left, Right, NormalizeText, Trim;
    var needle := Trim(target);
    var rest := s[at + |needle|..];
    assert s[at..] == needle + rest;
    ScalarsOfPrefix(needle, rest);
    TrimAgain(context[left..right]);
    assert s[0..|s|] == s;
  }

  /** Without splits only closing quotes follow a boundary of the sentence. */
  lemma OnlyTheEnd(lower: Lower, context: string, offset: nat, a: nat, b: nat, m: nat)
    requires Framed(lower, context, offset, a, b) && a + m < b && IsBoundary(lower, context[a..b], m)
    requires Left(lower, context, offset) + (b - a) <= |context|
    requires NoneSplits(lower, context, Left(lower, context, offset), Left(lower, context, offset) + (b - a))
    ensures forall k :: m < k < b - a ==> IsClosingQuote(context[a..b][k])
  {
    hide IsClosingQuote, IsWhitespace, Left, Right, IsBoundary, Splits;
    BoundsHoldOneSentence(lower, context, offset);
    BoundaryInSentence(lower, context, offset, a, b, m);
    assert forall k :: m < k < b - a ==> context[a..b][k] == context[a + k];
  }

  lemma DotIsNotClosing()
    ensures !IsClosingQuote('.')
  {
  }

  lemma {:induction false} AllClosers(text: string, index: nat)
    requires index <= |text| && forall k :: index <= k < |text| ==> IsClosingQuote(text[k])
    ensures SkipClosers(text, index) == |text|
    decreases |text| - index
  {
    hide IsClosingQuote;
    if index < |text| {
      AllClosers(text, index + 1);
    }
  }

  lemma WholeSentence(lower: Lower, context: string, offset: nat, needle: string, a: nat, b: nat, at: nat)
    requires Framed(lower, context, offset, a, b) && Left(lower, context, offset) + (b - a) <= |context|
    requires NoneSplits(lower, context, Left(lower, context, offset), Left(lower, context, offset) + (b - a))
    requires needle != "" && !IsClosingQuote(needle[0]) && OccursAt(context[a..b], needle, at)
    ensures Left(lower, context[a..b], at) == 0 && Right(lower, context[a..b], at) == b - a
  {
    var s := context[a..b];
    assert s[at] == needle[0];
    var last, first := LastBoundary(lower, s, at), FirstBoundary(lower, s, at);
    hide IsClosingQuote, IsWhitespace, NoneSplits, IsBoundary, Framed, LastBoundary, FirstBoundary;
    if last.Some? {
      OnlyTheEnd(lower, context, offset, a, b, last.value);
    }
    assert last.None?;
    if first.Some? {
      OnlyTheEnd(lower, context, offset, a, b, first.value);
      AllClosers(s, first.value + 1);
    }
  }

  lemma BrokenSentence(lower: Lower, context: string, offset: nat, needle: string, a: nat, b: nat, at: nat)
    requires Framed(lower, context, offset, a, b) && Left(lower, context, offset) + (b - a) <= |context|
    requires !NoneSplits(lower, context, Left(lower, context, offset), Left(lower, context, offset) + (b - a))
    requires needle != "" && OccursAt(context[a..b], needle, at)
    ensures Left(lower, context[a..b], at) > 0 || Right(lower, context[a..b], at) < b - a
  {
    hide Left, Right, IsBoundary, IsClosingQuote, IsWhitespace, Abbreviates, TokenStart, LowercaseAt;
    var left := Left(lower, context, offset);
    var i: nat :| Splits(lower, context, left, left + (b - a), i);
    SolidStart(lower, context, offset, a, b);
    SplitIsBoundary(lower, context, left, left + (b - a), i);
    var k :| i < k < left + (b - a) && !IsClosingQuote(context[k]);
    EndsEarly(lower, context[a..b], at, i - left, k - left);
  }

  /** A boundary that more than closing quotes follow cuts the sentence. */
  lemma EndsEarly(lower: Lower, s: string, at: nat, m: nat, k: nat)
    requires at < |s| && m < k < |s| && IsBoundary(lower, s, m) && !IsClosingQuote(s[k])
    ensures Left(lower, s, at) > 0 || Right(lower, s, at) < |s|
  {
    hide IsBoundary, IsClosingQuote, IsWhitespace;
    if m >= at {
      var first := FirstBoundary(lower, s, at).value;
      assert first <= m;
      assert SkipClosers(s, first + 1) <= k;
    }
  }

  lemma StartsSolid(lower: Lower, context: string, offset: nat, length: nat)
    requires Undivided(lower, context, offset, length)
    ensures offset < |context| && !IsWhitespace(context[offset]) && !IsClosingQuote(context[offset])
  {
  }

  lemma TrimAgain(text: string)
    ensures Trim(Trim(text)) == Trim(text)
  {
    hide IsWhitespace;
    var lo, hi := TrimSlice(text);
    TrimNormal(Trim(text));
  }

  // ------------------------------------------------------- counterexamples

  /** Since the capitals are looked for after lower-casing, a capital with its dot is
      no abbreviation: "U.S." is divided after its first dot, although the whole
      token is listed.  What is left of it is divided again on re-extraction. */
  lemma InitialsDivide(lower: Lower)
    requires lower("U.") == "u." && lower("U.S.") == "u.s." && lower("S.") == "s."
    ensures IsBoundary(lower, "U.S. went", 1) && !IsBoundary(lower, "U.S. went", 3)
    ensures IsBoundary(lower, "S. went", 1)
  {
    RestOfInitials(lower);
    var text := "U.S. went";
    assert TokenStart(text, 0) == 0 && TokenStart(text, 1) == 0;
    assert TokenStart(text, 2) == 0 && TokenStart(text, 3) == 0;
    assert text[0..2] == "U." && text[0..4] == "U.S.";
    assert "u."[0] == 'u';
    assert !Listed("u.");
    assert Listed("u.s.");
  }

  lemma RestOfInitials(lower: Lower)
    requires lower("S.") == "s."
    ensures IsBoundary(lower, "S. went", 1)
  {
    var text := "S. went";
    assert TokenStart(text, 0) == 0 && TokenStart(text, 1) == 0;
    assert text[0..2] == "S.";
    assert "s."[0] == 's';
    assert !Listed("s.");
  }

  /** A target that contains a boundary need not be in its own sentence. */
  lemma DividedTargetIsLost(lower: Lower)
    requires lower("Foo.") == "foo."
    ensures Right(lower, "Foo.Bar", 0) == 4 < |"Foo.Bar"|
  {
    var text := "Foo.Bar";
    assert TokenStart(text, 3) == 0 by {
      assert TokenStart(text, 0) == 0 && TokenStart(text, 1) == 0 && TokenStart(text, 2) == 0;
    }
    assert text[0..4] == "Foo.";
    assert "foo."[0] == 'f';
    assert !Listed("foo.");
    assert IsBoundary(lower, text, 3);
    assert !IsBoundary(lower, text, 0) && !IsBoundary(lower, text, 1) && !IsBoundary(lower, text, 2);
    assert FirstBoundary(lower, text, 0) == Some(3);
    assert SkipClosers(text, 4) == 4;
  }
}
