/**
 Reducing a hovered word range to one exact token.  The Unicode character classes
 are parameters; `Disjoint` is what the code relies on about them.
 */
module HoverToken {
  import opened Common
  import opened Normalize
  import Sentence

  datatype Classes = Classes(alphanumeric: char -> bool, control: char -> bool, xidContinue: char -> bool)

  predicate IsCombiningMark(c: Classes, ch: char) { ch != '_' && !c.alphanumeric(ch) && c.xidContinue(ch) }

  predicate InWord(c: Classes, ch: char) { c.alphanumeric(ch) || IsCombiningMark(c, ch) }

  predicate IsConnector(ch: char) {
    ch in {'\'', '\U{2019}', '-', '\U{2010}', '\U{2011}', '\U{2012}', '\U{2013}', '\U{2014}', '_', '.', '/', '\\'}
  }

  predicate IsPair(a: char, b: char) {
    (a == ':' && b == ':') || (a == '-' && b == '>') || (a == '=' && b == '>') || (a == '<' && b == '-')
  }

  /** Words are made of neither whitespace nor the punctuation that follows words. */
  ghost predicate Disjoint(c: Classes) {
    && (forall ch :: InWord(c, ch) ==> !IsWhitespace(ch) && ch != '+' && ch != '#')
    && !IsWhitespace('+') && !IsWhitespace('#')
  }

  // ------------------------------------------------------------- the scanner

  /** The length of the connector at `i`, longest forms first. */
  function ConnectorAt(text: string, i: nat): (n: Option<nat>)
    requires i <= |text|
    ensures n.Some? ==> 1 <= n.value <= 2 && i + n.value <= |text|
  {
    if i + 2 <= |text| && IsPair(text[i], text[i + 1]) then Some(2)
    else if i < |text| && IsConnector(text[i]) then Some(1)
    else None
  }

  function SegmentEnd(c: Classes, text: string, i: nat): (e: nat)
    requires i <= |text|
    ensures i <= e <= |text| && (forall k :: i <= k < e ==> InWord(c, text[k]))
    ensures e < |text| ==> !InWord(c, text[e])
    decreases |text| - i
  {
    if i < |text| && InWord(c, text[i]) then SegmentEnd(c, text, i + 1) else i
  }

  /** The word that a connector at `e` joins on. */
  function NextWord(c: Classes, text: string, e: nat): (next: Option<nat>)
    requires e <= |text|
    ensures next.Some? ==> e < next.value < |text| && c.alphanumeric(text[next.value])
  {
    var n := ConnectorAt(text, e);
    if n.Some? && e + n.value < |text| && c.alphanumeric(text[e + n.value]) then Some(e + n.value) else None
  }

  /** Where the words joined by connectors end. */
  function ChainEnd(c: Classes, text: string, start: nat): (e: nat)
    requires start < |text|
    ensures start < e <= |text|
    decreases |text| - start
  {
    var e := SegmentEnd(c, text, start + 1);
    var next := NextWord(c, text, e);
    if next.Some? then ChainEnd(c, text, next.value) else e
  }

  function FirstAlphanumeric(c: Classes, text: string, i: nat): (r: Option<nat>)
    requires i <= |text|
    ensures r.Some? ==> i <= r.value < |text| && c.alphanumeric(text[r.value])
    ensures forall k :: i <= k < (if r.Some? then r.value else |text|) ==> !c.alphanumeric(text[k])
    decreases |text| - i
  {
    if i == |text| then None
    else if c.alphanumeric(text[i]) then Some(i)
    else FirstAlphanumeric(c, text, i + 1)
  }

  predicate AnyAlphanumeric(c: Classes, text: string, from: nat) {
    exists k :: from <= k < |text| && c.alphanumeric(text[k])
  }

  predicate Sharp(token: string) { token in {"C", "c", "F", "f"} }

  /** The two suffixes that belong to a code token. */
  function WithSuffix(c: Classes, text: string, start: nat, end: nat): (e: nat)
    requires start <= end <= |text|
    ensures end <= e <= |text|
  {
    if end + 2 <= |text| && text[end] == '+' && text[end + 1] == '+'
    then (if AnyAlphanumeric(c, text, end + 2) then end else end + 2)
    else if Sharp(text[start..end]) && end < |text| && text[end] == '#' && !AnyAlphanumeric(c, text, end + 1) then end + 1
    else end
  }

  function Sanitized(c: Classes, value: string): Option<string> {
    var text := NormalizeText(value);
    if text == "" || (exists k :: 0 <= k < |text| && c.control(text[k])) then None
    else
      var start := FirstAlphanumeric(c, text, 0);
      if start.None? then None
      else
        var end := WithSuffix(c, text, start.value, ChainEnd(c, text, start.value));
        if AnyAlphanumeric(c, text, end) then None else Some(text[start.value..end])
  }

  method ConsumeWordSegment(c: Classes, text: string, start: nat) returns (end: nat)
    requires start < |text|
    ensures end == SegmentEnd(c, text, start + 1)
  {
    end := start + 1;
    while end < |text| && InWord(c, text[end])
      invariant start + 1 <= end <= |text|
      invariant SegmentEnd(c, text, end) == SegmentEnd(c, text, start + 1)
    {
      end := end + 1;
    }
  }

  method HasAlphanumeric(c: Classes, text: string, from: nat) returns (found: bool)
    ensures found == AnyAlphanumeric(c, text, from)
  {
    var i := from;
    while i < |text|
      invariant from <= i
      invariant forall k :: from <= k < i && k < |text| ==> !c.alphanumeric(text[k])
    {
      if c.alphanumeric(text[i]) {
        return true;
      }
      i := i + 1;
    }
    return false;
  }

  /** The scanning loop: it advances with every connector, so it ends. */
  method ConsumeChain(c: Classes, text: string, start: nat, first: nat) returns (end: nat)
    requires start < |text| && first == SegmentEnd(c, text, start + 1)
    ensures end == ChainEnd(c, text, start)
  {
    hide InWord, SegmentEnd, ConnectorAt;
    end := first;
    ghost var last := start;
    while true
      invariant start <= last < end <= |text| && end == SegmentEnd(c, text, last + 1)
      invariant ChainEnd(c, text, last) == ChainEnd(c, text, start)
      decreases |text| - end
    {
      var connector := ConnectorAt(text, end);
      if connector.None? {
        break;
      }
      var next := end + connector.value;
      if next == |text| || !c.alphanumeric(text[next]) {
        break;
      }
      last := next;
      end := ConsumeWordSegment(c, text, next);
    }
  }

  method SanitizeHoverTarget(c: Classes, value: string) returns (token: Option<string>)
    ensures token == Sanitized(c, value)
  {
    hide NormalizeText, SegmentEnd, ChainEnd, WithSuffix;
    var text := NormalizeText(value);
    if text == "" || exists k :: 0 <= k < |text| && c.control(text[k]) {
      return None;
    }
    var first := FirstAlphanumeric(c, text, 0);
    if first.None? {
      return None;
    }
    var start := first.value;
    var end := ConsumeWordSegment(c, text, start);
    end := ConsumeChain(c, text, start, end);
    end := ConsumeSuffix(c, text, start, end);
    var ambiguous := HasAlphanumeric(c, text, end);
    if ambiguous {
      return None;
    }
    return Some(text[start..end]);
  }

  method ConsumeSuffix(c: Classes, text: string, start: nat, end: nat) returns (e: nat)
    requires start <= end <= |text|
    ensures e == WithSuffix(c, text, start, end)
  {
    e := end;
    if end + 2 <= |text| && text[end] == '+' && text[end + 1] == '+' {
      var more := HasAlphanumeric(c, text, end + 2);
      if !more {
        e := end + 2;
      }
    } else if Sharp(text[start..end]) {
      if end < |text| && text[end] == '#' {
        var more := HasAlphanumeric(c, text, end + 1);
        if !more {
          e := end + 1;
        }
      }
    }
  }

  // ------------------------------------------------------------ the grammar

  ghost predicate IsSegment(c: Classes, s: string) {
    s != "" && c.alphanumeric(s[0]) && forall k :: 0 <= k < |s| ==> InWord(c, s[k])
  }

  ghost predicate IsConnectorText(s: string) {
    (|s| == 1 && IsConnector(s[0])) || (|s| == 2 && IsPair(s[0], s[1]))
  }

  /** A segment of `k` scalars and a connector of `n`, with more behind. */
  ghost predicate Joins(c: Classes, s: string, k: nat, n: nat) {
    0 < k < k + n < |s| && IsSegment(c, s[..k]) && IsConnectorText(s[k..k + n])
  }

  /** A segment, or a segment, a connector and a chain. */
  ghost predicate IsChain(c: Classes, s: string)
    decreases |s|
  {
    IsSegment(c, s) || exists k: nat, n: nat :: Joins(c, s, k, n) && IsChain(c, s[k + n..])
  }

  ghost predicate IsToken(c: Classes, s: string) {
    || IsChain(c, s)
    || (|s| > 2 && IsChain(c, s[..|s| - 2]) && s[|s| - 2..] == "++")
    || (|s| == 2 && Sharp(s[..1]) && s[1] == '#')
  }

  lemma {:induction false} ChainIsChain(c: Classes, text: string, start: nat)
    requires start < |text| && c.alphanumeric(text[start])
    ensures IsChain(c, text[start..ChainEnd(c, text, start)])
    decreases |text| - start
  {
    hide NextWord, IsChain;
    var e := SegmentEnd(c, text, start + 1);
    var next := NextWord(c, text, e);
    assert IsSegment(c, text[start..e]);
    if next.Some? {
      ChainIsChain(c, text, next.value);
      NextIsJoined(c, text, e);
      JoinChain(c, text, start, e, next.value - e, ChainEnd(c, text, next.value));
    } else {
      SegmentIsChain(c, text[start..e]);
    }
  }

  lemma SegmentIsChain(c: Classes, s: string)
    requires IsSegment(c, s)
    ensures IsChain(c, s)
  {
  }

  lemma NextIsJoined(c: Classes, text: string, e: nat)
    requires e <= |text| && NextWord(c, text, e).Some?
    ensures IsConnectorText(text[e..NextWord(c, text, e).value])
  {
  }

  lemma JoinChain(c: Classes, text: string, start: nat, e: nat, n: nat, end: nat)
    requires start < e < e + n < end <= |text|
    requires IsSegment(c, text[start..e]) && IsConnectorText(text[e..e + n]) && IsChain(c, text[e + n..end])
    ensures IsChain(c, text[start..end])
  {
    hide IsSegment, IsConnectorText;
    var s, k := text[start..end], e - start;
    SliceOfSlice(text, start, end, 0, k);
    SliceOfSlice(text, start, end, k, k + n);
    SliceOfSlice(text, start, end, k + n, |s|);
    assert s[..k] == s[0..k] && s[k + n..] == s[k + n..|s|];
    assert Joins(c, s, k, n);
  }

  /** The result is one contiguous piece of the normalized text, holds every
      alphanumeric scalar of it, and is a token of the grammar. */
  lemma SanitizedIsToken(c: Classes, value: string)
    requires Sanitized(c, value).Some?
    ensures var text, token := NormalizeText(value), Sanitized(c, value).value;
            && IsToken(c, token)
            && exists start, end :: 0 <= start < end <= |text| && token == text[start..end]
                 && forall k :: 0 <= k < |text| && c.alphanumeric(text[k]) ==> start <= k < end
  {
    hide NormalizeText, ChainEnd, IsChain, IsToken, FirstAlphanumeric, WithSuffix;
    var text := NormalizeText(value);
    var start := FirstAlphanumeric(c, text, 0).value;
    var chain := ChainEnd(c, text, start);
    ChainIsChain(c, text, start);
    SuffixedIsToken(c, text, start, chain);
    var end := WithSuffix(c, text, start, chain);
    assert Sanitized(c, value).value == text[start..end];
  }

  lemma SuffixedIsToken(c: Classes, text: string, start: nat, chain: nat)
    requires start <= chain <= |text| && IsChain(c, text[start..chain]) && start < chain
    ensures IsToken(c, text[start..WithSuffix(c, text, start, chain)])
  {
    hide IsChain, AnyAlphanumeric;
    var end := WithSuffix(c, text, start, chain);
    var token := text[start..end];
    if end == chain + 2 {
      assert token[..|token| - 2] == text[start..chain] && token[|token| - 2..] == "++";
    } else if end == chain + 1 {
      assert token[..|token| - 1] == text[start..chain];
    }
  }

  // ---------------------------------------------------------- the fixed point

  lemma {:induction false} SegmentEndSlice(c: Classes, text: string, i: nat, a: nat, b: nat)
    requires a <= i <= |text| && SegmentEnd(c, text, i) <= b <= |text|
    ensures SegmentEnd(c, text[a..b], i - a) == SegmentEnd(c, text, i) - a
    decreases |text| - i
  {
    hide InWord;
    if i < |text| && InWord(c, text[i]) {
      SegmentEndSlice(c, text, i + 1, a, b);
    }
  }

  /** Scanning a piece that ends with the chain, or goes on with a suffix, finds the
      same chain. */
  lemma {:induction false} ChainEndSlice(c: Classes, text: string, i: nat, a: nat, b: nat)
    requires a <= i < |text| && ChainEnd(c, text, i) <= b <= |text|
    requires var e := ChainEnd(c, text, i); e < b ==> text[e] == '+' || text[e] == '#'
    ensures ChainEnd(c, text[a..b], i - a) == ChainEnd(c, text, i) - a
    decreases |text| - i
  {
    hide InWord, NextWord, ChainEnd, SegmentEnd;
    var e := SegmentEnd(c, text, i + 1);
    ChainStep(c, text, i);
    ChainStep(c, text[a..b], i - a);
    SegmentEndSlice(c, text, i + 1, a, b);
    NextWordSlice(c, text, e, a, b);
    if NextWord(c, text, e).Some? {
      ChainEndSlice(c, text, NextWord(c, text, e).value, a, b);
    }
  }

  lemma ChainStep(c: Classes, text: string, i: nat)
    requires i < |text|
    ensures var e := SegmentEnd(c, text, i + 1);
            var next := NextWord(c, text, e);
            ChainEnd(c, text, i) == (if next.Some? then ChainEnd(c, text, next.value) else e) >= e
  {
  }

  lemma NextWordSlice(c: Classes, text: string, e: nat, a: nat, b: nat)
    requires a <= e <= b <= |text|
    requires var next := NextWord(c, text, e);
             if next.Some? then next.value < b else e < b ==> text[e] == '+' || text[e] == '#'
    ensures var next := NextWord(c, text, e);
            NextWord(c, text[a..b], e - a) == if next.Some? then Some(next.value - a) else None
  {
  }

  /** A piece of normal text between solid ends is normal. */
  lemma PieceIsNormal(text: string, a: nat, b: nat)
    requires Normal(text) && a < b <= |text| && !IsWhitespace(text[a]) && !IsWhitespace(text[b - 1])
    ensures NormalizeText(text[a..b]) == text[a..b]
  {
    hide IsWhitespace, IsZeroWidth, NormalizeText;
    NormalizeFixed(text[a..b]);
  }

  lemma {:induction false} ChainEndsInWord(c: Classes, text: string, start: nat)
    requires start < |text| && c.alphanumeric(text[start])
    ensures InWord(c, text[ChainEnd(c, text, start) - 1])
    ensures ChainEnd(c, text, start) < |text| ==> !InWord(c, text[ChainEnd(c, text, start)])
    decreases |text| - start
  {
    hide NextWord;
    var next := NextWord(c, text, SegmentEnd(c, text, start + 1));
    if next.Some? {
      ChainEndsInWord(c, text, next.value);
    }
  }

  /** Sanitizing a token again changes nothing. */
  lemma SanitizedIsFixed(c: Classes, value: string)
    requires Disjoint(c) && Sanitized(c, value).Some?
    ensures Sanitized(c, Sanitized(c, value).value) == Sanitized(c, value)
    ensures NormalizeText(Sanitized(c, value).value) == Sanitized(c, value).value != ""
  {
    hide NormalizeText, ChainEnd, IsWhitespace, InWord, Normal;
    var text := NormalizeText(value);
    var start := FirstAlphanumeric(c, text, 0).value;
    var chain := ChainEnd(c, text, start);
    var end := WithSuffix(c, text, start, chain);
    NormalizeFixed(value);
    ChainEndsInWord(c, text, start);
    AlphanumericInWord(c, text[start]);
    assert text[end - 1] == '+' || text[end - 1] == '#' || end == chain;
    PieceIsNormal(text, start, end);
    ChainEndSlice(c, text, start, start, end);
    var token := text[start..end];
    assert FirstAlphanumeric(c, token, 0) == Some(0);
    SuffixAgain(c, text, start, chain, end);
    assert !AnyAlphanumeric(c, token, end - start);
    assert token[0..end - start] == token;
  }

  lemma AlphanumericInWord(c: Classes, ch: char)
    ensures c.alphanumeric(ch) ==> InWord(c, ch)
  {
  }

  lemma SuffixAgain(c: Classes, text: string, start: nat, chain: nat, end: nat)
    requires start < chain <= end <= |text| && end == WithSuffix(c, text, start, chain)
    ensures WithSuffix(c, text[start..end], 0, chain - start) == end - start
  {
    var token := text[start..end];
    assert token[0..chain - start] == text[start..chain];
    assert !AnyAlphanumeric(c, token, |token|);
  }

  // ------------------------------------------------------- hovered sentences

  function HoverContext(lower: Sentence.Lower, context: Option<string>, token: string): Option<string> {
    var normal := NormalizeOptional(context);
    if normal.None? then None
    else
      var at := Sentence.FindFrom(normal.value, token, 0);
      if at.None? then None else Sentence.SentenceForTargetAt(lower, normal.value, token, at.value)
  }

  /** Clean the target, and keep the sentence of the context that contains it. */
  function SanitizedHoverText(c: Classes, lower: Sentence.Lower, text: TextContext): Option<TextContext> {
    var token := Sanitized(c, text.target);
    if token.None? then None
    else Some(text.(target := token.value, context := HoverContext(lower, text.context, token.value)))
  }

  /** The token's sentence does not depend on where it was cut from. */
  ghost predicate Unambiguous(lower: Sentence.Lower, context: string, token: string) {
    var at := Sentence.FindFrom(context, token, 0);
    && at.Some?
    && Sentence.Undivided(lower, context, at.value, |token|)
    && var s, left := Sentence.SentenceForTargetAt(lower, context, token, at.value), Sentence.Left(lower, context, at.value);
       s.Some? && left + |s.value| <= |context| && Sentence.NoneSplits(lower, context, left, left + |s.value|)
  }

  lemma NormalIsTrimmed(s: string)
    requires NormalizeText(s) == s
    ensures Normal(s) && Trim(s) == s
  {
    NormalizeFixed(s);
    TrimNormal(s);
  }

  lemma {:induction false} SentenceIsNormal(lower: Sentence.Lower, context: string, token: string, at: nat)
    requires Normal(context) && Sentence.SentenceForTargetAt(lower, context, token, at).Some?
    ensures var s := Sentence.SentenceForTargetAt(lower, context, token, at).value;
            NormalizeOptional(Some(s)) == Some(s)
  {
    hide IsWhitespace, IsZeroWidth, NormalizeText, Sentence.Left, Sentence.Right, Trim;
    var left, right := Sentence.Left(lower, context, at), Sentence.Right(lower, context, at);
    Sentence.BoundsHoldOneSentence(lower, context, at);
    var lo, hi := TrimSlice(context[left..right]);
    var s := Trim(context[left..right]);
    assert s == Sentence.SentenceForTargetAt(lower, context, token, at).value;
    assert forall i :: 0 <= i < |s| ==> s[i] == context[left + lo + i];
    assert Normal(s);
    NormalizeFixed(s);
  }

  /** Word characters neither end nor close a sentence. */
  ghost predicate Solid(c: Classes) {
    forall ch :: InWord(c, ch) ==> !Sentence.IsTerminator(ch) && !Sentence.InGap(ch)
  }

  lemma {:induction false} ChainEnds(c: Classes, s: string)
    requires IsChain(c, s)
    ensures s != "" && InWord(c, s[0]) && InWord(c, s[|s| - 1])
    decreases |s|
  {
    if !IsSegment(c, s) {
      var k: nat, n: nat :| Joins(c, s, k, n) && IsChain(c, s[k + n..]);
      ChainEnds(c, s[k + n..]);
    }
  }

  lemma TokenIsSolid(c: Classes, s: string)
    requires Solid(c) && IsToken(c, s)
    ensures s != "" && !Sentence.InGap(s[0])
    ensures !Sentence.IsTerminator(s[|s| - 1]) && !Sentence.InGap(s[|s| - 1])
  {
    hide IsChain;
    if IsChain(c, s) {
      ChainEnds(c, s);
    } else if |s| > 2 && IsChain(c, s[..|s| - 2]) {
      ChainEnds(c, s[..|s| - 2]);
      assert s[|s| - 1] == s[|s| - 2..][1] == '+';
    } else {
      assert s[0] == s[..1][0];
    }
  }

  /** A token with a boundary in it is not inside its own sentence, nor anywhere else
      in it: it stands in the context for the first time. */
  lemma DividedIsNotFound(lower: Sentence.Lower, context: string, token: string, at: nat)
    requires Sentence.FindFrom(context, token, 0) == Some(at) && token != "" && !Sentence.InGap(token[0])
    requires !Sentence.IsTerminator(token[|token| - 1]) && !Sentence.InGap(token[|token| - 1])
    requires Sentence.SentenceForTargetAt(lower, context, token, at).Some? && Normal(token) && Trim(token) == token
    requires !Sentence.Undivided(lower, context, at, |token|)
    ensures Sentence.FindFrom(Sentence.SentenceForTargetAt(lower, context, token, at).value, token, 0).None?
  {
    hide IsWhitespace, Sentence.IsClosingQuote, Sentence.Left, Sentence.Right, Trim, NormalizeText, Normal,
         Sentence.IsTerminator, Sentence.Abbreviates;
    var left, right := Sentence.Left(lower, context, at), Sentence.Right(lower, context, at);
    Sentence.BoundsHoldOneSentence(lower, context, at);
    assert context[at] == token[0] && context[at + |token| - 1] == token[|token| - 1];
    var k :| at <= k < at + |token| && Sentence.IsBoundary(lower, context, k);
    assert Sentence.IsTerminator(context[k]);
    assert k < at + |token| - 1 && !Sentence.IsClosingQuote(context[at + |token| - 1]);
    Sentence.CoversRight(lower, context, at, |token|);
    var a, b := Sentence.TrimmedSlice(context, left, right);
    var s := context[a..b];
    var found := Sentence.FindFrom(s, token, 0);
    if found.Some? {
      Sentence.OccursInContext(context, a, b, found.value, token);
    }
  }

  /** The extraction worker cleans hovered text and the request gate cleans it again.
      For hovered text with a sentence the second pass changes nothing exactly if that
      sentence does not depend on where it was cut from; then it contains the target. */
  lemma HoverTextIsFixed(c: Classes, lower: Sentence.Lower, text: TextContext)
    requires Disjoint(c) && Solid(c)
    requires SanitizedHoverText(c, lower, text).Some?
    ensures var r := SanitizedHoverText(c, lower, text);
            SanitizedHoverText(c, lower, r.value) == r <==>
            r.value.context.None? || Unambiguous(lower, NormalizeText(text.context.value), r.value.target)
    ensures var r := SanitizedHoverText(c, lower, text);
            r.value.context.Some? && SanitizedHoverText(c, lower, r.value) == r ==>
              Sentence.FindFrom(r.value.context.value, r.value.target, 0).Some?
  {
    hide NormalizeText, Sanitized, Trim, Sentence.Left, Sentence.Right, Sentence.Undivided, Sentence.NoneSplits,
         Sentence.SentenceForTargetAt, Normal, Disjoint, Solid, IsToken;
    var r := SanitizedHoverText(c, lower, text);
    SanitizedIsFixed(c, text.target);
    SanitizedIsToken(c, text.target);
    TokenIsSolid(c, r.value.target);
    if r.value.context.Some? {
      ContextIsFixed(lower, text.context, r.value.target);
    }
  }

  lemma ContextIsFixed(lower: Sentence.Lower, context: Option<string>, token: string)
    requires HoverContext(lower, context, token).Some? && NormalizeText(token) == token && token != ""
    requires !Sentence.InGap(token[0]) && !Sentence.IsTerminator(token[|token| - 1]) && !Sentence.InGap(token[|token| - 1])
    ensures context.Some?
    ensures var s := HoverContext(lower, context, token);
            && (HoverContext(lower, s, token) == s <==> Unambiguous(lower, NormalizeText(context.value), token))
            && (HoverContext(lower, s, token) == s ==> Sentence.FindFrom(s.value, token, 0).Some?)
  {
    hide NormalizeText, Trim, Sentence.Left, Sentence.Right, Sentence.Undivided, Sentence.NoneSplits,
         Sentence.SentenceForTargetAt, Normal, Sentence.InGap, Sentence.IsTerminator, Sentence.FindFrom;
    var normal := NormalizeText(context.value);
    var at := Sentence.FindFrom(normal, token, 0).value;
    NormalizeFixed(context.value);
    FoundContextIsFixed(lower, normal, token, at);
  }

  lemma FoundContextIsFixed(lower: Sentence.Lower, normal: string, token: string, at: nat)
    requires Normal(normal) && NormalizeText(token) == token && token != ""
    requires !Sentence.InGap(token[0]) && !Sentence.IsTerminator(token[|token| - 1]) && !Sentence.InGap(token[|token| - 1])
    requires Sentence.FindFrom(normal, token, 0) == Some(at)
    requires Sentence.SentenceForTargetAt(lower, normal, token, at).Some?
    ensures var s := Sentence.SentenceForTargetAt(lower, normal, token, at);
            && (HoverContext(lower, s, token) == s <==> Unambiguous(lower, normal, token))
            && (HoverContext(lower, s, token) == s ==> Sentence.FindFrom(s.value, token, 0).Some?)
  {
    hide NormalizeText, Trim, Sentence.Left, Sentence.Right, Sentence.Undivided, Sentence.NoneSplits,
         Sentence.SentenceForTargetAt, Sentence.SentenceForTarget, Normal, Sentence.InGap, Sentence.IsTerminator,
         Sentence.FindFrom, NormalizeOptional, Sentence.Candidate;
    var s := Sentence.SentenceForTargetAt(lower, normal, token, at);
    NormalIsTrimmed(token);
    SentenceIsNormal(lower, normal, token, at);
    Sentence.FallbackNeverMatters(lower, s.value, token);
    assert HoverContext(lower, s, token) == Sentence.SentenceForTarget(lower, s.value, token);
    Sentence.CandidateOccurs(lower, normal, token, at);
    if Sentence.Undivided(lower, normal, at, |token|) {
      Sentence.SentenceIsStable(lower, normal, token, at);
    } else {
      DividedIsNotFound(lower, normal, token, at);
    }
  }
}
