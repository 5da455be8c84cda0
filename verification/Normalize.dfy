/** Text values, and normalization at the request boundary. */
module Normalize {
  import opened Common

  datatype Trigger = Selection | Manual | Hover
  datatype Source = UiaSelection | UiaPoint | Clipboard | Ocr
  datatype ScreenRect = ScreenRect(left: int, top: int, right: int, bottom: int)
  datatype TextContext = TextContext(target: string, context: Option<string>, source: Source,
                                     screenRect: Option<ScreenRect>)

  /** Unicode White_Space. */
  predicate IsWhitespace(c: char) {
    || '\U{9}' <= c <= '\U{D}' || c == ' ' || c == '\U{85}' || c == '\U{A0}' || c == '\U{1680}'
    || '\U{2000}' <= c <= '\U{200A}' || c == '\U{2028}' || c == '\U{2029}' || c == '\U{202F}'
    || c == '\U{205F}' || c == '\U{3000}'
  }

  predicate IsZeroWidth(c: char) { c == '\U{200B}' || c == '\U{2060}' || c == '\U{FEFF}' }

  /** Bytes of a scalar in UTF-8. */
  function Width(c: char): (n: nat)
    ensures 1 <= n <= 4
  {
    if c < '\U{80}' then 1 else if c < '\U{800}' then 2 else if c < '\U{10000}' then 3 else 4
  }

  function Bytes(s: string): (n: nat)
    ensures n >= |s|
  {
    if s == "" then 0 else Width(s[0]) + Bytes(s[1..])
  }

  lemma {:induction false} BytesConcat(a: string, b: string)
    ensures Bytes(a + b) == Bytes(a) + Bytes(b)
  {
    if a == "" {
      assert a + b == b;
    } else {
      BytesConcat(a[1..], b);
      assert (a + b)[1..] == a[1..] + b;
    }
  }

  function WithoutZeroWidth(s: string): string {
    if s == "" then ""
    else if IsZeroWidth(s[0]) then WithoutZeroWidth(s[1..])
    else [s[0]] + WithoutZeroWidth(s[1..])
  }

  function TrimStart(s: string): string {
    if s != "" && IsWhitespace(s[0]) then TrimStart(s[1..]) else s
  }

  function TrimEnd(s: string): string {
    if s != "" && IsWhitespace(s[|s| - 1]) then TrimEnd(s[..|s| - 1]) else s
  }

  function Trim(s: string): string { TrimEnd(TrimStart(s)) }

  function NormalizeText(s: string): string { Trim(WithoutZeroWidth(s)) }

  function NormalizeOptional(s: Option<string>): Option<string> {
    if s.Some? && NormalizeText(s.value) != "" then Some(NormalizeText(s.value)) else None
  }

  /** No zero-width formatting, no whitespace at either end. */
  predicate Normal(s: string) {
    && (forall i :: 0 <= i < |s| ==> !IsZeroWidth(s[i]))
    && (s != "" ==> !IsWhitespace(s[0]) && !IsWhitespace(s[|s| - 1]))
  }

  lemma {:induction false} TrimStartSuffix(s: string)
    ensures exists k :: 0 <= k <= |s| && TrimStart(s) == s[k..] && (forall i :: 0 <= i < k ==> IsWhitespace(s[i]))
    ensures TrimStart(s) != "" ==> !IsWhitespace(TrimStart(s)[0])
  {
    if s != "" && IsWhitespace(s[0]) {
      TrimStartSuffix(s[1..]);
      var k :| 0 <= k <= |s[1..]| && TrimStart(s[1..]) == s[1..][k..]
            && (forall i :: 0 <= i < k ==> IsWhitespace(s[1..][i]));
      assert TrimStart(s) == s[k + 1..];
      forall i | 0 <= i < k + 1 ensures IsWhitespace(s[i]) {
        if i > 0 { assert s[i] == s[1..][i - 1]; }
      }
    } else {
      assert TrimStart(s) == s[0..];
    }
  }

  lemma {:induction false} TrimEndPrefix(s: string)
    ensures TrimEnd(s) <= s
    ensures forall i :: |TrimEnd(s)| <= i < |s| ==> IsWhitespace(s[i])
    ensures TrimEnd(s) != "" ==> !IsWhitespace(TrimEnd(s)[|TrimEnd(s)| - 1])
  {
    if s != "" && IsWhitespace(s[|s| - 1]) {
      TrimEndPrefix(s[..|s| - 1]);
    }
  }

  /** Trimming keeps a contiguous slice and removes nothing but whitespace. */
  lemma TrimSlice(s: string) returns (lo: nat, hi: nat)
    ensures lo <= hi <= |s| && Trim(s) == s[lo..hi]
    ensures forall i :: 0 <= i < lo || hi <= i < |s| ==> IsWhitespace(s[i])
    ensures Trim(s) != "" ==> !IsWhitespace(Trim(s)[0]) && !IsWhitespace(Trim(s)[|Trim(s)| - 1])
  {
    hide IsWhitespace, TrimStart, TrimEnd;
    var k := TrimmedFrom(s);
    var rest := s[k..];
    TrimEndPrefix(rest);
    lo, hi := k, k + |TrimEnd(rest)|;
    SliceAfter(s, k, |TrimEnd(rest)|);
    forall i | hi <= i < |s| ensures IsWhitespace(s[i]) {
      assert s[i] == rest[i - k];
    }
    assert Trim(s) != "" ==> Trim(s)[0] == rest[0];
  }

  lemma TrimmedFrom(s: string) returns (k: nat)
    ensures k <= |s| && TrimStart(s) == s[k..]
    ensures forall i :: 0 <= i < k ==> IsWhitespace(s[i])
    ensures TrimStart(s) != "" ==> !IsWhitespace(TrimStart(s)[0])
  {
    hide IsWhitespace, TrimStart;
    TrimStartSuffix(s);
    k :| 0 <= k <= |s| && TrimStart(s) == s[k..] && (forall i :: 0 <= i < k ==> IsWhitespace(s[i]));
  }

  lemma SliceAfter(s: string, k: nat, n: nat)
    requires k <= |s| && n <= |s[k..]|
    ensures s[k..][..n] == s[k..k + n]
  {
  }

  lemma {:induction false} TrimNormal(s: string)
    requires s != "" ==> !IsWhitespace(s[0]) && !IsWhitespace(s[|s| - 1])
    ensures Trim(s) == s
  {
  }

  lemma {:induction false} WithoutZeroWidthClean(s: string)
    ensures forall i :: 0 <= i < |WithoutZeroWidth(s)| ==> !IsZeroWidth(WithoutZeroWidth(s)[i])
    ensures |WithoutZeroWidth(s)| <= |s|
    ensures Bytes(WithoutZeroWidth(s)) <= Bytes(s)
    ensures (forall i :: 0 <= i < |s| ==> !IsZeroWidth(s[i])) ==> WithoutZeroWidth(s) == s
    ensures Bytes(WithoutZeroWidth(s)) == Bytes(s) ==> WithoutZeroWidth(s) == s
  {
    if s != "" {
      WithoutZeroWidthClean(s[1..]);
      assert s == [s[0]] + s[1..];
    }
  }

  /** Normalization reaches a fixed point at once, exactly on normal text. */
  lemma NormalizeFixed(s: string)
    ensures Normal(NormalizeText(s))
    ensures NormalizeText(s) == s <==> Normal(s)
    ensures NormalizeText(NormalizeText(s)) == NormalizeText(s)
  {
    hide IsWhitespace, IsZeroWidth, WithoutZeroWidth, Trim;
    NormalizedIsNormal(s);
    var n := NormalizeText(s);
    NormalIsFixed(n);
    if Normal(s) {
      NormalIsFixed(s);
    }
  }

  lemma NormalizedIsNormal(s: string)
    ensures Normal(NormalizeText(s))
  {
    hide IsWhitespace, IsZeroWidth, WithoutZeroWidth, Trim;
    WithoutZeroWidthClean(s);
    var lo, hi := TrimSlice(WithoutZeroWidth(s));
    var n := NormalizeText(s);
    assert forall i :: 0 <= i < |n| ==> n[i] == WithoutZeroWidth(s)[lo + i];
  }

  lemma NormalIsFixed(s: string)
    requires Normal(s)
    ensures NormalizeText(s) == s
  {
    hide IsWhitespace, IsZeroWidth, WithoutZeroWidth, Trim;
    WithoutZeroWidthClean(s);
    TrimNormal(s);
  }

  lemma TrimBytes(s: string)
    ensures Bytes(Trim(s)) <= Bytes(s)
    ensures Bytes(Trim(s)) == Bytes(s) ==> Trim(s) == s
  {
    var lo, hi := TrimSlice(s);
    assert s == s[..lo] + s[lo..] && s[lo..] == s[lo..hi] + s[hi..];
    BytesConcat(s[..lo], s[lo..]);
    BytesConcat(s[lo..hi], s[hi..]);
    assert Bytes(s[..lo]) >= lo && Bytes(s[hi..]) >= |s| - hi;
  }

  /** Text that normalizes to something of its own byte length is that text. */
  lemma SameBytesSameText(s: string)
    requires Bytes(NormalizeText(s)) == Bytes(s)
    ensures NormalizeText(s) == s
  {
    WithoutZeroWidthClean(s);
    TrimBytes(WithoutZeroWidth(s));
  }
}
