/**
 The incremental server-sent-events decoder.

 Rust `str` values are kept as the byte sequences they are.  JSON parsing is a
 parameter: a payload either is not JSON (`None`) or yields the two fields of
 the first choice that the decoder looks at.
 */
module Sse {
  import opened Common

  const MAX_LINE_BYTES := 64 * 1024
  const MAX_EVENT_BYTES := 256 * 1024

  datatype Error = ResponseTooLarge | MalformedJson
  datatype Event = Delta(text: seq<byte>) | Done

  /** A JSON value as far as `emit` distinguishes it. */
  datatype Json = Null | Text(text: seq<byte>) | Other
  datatype Choice = Choice(content: Option<Json>, finishReason: Option<Json>)
  type Parser = seq<byte> -> Option<Choice>

  const DATA: seq<byte> := [100, 97, 116, 97, 58]         // "data:"
  const SENTINEL: seq<byte> := [91, 68, 79, 78, 69, 93]   // "[DONE]"

  // ---------------------------------------------------------------- UTF-8

  predicate Continuation(b: byte) { 0x80 <= b <= 0xBF }

  /** Length of the well-formed code point at the head of `s`, 0 if there is none. */
  function HeadLength(s: seq<byte>): (n: nat)
    ensures n <= |s|
  {
    if s == [] then 0
    else if s[0] < 0x80 then 1
    else if 0xC2 <= s[0] <= 0xDF then
      if |s| >= 2 && Continuation(s[1]) then 2 else 0
    else if 0xE0 <= s[0] <= 0xEF then
      if |s| >= 3 && Continuation(s[1]) && Continuation(s[2])
         && (s[0] == 0xE0 ==> s[1] >= 0xA0) && (s[0] == 0xED ==> s[1] <= 0x9F) then 3 else 0
    else if 0xF0 <= s[0] <= 0xF4 then
      if |s| >= 4 && Continuation(s[1]) && Continuation(s[2]) && Continuation(s[3])
         && (s[0] == 0xF0 ==> s[1] >= 0x90) && (s[0] == 0xF4 ==> s[1] <= 0x8F) then 4 else 0
    else 0
  }

  predicate Utf8(s: seq<byte>)
    decreases |s|
  {
    s == [] || (HeadLength(s) > 0 && Utf8(s[HeadLength(s)..]))
  }

  lemma {:induction false} Utf8CarriageReturn(s: seq<byte>)
    ensures Utf8(s + [CR]) <==> Utf8(s)
    decreases |s|
  {
    if s == [] {
      assert (s + [CR])[1..] == [];
    } else {
      var n := HeadLength(s);
      assert HeadLength(s + [CR]) == n;
      if n > 0 {
        Utf8CarriageReturn(s[n..]);
        assert (s + [CR])[n..] == s[n..] + [CR];
      }
    }
  }

  // ------------------------------------------------------- specification

  /** The decoder's three fields as a value. */
  datatype State = State(bytes: seq<byte>, data: seq<seq<byte>>, dataBytes: nat)

  const INITIAL := State([], [], 0)

  type Outcome = Result<(State, seq<Event>), Error>

  function JoinLines(lines: seq<seq<byte>>): seq<byte> {
    if lines == [] then []
    else if |lines| == 1 then lines[0]
    else lines[0] + [LF] + JoinLines(lines[1..])
  }

  function PayloadEvents(payload: seq<byte>, parse: Parser): Result<seq<Event>, Error> {
    if payload == SENTINEL then Ok([Done])
    else match parse(payload)
      case None => Err(MalformedJson)
      case Some(choice) =>
        if choice.content.Some? && choice.content.value.Other? then Err(MalformedJson)
        else
          var deltas :=
            if choice.content.Some? && choice.content.value.Text? && choice.content.value.text != []
            then [Delta(choice.content.value.text)] else [];
          if choice.finishReason.None? || choice.finishReason.value.Null? then Ok(deltas)
          else if choice.finishReason.value.Text? then Ok(deltas + [Done])
          else Err(MalformedJson)
  }

  function EmitStep(s: State, parse: Parser): Outcome {
    if s.data == [] then Ok((s, []))
    else match PayloadEvents(JoinLines(s.data), parse)
      case Ok(events) => Ok((State(s.bytes, [], 0), events))
      case Err(e) => Err(e)
  }

  predicate IsData(line: seq<byte>) { DATA <= line }

  function DataValue(line: seq<byte>): seq<byte>
    requires IsData(line)
  {
    var value := line[|DATA|..];
    if value != [] && value[0] == 32 then value[1..] else value
  }

  function LineStep(s: State, line: seq<byte>, parse: Parser): Outcome {
    if line == [] then EmitStep(s, parse)
    else if IsData(line) then
      var value := DataValue(line);
      if s.dataBytes + |value| + 1 > MAX_EVENT_BYTES then Err(ResponseTooLarge)
      else Ok((State(s.bytes, s.data + [value], s.dataBytes + |value| + 1), []))
    else Ok((s, []))
  }

  function StripOneCr(line: seq<byte>): seq<byte> {
    if line != [] && line[|line| - 1] == CR then line[..|line| - 1] else line
  }

  function TrimCrs(line: seq<byte>): seq<byte> {
    if line != [] && line[|line| - 1] == CR then TrimCrs(line[..|line| - 1]) else line
  }

  /** The reference semantics consumes one byte at a time. */
  function ByteStep(s: State, b: byte, parse: Parser): Outcome {
    if b == LF then
      var line := StripOneCr(s.bytes);
      if !Utf8(line) then Err(MalformedJson) else LineStep(s.(bytes := []), line, parse)
    else if |s.bytes| + 1 > MAX_LINE_BYTES then Err(ResponseTooLarge)
    else Ok((s.(bytes := s.bytes + [b]), []))
  }

  function Decode(s: State, input: seq<byte>, parse: Parser): Outcome
    decreases |input|, 0
  {
    if input == [] then Ok((s, []))
    else Then(ByteStep(s, input[0], parse), input[1..], parse)
  }

  /** Continue decoding after an outcome, keeping the events already produced. */
  function Then(first: Outcome, rest: seq<byte>, parse: Parser): Outcome
    decreases |rest|, 1
  {
    match first
    case Err(e) => Err(e)
    case Ok((s, events)) => Prepend(events, Decode(s, rest, parse))
  }

  function Prepend(events: seq<Event>, o: Outcome): Outcome {
    match o
    case Err(e) => Err(e)
    case Ok((s, more)) => Ok((s, events + more))
  }

  /** One push per chunk, stopping at the first failure. */
  function DecodeChunks(s: State, chunks: seq<seq<byte>>, parse: Parser): Outcome
    decreases |chunks|
  {
    if chunks == [] then Ok((s, []))
    else match Decode(s, chunks[0], parse)
      case Err(e) => Err(e)
      case Ok((t, events)) => Prepend(events, DecodeChunks(t, chunks[1..], parse))
  }

  function FinishStep(s: State, parse: Parser): Outcome {
    if s.bytes == [] then EmitStep(s, parse)
    else if |s.bytes| > MAX_LINE_BYTES then Err(ResponseTooLarge)
    else if !Utf8(s.bytes) then Err(MalformedJson)
    else LineThenEmit(s.(bytes := []), TrimCrs(s.bytes), parse)
  }

  function LineThenEmit(s: State, line: seq<byte>, parse: Parser): Outcome {
    match LineStep(s, line, parse)
    case Err(e) => Err(e)
    case Ok((t, events)) => Prepend(events, EmitStep(t, parse))
  }

  function Stored(data: seq<seq<byte>>): nat {
    if data == [] then 0 else Stored(data[..|data| - 1]) + |data[|data| - 1]| + 1
  }

  /** What every successful push leaves behind. */
  ghost predicate Valid(s: State) {
    && LF !in s.bytes
    && |s.bytes| <= MAX_LINE_BYTES
    && s.dataBytes == Stored(s.data) <= MAX_EVENT_BYTES
  }

  // ---------------------------------------------------- the decoder class

  class Decoder {
    var bytes: seq<byte>
    var data: seq<seq<byte>>
    var dataBytes: nat

    ghost function Snapshot(): State
      reads this
    {
      State(bytes, data, dataBytes)
    }

    constructor ()
      ensures Snapshot() == INITIAL
    {
      bytes, data, dataBytes := [], [], 0;
    }

    /** Drains every complete line; a failed decoder is dropped by its caller. */
    method Push(input: seq<byte>, parse: Parser) returns (r: Result<seq<Event>, Error>)
      requires Valid(Snapshot())
      modifies this
      ensures r.Ok? ==> Decode(old(Snapshot()), input, parse) == Ok((Snapshot(), r.value))
      ensures r.Err? ==> Decode(old(Snapshot()), input, parse) == Err(r.error)
      ensures r.Ok? ==> Valid(Snapshot())
    {
      hide Utf8;
      ghost var start := Snapshot();
      DecodeKeepsValid(start, input, parse);
      Replay(start, input, parse);
      bytes := bytes + input;
      var events := [];
      var position: nat := IndexOfLf(bytes);
      PrependNothing(Decode(start, input, parse));
      while position < |bytes|
        invariant Valid(State([], data, dataBytes))
        invariant position <= |bytes| && LF !in bytes[..position]
        invariant position < |bytes| ==> bytes[position] == LF
        invariant Decode(start, input, parse)
               == Prepend(events, Decode(State([], data, dataBytes), bytes, parse))
        decreases |bytes|
      {
        ghost var base := State([], data, dataBytes);
        DecodeLine(base, bytes, position, parse);
        if position > MAX_LINE_BYTES {
          return Err(ResponseTooLarge);
        }
        var line := bytes[..position];
        bytes := bytes[position + 1..];
        if line != [] && line[|line| - 1] == CR {
          line := line[..|line| - 1];
        }
        if !Utf8(line) {
          return Err(MalformedJson);
        }
        LineForgetsBytes(base, bytes, line, parse);
        var step := Line(line, parse);
        if step.Err? {
          return Err(step.error);
        }
        PrependTwice(events, step.value, Decode(State([], data, dataBytes), bytes, parse));
        LineKeepsValid(base, line, parse);
        events := events + step.value;
        position := IndexOfLf(bytes);
      }
      assert bytes[..position] == bytes;
      DecodeResidue(State([], data, dataBytes), bytes, parse);
      assert [] + bytes == bytes && events + [] == events;
      if |bytes| > MAX_LINE_BYTES {
        return Err(ResponseTooLarge);
      }
      return Ok(events);
    }

    method Finish(parse: Parser) returns (r: Result<seq<Event>, Error>)
      requires Valid(Snapshot())
      modifies this
      ensures r.Ok? ==> FinishStep(old(Snapshot()), parse) == Ok((Snapshot(), r.value))
      ensures r.Err? ==> FinishStep(old(Snapshot()), parse) == Err(r.error)
    {
      var events := [];
      if bytes != [] {
        if |bytes| > MAX_LINE_BYTES {
          return Err(ResponseTooLarge);
        }
        var line := bytes;
        bytes := [];
        if !Utf8(line) {
          return Err(MalformedJson);
        }
        var end: nat := |line|;
        assert line[..end] == line;
        while end > 0 && line[end - 1] == CR
          invariant end <= |line|
          invariant TrimCrs(line) == TrimCrs(line[..end])
        {
          assert line[..end][..end - 1] == line[..end - 1];
          end := end - 1;
        }
        var first := Line(line[..end], parse);
        if first.Err? {
          return Err(first.error);
        }
        events := first.value;
      }
      var last := Emit(parse);
      if last.Err? {
        return Err(last.error);
      }
      assert events == [] ==> events + last.value == last.value;
      return Ok(events + last.value);
    }

    method Line(line: seq<byte>, parse: Parser) returns (r: Result<seq<Event>, Error>)
      modifies this
      ensures r.Ok? ==> LineStep(old(Snapshot()), line, parse) == Ok((Snapshot(), r.value))
      ensures r.Err? ==> LineStep(old(Snapshot()), line, parse) == Err(r.error)
    {
      if line == [] {
        r := Emit(parse);
      } else if line[0] == 58 {
        // a comment line, ':' first
        return Ok([]);
      } else if DATA <= line {
        var value := line[|DATA|..];
        if value != [] && value[0] == 32 {
          value := value[1..];
        }
        if dataBytes + |value| + 1 > MAX_EVENT_BYTES {
          return Err(ResponseTooLarge);
        }
        data := data + [value];
        dataBytes := dataBytes + |value| + 1;
        return Ok([]);
      } else {
        return Ok([]);
      }
    }

    method Emit(parse: Parser) returns (r: Result<seq<Event>, Error>)
      modifies this
      ensures r.Ok? ==> EmitStep(old(Snapshot()), parse) == Ok((Snapshot(), r.value))
      ensures r.Err? ==> EmitStep(old(Snapshot()), parse) == Err(r.error)
    {
      if data == [] {
        return Ok([]);
      }
      var payload := JoinLines(data);
      data := [];
      dataBytes := 0;
      r := PayloadEvents(payload, parse);
    }
  }

  method IndexOfLf(s: seq<byte>) returns (i: nat)
    ensures i <= |s| && LF !in s[..i]
    ensures i < |s| ==> s[i] == LF
  {
    i := 0;
    while i < |s| && s[i] != LF
      invariant i <= |s| && LF !in s[..i]
    {
      i := i + 1;
    }
  }

  // -------------------------------------------------------------- lemmas

  lemma PrependNothing(o: Outcome)
    ensures Prepend([], o) == o
  {
    if o.Ok? {
      assert [] + o.value.1 == o.value.1;
    }
  }

  lemma PrependTwice(a: seq<Event>, b: seq<Event>, o: Outcome)
    ensures Prepend(a, Prepend(b, o)) == Prepend(a + b, o)
  {
    if o.Ok? {
      assert a + (b + o.value.1) == (a + b) + o.value.1;
    }
  }

  /** Bytes before a line feed only accumulate, up to the line limit. */
  lemma {:induction false} DecodeResidue(s: State, input: seq<byte>, parse: Parser)
    requires Valid(s) && LF !in input
    ensures Decode(s, input, parse)
         == if |s.bytes| + |input| > MAX_LINE_BYTES then Err(ResponseTooLarge)
            else Ok((s.(bytes := s.bytes + input), []))
    decreases |input|
  {
    if input == [] {
      assert s.bytes + input == s.bytes;
    } else {
      assert input[0] in input;
      if |s.bytes| + 1 <= MAX_LINE_BYTES {
        var t := s.(bytes := s.bytes + [input[0]]);
        DecodeResidue(t, input[1..], parse);
        assert t.bytes + input[1..] == s.bytes + input;
        PrependNothing(Decode(t, input[1..], parse));
      }
    }
  }

  lemma {:induction false} DecodeConcat(s: State, a: seq<byte>, b: seq<byte>, parse: Parser)
    ensures Decode(s, a + b, parse) == Then(Decode(s, a, parse), b, parse)
    decreases |a|
  {
    if a == [] {
      assert a + b == b;
      PrependNothing(Decode(s, b, parse));
    } else {
      assert (a + b)[1..] == a[1..] + b;
      var step := ByteStep(s, a[0], parse);
      if step.Ok? {
        var (t, events) := step.value;
        DecodeConcat(t, a[1..], b, parse);
        var middle := Decode(t, a[1..], parse);
        if middle.Ok? {
          PrependTwice(events, middle.value.1, Decode(middle.value.0, b, parse));
        }
      }
    }
  }

  /** Undecoded residue may be decoded again in front of the next bytes. */
  lemma Replay(s: State, input: seq<byte>, parse: Parser)
    requires Valid(s)
    ensures Decode(s, input, parse) == Decode(s.(bytes := []), s.bytes + input, parse)
  {
    var empty := s.(bytes := []);
    DecodeConcat(empty, s.bytes, input, parse);
    DecodeResidue(empty, s.bytes, parse);
    assert [] + s.bytes == s.bytes;
    PrependNothing(Decode(s, input, parse));
  }

  /** One whole line: everything up to and including the line feed at `end`. */
  lemma DecodeLine(s: State, input: seq<byte>, end: nat, parse: Parser)
    requires Valid(s) && s.bytes == []
    requires end < |input| && input[end] == LF && LF !in input[..end]
    ensures end > MAX_LINE_BYTES ==> Decode(s, input, parse) == Err(ResponseTooLarge)
    ensures end <= MAX_LINE_BYTES && !Utf8(StripOneCr(input[..end])) ==>
              Decode(s, input, parse) == Err(MalformedJson)
    ensures end <= MAX_LINE_BYTES && Utf8(StripOneCr(input[..end])) ==>
              Decode(s, input, parse)
              == Then(LineStep(s, StripOneCr(input[..end]), parse), input[end + 1..], parse)
  {
    assert input == input[..end] + input[end..];
    DecodeConcat(s, input[..end], input[end..], parse);
    DecodeResidue(s, input[..end], parse);
    if end <= MAX_LINE_BYTES {
      var t := s.(bytes := input[..end]);
      assert [] + input[..end] == input[..end];
      assert input[end..][0] == LF && input[end..][1..] == input[end + 1..];
      assert t.(bytes := []) == s;
      assert ByteStep(t, LF, parse)
          == if !Utf8(StripOneCr(t.bytes)) then Err(MalformedJson) else LineStep(s, StripOneCr(t.bytes), parse);
      assert Decode(t, input[end..], parse) == Then(ByteStep(t, LF, parse), input[end + 1..], parse);
      PrependNothing(Decode(t, input[end..], parse));
    }
  }

  /** A line is interpreted without looking at the undecoded bytes. */
  lemma LineForgetsBytes(s: State, bytes: seq<byte>, line: seq<byte>, parse: Parser)
    requires s.bytes == []
    ensures LineStep(s.(bytes := bytes), line, parse)
         == match LineStep(s, line, parse)
            case Err(e) => Err(e)
            case Ok((t, events)) => Ok((t.(bytes := bytes), events))
  {
  }

  lemma LineKeepsValid(s: State, line: seq<byte>, parse: Parser)
    requires Valid(s)
    ensures LineStep(s, line, parse).Ok? ==>
              Valid(LineStep(s, line, parse).value.0) && LineStep(s, line, parse).value.0.bytes == s.bytes
  {
    if IsData(line) {
      var value := DataValue(line);
      assert (s.data + [value])[..|s.data|] == s.data;
    }
  }

  /** After each successful push the residue has no line feed and is at most
      64 KiB, and the byte counter is exact and at most 256 KiB. */
  lemma {:induction false} DecodeKeepsValid(s: State, input: seq<byte>, parse: Parser)
    requires Valid(s)
    ensures Decode(s, input, parse).Ok? ==> Valid(Decode(s, input, parse).value.0)
    decreases |input|
  {
    if input != [] {
      var step := ByteStep(s, input[0], parse);
      if step.Ok? {
        if input[0] == LF {
          LineKeepsValid(s.(bytes := []), StripOneCr(s.bytes), parse);
        }
        DecodeKeepsValid(step.value.0, input[1..], parse);
      }
    }
  }

  /** Chunk invariance: any splitting of the bytes, even inside a code point or
      a CRLF pair, gives the same outcome as one push of the whole. */
  lemma {:induction false} ChunkInvariance(s: State, chunks: seq<seq<byte>>, parse: Parser)
    decreases |chunks|
    ensures DecodeChunks(s, chunks, parse) == Decode(s, Flatten(chunks), parse)
  {
    if chunks != [] {
      DecodeConcat(s, chunks[0], Flatten(chunks[1..]), parse);
      var first := Decode(s, chunks[0], parse);
      if first.Ok? {
        ChunkInvariance(first.value.0, chunks[1..], parse);
      }
    }
  }

  // ------------------------------------------- the end of the stream

  lemma {:induction false} TrimCrsPrefix(line: seq<byte>)
    ensures TrimCrs(line) <= line && |TrimCrs(line)| <= |line|
    ensures TrimCrs(line) != [] ==> TrimCrs(line)[|TrimCrs(line)| - 1] != CR
    ensures Utf8(TrimCrs(line)) <==> Utf8(line)
    ensures TrimCrs(line) == line || TrimCrs(line) <= StripOneCr(line)
    decreases |line|
  {
    if line != [] && line[|line| - 1] == CR {
      var shorter := line[..|line| - 1];
      TrimCrsPrefix(shorter);
      Utf8CarriageReturn(shorter);
      assert line == shorter + [CR];
    }
  }

  /** Two line feeds: the unterminated line, then the end of the event. */
  lemma TwoLineFeeds(s: State, parse: Parser)
    requires Valid(s)
    ensures Decode(s, [LF, LF], parse)
         == if !Utf8(StripOneCr(s.bytes)) then Err(MalformedJson)
            else LineThenEmit(s.(bytes := []), StripOneCr(s.bytes), parse)
  {
    var first := ByteStep(s, LF, parse);
    assert [LF, LF][1..] == [LF] && [LF][1..] == [];
    assert Decode(s, [LF, LF], parse) == Then(first, [LF], parse);
    if first.Ok? {
      var t := first.value.0;
      LineKeepsValid(s.(bytes := []), StripOneCr(s.bytes), parse);
      assert t.bytes == [] && t.(bytes := []) == t && StripOneCr(t.bytes) == [];
      var emitted := EmitStep(t, parse);
      assert ByteStep(t, LF, parse) == emitted;
      assert Decode(t, [LF], parse) == Then(emitted, [], parse);
      if emitted.Ok? {
        assert Decode(emitted.value.0, [], parse) == Ok((emitted.value.0, []));
        assert emitted.value.1 + [] == emitted.value.1;
      }
    }
  }

  /** Whether the extra carriage returns that `finish` trims reach a stored value. */
  predicate ExtraCrsMatter(s: State) {
    var line := TrimCrs(s.bytes);
    && |line| + 1 < |s.bytes|
    && Utf8(s.bytes)
    && IsData(line)
    && s.dataBytes + |DataValue(line)| + 1 <= MAX_EVENT_BYTES
  }

  /** Like JSON: a CR behind a payload is whitespace, and the sentinel is not JSON. */
  ghost predicate IgnoresFinalCrs(parse: Parser) {
    && parse(SENTINEL + [CR]).None?
    && forall payload: seq<byte> {:trigger parse(payload + [CR])} :: payload != SENTINEL ==>
         parse(payload + [CR]) == parse(payload)
  }

  /** Whether they show: the value without them completes the sentinel, or it fits the
      event while the value with them does not. */
  predicate ExtraCrsShow(s: State) {
    && ExtraCrsMatter(s)
    && var short, long := DataValue(TrimCrs(s.bytes)), DataValueOf(StripOneCr(s.bytes));
       JoinLines(s.data + [short]) == SENTINEL || s.dataBytes + |long| + 1 > MAX_EVENT_BYTES
  }

  function DataValueOf(line: seq<byte>): seq<byte> { if IsData(line) then DataValue(line) else [] }

  lemma {:induction false} JoinLinesLast(lines: seq<seq<byte>>, last: seq<byte>)
    ensures JoinLines(lines + [last]) == (if lines == [] then last else JoinLines(lines) + [LF] + last)
    decreases |lines|
  {
    if |lines| > 1 {
      JoinLinesLast(lines[1..], last);
      assert (lines + [last])[1..] == lines[1..] + [last];
    } else if |lines| == 1 {
      assert (lines + [last])[1..] == [last];
    }
  }

  lemma EmitTwice(s: State, parse: Parser)
    ensures match EmitStep(s, parse)
            case Err(_) => true
            case Ok((t, events)) => Prepend(events, EmitStep(t, parse)) == Ok((t, events))
  {
    match EmitStep(s, parse)
    case Err(_) =>
    case Ok((t, events)) => assert events + [] == events;
  }

  /** `finish` equals pushing two line feeds, for every parser, as long as the
      trimmed carriage returns do not belong to a value that fits. */
  lemma FinishIsTwoLineFeeds(s: State, parse: Parser)
    requires Valid(s) && !ExtraCrsMatter(s)
    ensures FinishStep(s, parse) == Decode(s, [LF, LF], parse)
  {
    hide Utf8, Decode, LineThenEmit, ExtraCrsMatter;
    TwoLineFeeds(s, parse);
    FinishedLine(s, parse);
    StrippedUtf8(s.bytes);
    if Utf8(s.bytes) && StripOneCr(s.bytes) != TrimCrs(s.bytes) {
      ExtraCrsIgnored(s, parse);
    }
  }

  /** The end of the stream: the unterminated line without its CRs, then the event. */
  lemma FinishedLine(s: State, parse: Parser)
    requires Valid(s)
    ensures FinishStep(s, parse)
         == if !Utf8(s.bytes) then Err(MalformedJson) else LineThenEmit(s.(bytes := []), TrimCrs(s.bytes), parse)
  {
    hide EmitStep;
    assert Utf8([]);
    EmitTwice(s, parse);
  }

  lemma ExtraCrsIgnored(s: State, parse: Parser)
    requires Valid(s) && !ExtraCrsMatter(s) && Utf8(s.bytes)
    requires StripOneCr(s.bytes) != TrimCrs(s.bytes)
    ensures var start := s.(bytes := []);
            LineThenEmit(start, TrimCrs(s.bytes), parse) == LineThenEmit(start, StripOneCr(s.bytes), parse)
  {
    var start := s.(bytes := []);
    var trimmed, stripped := TrimCrs(s.bytes), StripOneCr(s.bytes);
    StrippedEnd(s.bytes);
    TrimCrsPrefix(s.bytes);
    if IsData(trimmed) {
      assert |DataValue(stripped)| >= |DataValue(trimmed)|;
    } else {
      assert TrimCrs(stripped) == trimmed;
      assert !IsData(stripped) by { if IsData(stripped) { DataSurvivesTrim(stripped); } }
      EmitTwice(start, parse);
      PrependNothing(EmitStep(start, parse));
    }
  }

  lemma {:induction false} StrippedEnd(line: seq<byte>)
    requires StripOneCr(line) != TrimCrs(line)
    ensures |TrimCrs(line)| + 1 < |line| && StripOneCr(line)[|line| - 2] == CR
    ensures |StripOneCr(line)| == |line| - 1
  {
    var shorter := line[..|line| - 1];
    assert TrimCrs(line) == TrimCrs(shorter);
    TrimCrsPrefix(shorter);
  }

  lemma {:induction false} DataSurvivesTrim(line: seq<byte>)
    requires IsData(line)
    ensures IsData(TrimCrs(line))
    decreases |line|
  {
    if line[|line| - 1] == CR {
      assert line[4] == DATA[4] != CR;
      DataSurvivesTrim(line[..|line| - 1]);
    }
  }

  function Crs(n: nat): seq<byte> { seq(n, i => CR) }

  lemma {:induction false} TrimmedCrs(line: seq<byte>)
    ensures |TrimCrs(line)| <= |line| && line == TrimCrs(line) + Crs(|line| - |TrimCrs(line)|)
    decreases |line|
  {
    hide Crs;
    if line != [] && line[|line| - 1] == CR {
      var shorter := line[..|line| - 1];
      TrimmedCrs(shorter);
      OneMoreCr(|shorter| - |TrimCrs(line)|);
      assert line == shorter + [CR];
    } else {
      NoCrs();
      assert line + [] == line;
    }
  }

  lemma OneMoreCr(n: nat)
    ensures Crs(n + 1) == Crs(n) + [CR]
  {
  }

  lemma NoCrs()
    ensures Crs(0) == []
  {
  }

  /** The two lines that are compared: one holds more CRs than the other. */
  lemma LongAndShort(line: seq<byte>) returns (n: nat)
    requires IsData(TrimCrs(line)) && |TrimCrs(line)| + 1 < |line|
    ensures n > 0 && StripOneCr(line) == TrimCrs(line) + Crs(n) && IsData(StripOneCr(line))
    ensures DataValue(StripOneCr(line)) == DataValue(TrimCrs(line)) + Crs(n)
  {
    var trimmed, stripped := TrimCrs(line), StripOneCr(line);
    TrimmedCrs(line);
    n := |line| - |trimmed| - 1;
    OneMoreCr(n);
    assert line == trimmed + Crs(n) + [CR];
    assert stripped == trimmed + Crs(n);
    assert stripped[|DATA|..] == trimmed[|DATA|..] + Crs(n);
    if trimmed[|DATA|..] == [] {
      assert stripped[|DATA|..] == Crs(n) && Crs(n)[0] == CR;
      assert [] + Crs(n) == Crs(n);
    } else if trimmed[|DATA|] == 32 {
      assert stripped[|DATA|..][1..] == trimmed[|DATA|..][1..] + Crs(n);
    }
  }

  lemma {:induction false} ParsesWithCrs(payload: seq<byte>, n: nat, parse: Parser)
    requires IgnoresFinalCrs(parse) && n > 0
    ensures payload + Crs(n) != SENTINEL
    ensures parse(payload + Crs(n)) == if payload == SENTINEL then None else parse(payload)
    decreases n
  {
    assert payload + Crs(n) == payload + Crs(n - 1) + [CR];
    assert (payload + Crs(n))[|payload| + n - 1] == CR;
    if n > 1 {
      ParsesWithCrs(payload, n - 1, parse);
    } else {
      assert payload + Crs(0) == payload;
    }
  }

  lemma PayloadsWithCrs(payload: seq<byte>, n: nat, parse: Parser)
    requires IgnoresFinalCrs(parse) && n > 0
    ensures PayloadEvents(payload + Crs(n), parse) == PayloadEvents(payload, parse) <==> payload != SENTINEL
  {
    hide IgnoresFinalCrs;
    ParsesWithCrs(payload, n, parse);
  }

  /** For a parser of JSON, `finish` equals pushing two line feeds exactly if the
      trimmed CRs do not show: no CR behind the sentinel, and no CR behind a value
      that makes it too long. */
  lemma FinishDiffersFromTwoLineFeeds(s: State, parse: Parser)
    requires Valid(s) && IgnoresFinalCrs(parse)
    ensures FinishStep(s, parse) == Decode(s, [LF, LF], parse) <==> !ExtraCrsShow(s)
  {
    hide Decode, Utf8, IgnoresFinalCrs;
    if ExtraCrsMatter(s) {
      hide LineThenEmit;
      TwoLineFeeds(s, parse);
      FinishedLine(s, parse);
      var start := s.(bytes := []);
      var n := LongAndShort(s.bytes);
      StrippedUtf8(s.bytes);
      ValueWithCrs(start, DataValue(TrimCrs(s.bytes)), n, parse);
      LineOfValue(start, TrimCrs(s.bytes), parse);
      LineOfValue(start, StripOneCr(s.bytes), parse);
    } else {
      FinishIsTwoLineFeeds(s, parse);
    }
  }

  lemma StrippedUtf8(line: seq<byte>)
    ensures Utf8(StripOneCr(line)) <==> Utf8(line)
  {
    if line != [] && line[|line| - 1] == CR {
      Utf8CarriageReturn(StripOneCr(line));
      assert line == StripOneCr(line) + [CR];
    }
  }

  /** A value stored and its event ended. */
  function StoreThenEmit(s: State, value: seq<byte>, parse: Parser): Outcome {
    if s.dataBytes + |value| + 1 > MAX_EVENT_BYTES then Err(ResponseTooLarge)
    else EmitStep(State([], s.data + [value], s.dataBytes + |value| + 1), parse)
  }

  lemma LineOfValue(s: State, line: seq<byte>, parse: Parser)
    requires IsData(line) && s.bytes == []
    ensures LineThenEmit(s, line, parse) == StoreThenEmit(s, DataValue(line), parse)
  {
    if s.dataBytes + |DataValue(line)| + 1 <= MAX_EVENT_BYTES {
      PrependNothing(EmitStep(State([], s.data + [DataValue(line)], s.dataBytes + |DataValue(line)| + 1), parse));
    }
  }

  lemma ValueWithCrs(s: State, value: seq<byte>, n: nat, parse: Parser)
    requires IgnoresFinalCrs(parse) && n > 0 && s.dataBytes + |value| + 1 <= MAX_EVENT_BYTES
    ensures StoreThenEmit(s, value, parse) == StoreThenEmit(s, value + Crs(n), parse)
       <==> JoinLines(s.data + [value]) != SENTINEL && s.dataBytes + |value| + n + 1 <= MAX_EVENT_BYTES
  {
    hide IgnoresFinalCrs;
    var payload := JoinLines(s.data + [value]);
    JoinLinesLast(s.data, value);
    JoinLinesLast(s.data, value + Crs(n));
    assert JoinLines(s.data + [value + Crs(n)]) == payload + Crs(n);
    PayloadsWithCrs(payload, n, parse);
  }

  /** The literal case: a sentinel behind which the stream breaks off after two CRs.
      `finish` ends the stream, two line feeds give a payload that is not JSON. */
  lemma SentinelWithTwoCrs(parse: Parser)
    requires IgnoresFinalCrs(parse)
    ensures var input: seq<byte> := DATA + SENTINEL + [CR, CR];
            var decoded := Decode(INITIAL, input, parse);
            && decoded.Ok? && FinishStep(decoded.value.0, parse) == Ok((INITIAL, [Done]))
            && Decode(INITIAL, input + [LF, LF], parse) == Err(MalformedJson)
  {
    assert parse(SENTINEL + [CR]).None?;
    hide IgnoresFinalCrs, Decode, Utf8, LineThenEmit;
    var input: seq<byte> := DATA + SENTINEL + [CR, CR];
    var s := INITIAL.(bytes := input);
    SentinelTail();
    DecodeResidue(INITIAL, input, parse);
    assert [] + input == input;
    DecodeConcat(INITIAL, input, [LF, LF], parse);
    PrependNothing(Decode(s, [LF, LF], parse));
    TwoLineFeeds(s, parse);
    FinishedLine(s, parse);
    SentinelEmits(parse);
  }

  lemma SentinelEmits(parse: Parser)
    requires parse(SENTINEL + [CR]).None?
    ensures LineThenEmit(INITIAL, DATA + SENTINEL, parse) == Ok((INITIAL, [Done]))
    ensures LineThenEmit(INITIAL, DATA + SENTINEL + [CR], parse) == Err(MalformedJson)
  {
    SentinelTail();
    LineOfValue(INITIAL, DATA + SENTINEL, parse);
    LineOfValue(INITIAL, DATA + SENTINEL + [CR], parse);
    assert [] + [SENTINEL] == [SENTINEL] && [] + [SENTINEL + [CR]] == [SENTINEL + [CR]];
    assert (SENTINEL + [CR])[|SENTINEL|] == CR;
  }

  lemma SentinelTail()
    ensures var line: seq<byte> := DATA + SENTINEL + [CR, CR];
            && Utf8(line) && LF !in line
            && TrimCrs(line) == DATA + SENTINEL && StripOneCr(line) == DATA + SENTINEL + [CR]
            && Utf8(StripOneCr(line))
    ensures IsData(DATA + SENTINEL) && DataValue(DATA + SENTINEL) == SENTINEL
    ensures IsData(DATA + SENTINEL + [CR]) && DataValue(DATA + SENTINEL + [CR]) == SENTINEL + [CR]
  {
    var text: seq<byte> := DATA + SENTINEL;
    var line := text + [CR, CR];
    assert line == DATA + SENTINEL + [CR, CR];
    AsciiIsUtf8(line);
    StrippedUtf8(line);
    assert line[..|line| - 1] == text + [CR] && (text + [CR])[..|text|] == text;
    assert TrimCrs(text + [CR]) == TrimCrs(text) == text;
    assert text[|DATA|..] == SENTINEL && (text + [CR])[|DATA|..] == SENTINEL + [CR];
  }

  lemma {:induction false} AsciiIsUtf8(s: seq<byte>)
    requires forall i :: 0 <= i < |s| ==> s[i] < 128
    ensures Utf8(s)
    decreases |s|
  {
    if s != [] {
      AsciiIsUtf8(s[1..]);
    }
  }

  /** A tail ending in at most one CR is always among the agreeing states. */
  lemma OneCrIsHarmless(s: State)
    requires s.bytes == [] || s.bytes[|s.bytes| - 1] != CR
          || (|s.bytes| >= 2 ==> s.bytes[|s.bytes| - 2] != CR)
    ensures !ExtraCrsMatter(s)
  {
    if StripOneCr(s.bytes) != TrimCrs(s.bytes) {
      StrippedEnd(s.bytes);
      TrimCrsPrefix(s.bytes);
    }
  }
}
