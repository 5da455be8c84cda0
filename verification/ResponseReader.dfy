/**
 The response reader: decides between an event stream and one JSON body,
 bounds what it reads and what it delivers, and stops at the end of stream.

 What WinHTTP returns is a sequence of reads, each a chunk of at most 16 KiB or
 an interruption (a cancellation or a transport failure).
 */
module ResponseReader {
  import opened Common
  import Sse

  const MAX_RESPONSE_BYTES := 2 * 1024 * 1024
  const MAX_READ_BYTES := 16 * 1024
  const MAX_OUTPUT_BYTES := 1024 * 1024
  const OUTPUT_BYTES_PER_TOKEN := 16
  const OUTPUT_BYTE_HEADROOM := 1024
  const MAX_UNDECIDED_BYTES := 64 * 1024
  const USIZE_MAX := 0xFFFF_FFFF_FFFF_FFFF

  datatype Error = Cancelled | Transport | ResponseTooLarge | MalformedJson | IncompleteResponse
  /** What one read can bring: the buffer is never larger. */
  type Piece = bytes: seq<byte> | |bytes| <= MAX_READ_BYTES
  datatype Read = Chunk(bytes: Piece) | Interrupted(error: Error)
  datatype Mode = Undecided | Json | EventStream
  type BodyParser = seq<byte> -> Option<seq<byte>>

  /** The sink's side: texts delivered, their size, and the two flags. */
  datatype Delivery = Delivery(sent: seq<seq<byte>>, bytes: nat, done: bool, failed: bool)
  datatype Reader = Reader(mode: Mode, prefix: seq<byte>, json: seq<byte>, decoder: Sse.State,
                           responseBytes: nat, out: Delivery)
  datatype Final = Final(result: Result<(), Error>, sent: seq<seq<byte>>)
  datatype Format = Format(event: Sse.Parser, body: BodyParser, limit: nat)

  const START := Reader(Undecided, [], [], Sse.INITIAL, 0, Delivery([], 0, false, false))

  function Saturating(n: nat): nat { if n > USIZE_MAX then USIZE_MAX else n }

  function OutputByteLimit(maxOutputTokens: Option<nat>): (limit: nat)
    ensures limit <= MAX_OUTPUT_BYTES
    ensures maxOutputTokens.Some? && limit < MAX_OUTPUT_BYTES ==> limit == 16 * maxOutputTokens.value + 1024
  {
    var bytes :=
      if maxOutputTokens.Some?
      then Saturating(Saturating(maxOutputTokens.value * OUTPUT_BYTES_PER_TOKEN) + OUTPUT_BYTE_HEADROOM)
      else MAX_OUTPUT_BYTES;
    if bytes <= MAX_OUTPUT_BYTES then bytes else MAX_OUTPUT_BYTES
  }

  // ------------------------------------------------------- mode decision

  predicate AsciiSpace(b: byte) { b == 9 || b == 10 || b == 12 || b == 13 || b == 32 }

  const EVENT: seq<byte> := [101, 118, 101, 110, 116, 58]   // "event:"
  const COMMENT: seq<byte> := [58]                          // ":"

  predicate StartsLikeEvents(s: seq<byte>) { Sse.DATA <= s || COMMENT <= s || EVENT <= s }

  function FirstLine(s: seq<byte>): seq<byte> {
    if s == [] || s[0] == LF then [] else [s[0]] + FirstLine(s[1..])
  }

  /** The source looks at the first line, without its CR, once there is one. */
  predicate IsSsePrefix(s: seq<byte>) {
    if LF in s then StartsLikeEvents(Sse.StripOneCr(FirstLine(s))) else StartsLikeEvents(s)
  }

  function FirstVisible(s: seq<byte>): Option<byte> {
    if s == [] then None
    else if AsciiSpace(s[0]) then FirstVisible(s[1..])
    else Some(s[0])
  }

  function Decide(prefix: seq<byte>): Mode {
    var first := FirstVisible(prefix);
    if first == Some(123) || first == Some(91) then Json
    else if IsSsePrefix(prefix) then EventStream
    else Undecided
  }

  lemma {:induction false} FirstLinePrefix(s: seq<byte>)
    ensures FirstLine(s) <= s
    ensures forall k :: 0 <= k <= |s| && LF !in s[..k] ==> s[..k] <= FirstLine(s)
    decreases |s|
  {
    if s != [] && s[0] != LF {
      FirstLinePrefix(s[1..]);
      forall k | 0 <= k <= |s| && LF !in s[..k]
        ensures s[..k] <= FirstLine(s)
      {
        if k > 0 {
          assert s[..k] == [s[0]] + s[1..][..k - 1];
        }
      }
    } else if s != [] {
      forall k | 0 <= k <= |s|
        ensures LF !in s[..k] ==> s[..k] <= FirstLine(s)
      {
        if k > 0 {
          assert s[..k][0] == LF;
        }
      }
    }
  }

  /** Cutting at the line end or at its CR never changes the answer. */
  lemma SsePrefixIsPlainPrefix(s: seq<byte>)
    ensures IsSsePrefix(s) <==> StartsLikeEvents(s)
  {
    FirstLinePrefix(s);
    if LF in s {
      var line := Sse.StripOneCr(FirstLine(s));
      assert line <= s;
      InFirstLine(s, Sse.DATA);
      InFirstLine(s, COMMENT);
      InFirstLine(s, EVENT);
    }
  }

  lemma InFirstLine(s: seq<byte>, marker: seq<byte>)
    requires marker != [] && LF !in marker && marker[|marker| - 1] == 58
    ensures marker <= s ==> marker <= Sse.StripOneCr(FirstLine(s))
  {
    FirstLinePrefix(s);
    if marker <= s {
      assert marker == s[..|marker|];
      assert marker <= FirstLine(s);
    }
  }

  lemma {:induction false} FirstVisibleStable(a: seq<byte>, b: seq<byte>)
    requires FirstVisible(a).Some?
    ensures FirstVisible(a + b) == FirstVisible(a)
    decreases |a|
  {
    assert (a + b)[1..] == a[1..] + b;
    if AsciiSpace(a[0]) {
      FirstVisibleStable(a[1..], b);
    }
  }

  /** Once a mode is decided no further byte can change it. */
  lemma DecisionStable(a: seq<byte>, b: seq<byte>)
    requires Decide(a) != Undecided
    ensures Decide(a + b) == Decide(a)
  {
    SsePrefixIsPlainPrefix(a);
    SsePrefixIsPlainPrefix(a + b);
    if Decide(a) == Json {
      FirstVisibleStable(a, b);
    } else {
      assert FirstVisible(a) == Some(a[0]) && (a + b)[0] == a[0];
    }
  }

  // ----------------------------------------------------------- delivery

  function Deliver(out: Delivery, events: seq<Sse.Event>, limit: nat): Delivery
    decreases |events|
  {
    if events == [] || out.failed then out
    else match events[0]
      case Done => Deliver(out.(done := true), events[1..], limit)
      case Delta(text) =>
        if out.bytes + |text| > limit then out.(failed := true)
        else Deliver(out.(sent := out.sent + [text], bytes := out.bytes + |text|), events[1..], limit)
  }

  function UntilDone(events: seq<Sse.Event>): seq<Sse.Event>
    decreases |events|
  {
    if events == [] then []
    else if events[0].Done? then [events[0]]
    else [events[0]] + UntilDone(events[1..])
  }

  function Texts(events: seq<Sse.Event>): seq<seq<byte>>
    decreases |events|
  {
    if events == [] then []
    else if events[0].Delta? then [events[0].text] + Texts(events[1..])
    else Texts(events[1..])
  }

  function Size(texts: seq<seq<byte>>): nat {
    |Flatten(texts)|
  }

  lemma {:induction false} SizeSnoc(texts: seq<seq<byte>>, text: seq<byte>)
    ensures Size(texts + [text]) == Size(texts) + |text|
  {
    FlattenSnoc(texts, text);
  }

  ghost predicate Counted(out: Delivery, limit: nat) {
    out.bytes == Size(out.sent) <= limit
  }

  /** Delivery in closed form: everything, if it fits. */
  lemma {:induction false} DeliverAll(out: Delivery, events: seq<Sse.Event>, limit: nat)
    requires Counted(out, limit) && !out.failed
    ensures Counted(Deliver(out, events, limit), limit)
    ensures Deliver(out, events, limit).failed <==> Size(out.sent + Texts(events)) > limit
    ensures !Deliver(out, events, limit).failed ==>
              && Deliver(out, events, limit).sent == out.sent + Texts(events)
              && Deliver(out, events, limit).done == (out.done || Sse.Done in events)
    decreases |events|
  {
    if events == [] {
      assert out.sent + Texts(events) == out.sent;
    } else {
      assert events == [events[0]] + events[1..];
      match events[0]
      case Done =>
        DeliverAll(out.(done := true), events[1..], limit);
      case Delta(text) =>
        SizeSnoc(out.sent, text);
        var sent := out.sent + [text];
        assert out.sent + Texts(events) == sent + Texts(events[1..]);
        FlattenConcat(sent, Texts(events[1..]));
        if out.bytes + |text| <= limit {
          DeliverAll(out.(sent := sent, bytes := out.bytes + |text|), events[1..], limit);
        }
    }
  }

  lemma {:induction false} TextsConcat(a: seq<Sse.Event>, b: seq<Sse.Event>)
    ensures Texts(a + b) == Texts(a) + Texts(b)
    decreases |a|
  {
    if a == [] {
      assert a + b == b;
    } else {
      TextsConcat(a[1..], b);
      assert (a + b)[1..] == a[1..] + b;
    }
  }

  // ------------------------------------------------ the reader as a function

  function Lift(e: Sse.Error): Error {
    if e.ResponseTooLarge? then ResponseTooLarge else MalformedJson
  }

  /** A push in event mode: an error, or the reader after delivery. */
  function Feed(s: Reader, bytes: seq<byte>, format: Format): Result<Reader, (Error, seq<seq<byte>>)> {
    match Sse.Decode(s.decoder, bytes, format.event)
    case Err(e) => Err((Lift(e), s.out.sent))
    case Ok((decoder, events)) =>
      var out := Deliver(s.out, events, format.limit);
      if out.failed then Err((ResponseTooLarge, out.sent))
      else Ok(s.(mode := EventStream, prefix := [], decoder := decoder, out := out))
  }

  function Absorb(s: Reader, chunk: seq<byte>, format: Format): Result<Reader, (Error, seq<seq<byte>>)> {
    match s.mode
    case Json => Ok(s.(json := s.json + chunk))
    case EventStream => Feed(s, chunk, format)
    case Undecided =>
      var prefix := s.prefix + chunk;
      match Decide(prefix)
      case Json => Ok(s.(mode := Json, json := s.json + prefix, prefix := []))
      case EventStream => Feed(s, prefix, format)
      case Undecided =>
        if |prefix| > MAX_UNDECIDED_BYTES then Err((MalformedJson, s.out.sent))
        else Ok(s.(prefix := prefix))
  }

  function Conclude(s: Reader, format: Format): Final {
    if s.mode == EventStream then
      if s.out.done then Final(Ok(()), s.out.sent)
      else match Sse.FinishStep(s.decoder, format.event)
        case Err(e) => Final(Err(Lift(e)), s.out.sent)
        case Ok((_, events)) =>
          var out := Deliver(s.out, UntilDone(events), format.limit);
          if out.failed then Final(Err(ResponseTooLarge), out.sent)
          else if out.done then Final(Ok(()), out.sent)
          else Final(Err(IncompleteResponse), out.sent)
    else
      match format.body(if s.mode == Undecided then s.json + s.prefix else s.json)
      case None => Final(Err(MalformedJson), s.out.sent)
      case Some(text) =>
        if |text| > format.limit then Final(Err(ResponseTooLarge), s.out.sent)
        else Final(Ok(()), if text == [] then s.out.sent else s.out.sent + [text])
  }

  function ReadAll(s: Reader, received: seq<Read>, format: Format): Final
    decreases |received|
  {
    if received == [] then Conclude(s, format)
    else match received[0]
      case Interrupted(e) => Final(Err(e), s.out.sent)
      case Chunk(bytes) =>
        if bytes == [] then Conclude(s, format)
        else if s.responseBytes + |bytes| > MAX_RESPONSE_BYTES then Final(Err(ResponseTooLarge), s.out.sent)
        else match Absorb(s.(responseBytes := s.responseBytes + |bytes|), bytes, format)
          case Err((e, sent)) => Final(Err(e), sent)
          case Ok(t) => if t.out.done then Conclude(t, format) else ReadAll(t, received[1..], format)
  }

  // ------------------------------------------------- the reader as a loop

  method DeliverEvents(out: Delivery, events: seq<Sse.Event>, untilDone: bool, limit: nat)
    returns (after: Delivery)
    requires !out.failed && (untilDone ==> !out.done)
    ensures after == Deliver(out, if untilDone then UntilDone(events) else events, limit)
  {
    after := out;
    var i := 0;
    ghost var all := if untilDone then UntilDone(events) else events;
    ghost var todo := all;
    while i < |events| && !(untilDone && after.done) && !after.failed
      invariant i <= |events|
      invariant untilDone && after.done ==> todo == []
      invariant !(untilDone && after.done) ==> todo == if untilDone then UntilDone(events[i..]) else events[i..]
      invariant Deliver(after, todo, limit) == Deliver(out, all, limit)
      decreases |events| - i
    {
      assert events[i..][1..] == events[i + 1..];
      match events[i] {
        case Done =>
          after := after.(done := true);
        case Delta(text) =>
          if after.bytes + |text| > limit {
            return after.(failed := true);
          }
          after := after.(sent := after.sent + [text], bytes := after.bytes + |text|);
      }
      todo := todo[1..];
      i := i + 1;
    }
  }

  method ReadResponse(received: seq<Read>, format: Format) returns (final: Final)
    ensures final == ReadAll(START, received, format)
  {
    var decoder := new Sse.Decoder();
    var mode, prefix, json := Undecided, [], [];
    var responseBytes: nat := 0;
    var out := Delivery([], 0, false, false);
    var i := 0;
    while i < |received| && !out.done
      invariant i <= |received| && fresh(decoder) && Sse.Valid(decoder.Snapshot()) && !out.failed
      invariant var s := Reader(mode, prefix, json, decoder.Snapshot(), responseBytes, out);
        ReadAll(START, received, format) == if out.done then Conclude(s, format) else ReadAll(s, received[i..], format)
    {
      assert received[i..][0] == received[i] && received[i..][1..] == received[i + 1..];
      if received[i].Interrupted? {
        return Final(Err(received[i].error), out.sent);
      }
      var chunk: seq<byte> := received[i].bytes;
      if chunk == [] {
        break;
      }
      if responseBytes + |chunk| > MAX_RESPONSE_BYTES {
        return Final(Err(ResponseTooLarge), out.sent);
      }
      responseBytes := responseBytes + |chunk|;
      i := i + 1;
      if mode == Json {
        json := json + chunk;
        continue;
      }
      if mode == Undecided {
        prefix := prefix + chunk;
        var decision := Decide(prefix);
        if decision == Json {
          mode, json, prefix := Json, json + prefix, [];
          continue;
        } else if decision == Undecided {
          if |prefix| > MAX_UNDECIDED_BYTES {
            return Final(Err(MalformedJson), out.sent);
          }
          continue;
        }
        chunk := prefix;
      }
      var pushed := decoder.Push(chunk, format.event);
      if pushed.Err? {
        return Final(Err(Lift(pushed.error)), out.sent);
      }
      mode, prefix := EventStream, [];
      out := DeliverEvents(out, pushed.value, false, format.limit);
      if out.failed {
        return Final(Err(ResponseTooLarge), out.sent);
      }
    }
    ghost var s := Reader(mode, prefix, json, decoder.Snapshot(), responseBytes, out);
    assert ReadAll(START, received, format) == Conclude(s, format);
    if mode == EventStream {
      if !out.done {
        var finished := decoder.Finish(format.event);
        if finished.Err? {
          return Final(Err(Lift(finished.error)), out.sent);
        }
        out := DeliverEvents(out, finished.value, true, format.limit);
        if out.failed {
          return Final(Err(ResponseTooLarge), out.sent);
        }
      }
      return Final(if out.done then Ok(()) else Err(IncompleteResponse), out.sent);
    }
    if mode == Undecided {
      json := json + prefix;
    }
    var text := format.body(json);
    if text.None? {
      return Final(Err(MalformedJson), out.sent);
    }
    if |text.value| > format.limit {
      return Final(Err(ResponseTooLarge), out.sent);
    }
    return Final(Ok(()), if text.value == [] then out.sent else out.sent + [text.value]);
  }

  // ------------------------------------------------------ every run

  /** The bytes delivered to the sink stay within the output limit, whatever the
      reads are and however the run ends. */
  lemma {:induction false} DeliveredWithinLimit(s: Reader, received: seq<Read>, format: Format)
    requires Counted(s.out, format.limit) && !s.out.failed
    requires s.mode != EventStream ==> s.out == START.out
    ensures Size(ReadAll(s, received, format).sent) <= format.limit
    decreases |received|
  {
    hide Conclude, Feed, Decide, Deliver;
    ConcludeWithinLimit(s, format);
    if received != [] && received[0].Chunk? && received[0].bytes != [] {
      var bytes := received[0].bytes;
      if s.responseBytes + |bytes| <= MAX_RESPONSE_BYTES {
        var s1 := s.(responseBytes := s.responseBytes + |bytes|);
        FeedWithinLimit(s1, bytes, format);
        FeedWithinLimit(s1, s1.prefix + bytes, format);
        match Absorb(s1, bytes, format)
        case Err(_) =>
        case Ok(t) =>
          ConcludeWithinLimit(t, format);
          DeliveredWithinLimit(t, received[1..], format);
      }
    }
  }

  lemma ConcludeWithinLimit(s: Reader, format: Format)
    requires Counted(s.out, format.limit) && !s.out.failed
    requires s.mode != EventStream ==> s.out == START.out
    ensures Size(Conclude(s, format).sent) <= format.limit
  {
    if s.mode == EventStream {
      var finished := Sse.FinishStep(s.decoder, format.event);
      if finished.Ok? {
        DeliverAll(s.out, UntilDone(finished.value.1), format.limit);
      }
    } else {
      var text := format.body(if s.mode == Undecided then s.json + s.prefix else s.json);
      if text.Some? {
        assert s.out.sent + [text.value] == [text.value];
        SizeSnoc([], text.value);
        assert [] + [text.value] == [text.value];
      }
    }
  }

  lemma FeedWithinLimit(s: Reader, bytes: seq<byte>, format: Format)
    requires Counted(s.out, format.limit) && !s.out.failed
    ensures match Feed(s, bytes, format)
            case Err((_, sent)) => Size(sent) <= format.limit
            case Ok(t) => Counted(t.out, format.limit) && !t.out.failed && t.mode == EventStream
  {
    var decoded := Sse.Decode(s.decoder, bytes, format.event);
    if decoded.Ok? {
      DeliverAll(s.out, decoded.value.1, format.limit);
    }
  }

  /** From the start: at most 16 bytes a token plus 1 KiB, and never over 1 MiB. */
  lemma OutputBound(received: seq<Read>, event: Sse.Parser, body: BodyParser, maxOutputTokens: Option<nat>)
    ensures var format := Format(event, body, OutputByteLimit(maxOutputTokens));
            Size(ReadAll(START, received, format).sent) <= OutputByteLimit(maxOutputTokens) <= MAX_OUTPUT_BYTES
  {
    DeliveredWithinLimit(START, received, Format(event, body, OutputByteLimit(maxOutputTokens)));
  }
}
