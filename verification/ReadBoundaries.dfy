/**
 Whether the answer of the response reader depends on how the network cuts the
 body into reads.  It does for two families of bodies, and for no others.
 */
module ReadBoundaries {
  import opened Common
  import Sse
  import opened ResponseReader

  /** No reader is past this point before it knows the mode: the last read that
      leaves the mode open ends within the first 64 KiB. */
  const LATEST_DECISION := MAX_UNDECIDED_BYTES + MAX_READ_BYTES

  function Chunks(pieces: seq<Piece>): seq<Read>
    decreases |pieces|
  {
    if pieces == [] then [] else [Chunk(pieces[0])] + Chunks(pieces[1..])
  }

  ghost predicate CutsOf(pieces: seq<Piece>, body: seq<byte>) {
    Flatten(pieces) == body && forall i :: 0 <= i < |pieces| ==> pieces[i] != []
  }

  function Head(body: seq<byte>, n: nat): seq<byte> { if n <= |body| then body[..n] else body }

  function Decoded(part: seq<byte>, format: Format): Sse.Outcome { Sse.Decode(Sse.INITIAL, part, format.event) }

  /** This much of an event stream ends it. */
  predicate EndsStream(part: seq<byte>, format: Format) {
    && Decide(part) == EventStream
    && var decoded := Decoded(part, format);
       decoded.Ok? && Sse.Done in decoded.value.1 && Size(Texts(decoded.value.1)) <= format.limit
  }

  /** The length, from `k` on, after which the stream first ends. */
  function FirstEnd(body: seq<byte>, k: nat, format: Format): (r: Option<nat>)
    requires k <= |body|
    ensures r.Some? ==> k <= r.value <= |body| && EndsStream(body[..r.value], format)
    decreases |body| - k
  {
    if EndsStream(body[..k], format) then Some(k) else if k == |body| then None else FirstEnd(body, k + 1, format)
  }

  lemma {:induction false} NotBeforeFirstEnd(body: seq<byte>, k: nat, j: nat, format: Format)
    requires k <= j <= |body| && (FirstEnd(body, k, format).Some? ==> j < FirstEnd(body, k, format).value)
    ensures !EndsStream(body[..j], format)
    decreases j - k
  {
    hide EndsStream;
    if k < j {
      NotBeforeFirstEnd(body, k + 1, j, format);
    }
  }

  // ------------------------------------------------- what a run amounts to

  /** A reader whose last read ended here goes no further. */
  predicate Halts(done: seq<byte>, format: Format) {
    match Decide(done)
    case Json => false
    case Undecided => |done| > MAX_UNDECIDED_BYTES
    case EventStream =>
      var decoded := Decoded(done, format);
      decoded.Err? || Sse.Done in decoded.value.1 || Size(Texts(decoded.value.1)) > format.limit
  }

  function HaltAnswer(done: seq<byte>, format: Format): Option<seq<seq<byte>>> {
    if EndsStream(done, format) then Some(Texts(Decoded(done, format).value.1)) else None
  }

  /** The answer of a reader that reached the end of the body. */
  function EndAnswer(body: seq<byte>, format: Format): Option<seq<seq<byte>>>
    requires !Halts(body, format)
  {
    if Decide(body) == EventStream then
      var (decoder, events) := Decoded(body, format).value;
      match Sse.FinishStep(decoder, format.event)
      case Err(_) => None
      case Ok((_, last)) =>
        var all := events + UntilDone(last);
        if Sse.Done in last && Size(Texts(all)) <= format.limit then Some(Texts(all)) else None
    else match format.body(body)
      case None => None
      case Some(text) =>
        if |text| > format.limit then None else Some(if text == [] then [] else [text])
  }

  /** The texts a run delivers if it succeeds, by where its reads end. */
  function Answer(done: seq<byte>, pieces: seq<Piece>, format: Format): Option<seq<seq<byte>>>
    requires !Halts(done, format)
    decreases |pieces|
  {
    if pieces == [] then EndAnswer(done, format)
    else if Halts(done + pieces[0], format) then HaltAnswer(done + pieces[0], format)
    else Answer(done + pieces[0], pieces[1..], format)
  }

  ghost predicate Agrees(final: Final, meaning: Option<seq<seq<byte>>>) {
    && (final.result.Ok? <==> meaning.Some?)
    && (meaning.Some? ==> final.sent == meaning.value)
  }

  /** The reader after consuming `done` of the body. */
  ghost predicate At(s: Reader, done: seq<byte>, format: Format) {
    && s.mode == Decide(done)
    && s.responseBytes == |done|
    && Counted(s.out, format.limit) && !s.out.failed
    && match s.mode
       case Undecided => s.prefix == done && s.json == [] && s.out == START.out && s.decoder == Sse.INITIAL
       case Json => s.json == done && s.out == START.out
       case EventStream =>
         && var decoded := Sse.Decode(Sse.INITIAL, done, format.event);
         && decoded.Ok? && s.decoder == decoded.value.0
         && s.out.sent == Texts(decoded.value.1) && s.out.done == (Sse.Done in decoded.value.1)
  }

  lemma {:induction false} UntilDoneHasDone(events: seq<Sse.Event>)
    ensures Sse.Done in UntilDone(events) <==> Sse.Done in events
    decreases |events|
  {
    if events != [] {
      UntilDoneHasDone(events[1..]);
      assert events == [events[0]] + events[1..];
    }
  }

  lemma ConcludeAnswer(s: Reader, body: seq<byte>, format: Format)
    requires At(s, body, format) && !Halts(body, format)
    ensures Agrees(Conclude(s, format), EndAnswer(body, format))
  {
    if s.mode == EventStream {
      var events := Decoded(body, format).value.1;
      var finished := Sse.FinishStep(s.decoder, format.event);
      if finished.Ok? {
        var last := UntilDone(finished.value.1);
        UntilDoneHasDone(finished.value.1);
        DeliverAll(s.out, last, format.limit);
        TextsConcat(events, last);
      }
    } else {
      assert [] + body == body;
    }
  }

  lemma HaltedAnswer(s: Reader, done: seq<byte>, format: Format)
    requires At(s, done, format) && s.out.done
    ensures Agrees(Conclude(s, format), HaltAnswer(done, format)) && Halts(done, format)
  {
  }

  /** One more chunk keeps the reader in step with the bytes read so far. */
  lemma AbsorbKeepsPlace(s: Reader, done: seq<byte>, chunk: seq<byte>, format: Format)
    requires At(s, done, format) && !s.out.done
    ensures match Absorb(s.(responseBytes := |done + chunk|), chunk, format)
            case Ok(t) => At(t, done + chunk, format)
                       && (t.mode == Undecided ==> |done + chunk| <= MAX_UNDECIDED_BYTES)
            case Err(_) => Decide(done + chunk) != Json
    ensures Absorb(s.(responseBytes := |done + chunk|), chunk, format).Err? ==>
              if Decide(done + chunk) == Undecided then |done + chunk| > MAX_UNDECIDED_BYTES
              else var decoded := Sse.Decode(Sse.INITIAL, done + chunk, format.event);
                   decoded.Err? || Size(Texts(decoded.value.1)) > format.limit
  {
    if Decide(done) != Undecided {
      DecisionStable(done, chunk);
    }
    var s1 := s.(responseBytes := |done + chunk|);
    if Decide(done + chunk) == EventStream {
      if s.mode == EventStream {
        Sse.DecodeConcat(Sse.INITIAL, done, chunk, format.event);
        var before := Sse.Decode(Sse.INITIAL, done, format.event);
        var more := Sse.Decode(s.decoder, chunk, format.event);
        if more.Ok? {
          DeliverAll(s.out, more.value.1, format.limit);
          TextsConcat(before.value.1, more.value.1);
        }
      } else {
        var whole := Sse.Decode(Sse.INITIAL, done + chunk, format.event);
        if whole.Ok? {
          DeliverAll(s.out, whole.value.1, format.limit);
          assert [] + Texts(whole.value.1) == Texts(whole.value.1);
        }
      }
    } else if Decide(done + chunk) == Json && s.mode == Undecided {
      assert [] + (done + chunk) == done + chunk;
    }
  }

  lemma ReadOne(s: Reader, pieces: seq<Piece>, format: Format)
    requires pieces != [] && pieces[0] != []
    requires s.responseBytes + |pieces[0]| <= MAX_RESPONSE_BYTES
    ensures var absorbed := Absorb(s.(responseBytes := s.responseBytes + |pieces[0]|), pieces[0], format);
            var final := ReadAll(s, Chunks(pieces), format);
            && (absorbed.Err? ==> final.result.Err?)
            && (absorbed.Ok? ==>
                  final == if absorbed.value.out.done then Conclude(absorbed.value, format)
                           else ReadAll(absorbed.value, Chunks(pieces[1..]), format))
  {
    hide Absorb, Conclude;
    assert Chunks(pieces)[0] == Chunk(pieces[0]) && Chunks(pieces)[1..] == Chunks(pieces[1..]);
  }

  /** A run succeeds, and delivers what, by where its reads end. */
  lemma {:induction false} RunAnswers(s: Reader, done: seq<byte>, pieces: seq<Piece>, format: Format)
    requires At(s, done, format) && !Halts(done, format)
    requires forall i :: 0 <= i < |pieces| ==> pieces[i] != []
    requires |done + Flatten(pieces)| <= MAX_RESPONSE_BYTES
    ensures Agrees(ReadAll(s, Chunks(pieces), format), Answer(done, pieces, format))
    decreases |pieces|
  {
    hide Absorb, Conclude, Decide, At, ReadAll, Halts, HaltAnswer, EndAnswer;
    if pieces == [] {
      NoReads(s, done, format);
    } else {
      var now := done + pieces[0];
      assert done + Flatten(pieces) == now + Flatten(pieces[1..]);
      InPlace(s, done, format);
      AbsorbKeepsPlace(s, done, pieces[0], format);
      AbsorbHalts(s, done, pieces[0], format);
      ReadOne(s, pieces, format);
      match Absorb(s.(responseBytes := |now|), pieces[0], format)
      case Ok(t) =>
        if t.out.done {
          HaltedAnswer(t, now, format);
        } else {
          RunAnswers(t, now, pieces[1..], format);
        }
      case Err(_) =>
    }
  }

  lemma InPlace(s: Reader, done: seq<byte>, format: Format)
    requires At(s, done, format)
    ensures s.responseBytes == |done| && (!Halts(done, format) ==> !s.out.done)
  {
  }

  lemma NoReads(s: Reader, body: seq<byte>, format: Format)
    requires At(s, body, format) && !Halts(body, format)
    ensures Agrees(ReadAll(s, Chunks([]), format), EndAnswer(body, format))
  {
    ConcludeAnswer(s, body, format);
  }

  lemma AbsorbHalts(s: Reader, done: seq<byte>, chunk: seq<byte>, format: Format)
    requires At(s, done, format) && !s.out.done
    ensures match Absorb(s.(responseBytes := |done + chunk|), chunk, format)
            case Ok(t) => t.out.done || !Halts(done + chunk, format)
            case Err(_) => Halts(done + chunk, format) && HaltAnswer(done + chunk, format).None?
  {
    AbsorbKeepsPlace(s, done, chunk, format);
  }

  lemma AtStart(format: Format)
    ensures At(START, [], format)
  {
    SsePrefixIsPlainPrefix([]);
    assert Size([]) == 0;
  }

  // ------------------------------------------------ bodies as they grow

  /** An event stream stays one; its events only grow, and an error stays. */
  lemma Grows(part: seq<byte>, more: seq<byte>, format: Format)
    requires Decide(part) == EventStream
    ensures Decide(part + more) == EventStream
    ensures Decoded(part, format).Err? ==> Decoded(part + more, format).Err?
    ensures Decoded(part, format).Ok? ==>
              var first := Decoded(part, format).value;
              var next := Sse.Decode(first.0, more, format.event);
              && (Decoded(part + more, format).Ok? <==> next.Ok?)
              && (next.Ok? ==>
                    var all := Decoded(part + more, format).value.1;
                    && Texts(all) == Texts(first.1) + Texts(next.value.1)
                    && Size(Texts(all)) >= Size(Texts(first.1))
                    && (Sse.Done in all <==> Sse.Done in first.1 || Sse.Done in next.value.1))
  {
    DecisionStable(part, more);
    Sse.DecodeConcat(Sse.INITIAL, part, more, format.event);
    if Decoded(part, format).Ok? {
      var first := Decoded(part, format).value;
      var next := Sse.Decode(first.0, more, format.event);
      if next.Ok? {
        TextsConcat(first.1, next.value.1);
        FlattenConcat(Texts(first.1), Texts(next.value.1));
      }
    }
  }

  /** Event streams show themselves in their first bytes. */
  lemma StreamsShow(body: seq<byte>)
    requires Decide(body) == EventStream
    ensures exists n :: 0 < n <= 6 && n <= |body| && Decide(body[..n]) == EventStream
  {
    SsePrefixIsPlainPrefix(body);
    var n: nat := if Sse.DATA <= body then 5 else if COMMENT <= body then 1 else 6;
    assert StartsLikeEvents(body[..n]) by {
      assert Sse.DATA <= body ==> body[..5] == Sse.DATA;
      assert COMMENT <= body ==> body[..1] == COMMENT;
      assert EVENT <= body ==> body[..6] == EVENT;
    }
    SsePrefixIsPlainPrefix(body[..n]);
    assert !AsciiSpace(body[0]);
    assert FirstVisible(body) == Some(body[0]) && FirstVisible(body[..n]) == Some(body[..n][0]);
  }

  lemma DecidedAt(body: seq<byte>, a: nat, b: nat)
    requires a <= b <= |body| && Decide(body[..a]) != Undecided
    ensures Decide(body[..b]) == Decide(body[..a])
  {
    assert body[..b] == body[..a] + body[a..b];
    DecisionStable(body[..a], body[a..b]);
  }

  // ------------------------------------------------------- the condition

  /** The body is JSON that shows itself too late for some readers, yet in time for
      others, and that can be parsed. */
  predicate DecidesLate(body: seq<byte>, format: Format) {
    && Decide(Head(body, MAX_UNDECIDED_BYTES + 1)) == Undecided
    && Decide(Head(body, LATEST_DECISION)) != Undecided
    && format.body(body).Some? && |format.body(body).value| <= format.limit
  }

  /** What a read can bring behind the first Done decodes, and shows nothing. */
  predicate QuietAfterDone(body: seq<byte>, format: Format) {
    match FirstEnd(body, 0, format)
    case None => true
    case Some(end) =>
      var decoder := Decoded(body[..end], format).value.0;
      var next := Sse.Decode(decoder, Head(body[end..], MAX_READ_BYTES - 1), format.event);
      next.Ok? && Texts(next.value.1) == []
  }

  predicate Steady(body: seq<byte>, format: Format) {
    !DecidesLate(body, format) && QuietAfterDone(body, format)
  }

  /** What a body means, without reads: the texts up to the first Done, or of the
      whole; nothing for a body that no reader understands. */
  function Meaning(body: seq<byte>, format: Format): Option<seq<seq<byte>>> {
    var end := FirstEnd(body, 0, format);
    if end.Some? then Some(Texts(Decoded(body[..end.value], format).value.1))
    else if Halts(body, format) then None
    else if |body| > MAX_UNDECIDED_BYTES && Decide(Head(body, LATEST_DECISION)) == Undecided then None
    else EndAnswer(body, format)
  }

  // ----------------------------------- steady bodies: every run answers alike

  /** The first end of the stream is inside the read that halted after it. */
  lemma EndIsBefore(body: seq<byte>, c: nat, format: Format)
    requires c <= |body| && FirstEnd(body, 0, format).Some?
    requires !Halts(body[..c], format)
    ensures c < FirstEnd(body, 0, format).value
  {
    var m := FirstEnd(body, 0, format).value;
    if m <= c {
      assert body[..c] == body[..m] + body[m..c];
      Grows(body[..m], body[m..c], format);
    }
  }

  lemma NoEndNoAnswer(body: seq<byte>, c: nat, format: Format)
    requires c <= |body| && FirstEnd(body, 0, format).None?
    requires Decide(body[..c]) == EventStream && Halts(body[..c], format)
    ensures Halts(body, format)
  {
    assert body == body[..c] + body[c..];
    NotBeforeFirstEnd(body, 0, c, format);
    Grows(body[..c], body[c..], format);
  }

  /** Around the first end: before it nothing halts, behind it the texts of a quiet
      body stay what they were. */
  lemma AroundTheEnd(body: seq<byte>, c: nat, format: Format)
    requires FirstEnd(body, 0, format).Some? && c <= |body|
    ensures var m := FirstEnd(body, 0, format).value;
            && (c < m ==> !Halts(body[..c], format))
            && (m <= c ==> Halts(body[..c], format))
            && (m <= c < m + MAX_READ_BYTES && QuietAfterDone(body, format) ==>
                  HaltAnswer(body[..c], format) == Some(Texts(Decoded(body[..m], format).value.1)))
            && (c == m ==> HaltAnswer(body[..c], format) == Some(Texts(Decoded(body[..m], format).value.1)))
  {
    var m := FirstEnd(body, 0, format).value;
    if c < m {
      NotBeforeFirstEnd(body, 0, c, format);
      BeforeTheEnd(body, c, m, format);
    } else {
      assert body[..c] == body[..m] + body[m..c];
      Grows(body[..m], body[m..c], format);
      if c < m + MAX_READ_BYTES && QuietAfterDone(body, format) {
        QuietPart(body, m, c, format);
        var texts := Texts(Decoded(body[..m], format).value.1);
        assert texts + [] == texts;
      }
    }
  }

  lemma NoEndYet(part: seq<byte>, more: seq<byte>, format: Format)
    requires Decide(part) == EventStream && EndsStream(part + more, format) && !EndsStream(part, format)
    ensures !Halts(part, format)
  {
    hide Decide, Texts, Size, Sse.Decode, Decoded;
    Grows(part, more, format);
  }

  lemma BeforeTheEnd(body: seq<byte>, c: nat, m: nat, format: Format)
    requires c < m <= |body| && EndsStream(body[..m], format) && !EndsStream(body[..c], format)
    ensures !Halts(body[..c], format)
  {
    if Decide(body[..c]) == EventStream {
      NoEndYet(body[..c], body[c..m], format) by {
        assert body[..m] == body[..c] + body[c..m];
      }
    } else if Decide(body[..c]) == Json {
      DecidedAt(body, c, m);
    } else if c >= 6 {
      NoStreamLater(body, c, m);
    }
  }

  lemma QuietPrefix(s: Sse.State, a: seq<byte>, b: seq<byte>, format: Format)
    requires var all := Sse.Decode(s, a + b, format.event); all.Ok? && Texts(all.value.1) == []
    ensures var next := Sse.Decode(s, a, format.event); next.Ok? && Texts(next.value.1) == []
  {
    hide Sse.Decode, Texts;
    Sse.DecodeConcat(s, a, b, format.event);
    var next := Sse.Decode(s, a, format.event);
    var after := Sse.Decode(next.value.0, b, format.event);
    TextsConcat(next.value.1, after.value.1);
  }

  lemma QuietPart(body: seq<byte>, m: nat, c: nat, format: Format)
    requires FirstEnd(body, 0, format) == Some(m) && QuietAfterDone(body, format)
    requires m <= c <= |body| && c < m + MAX_READ_BYTES
    ensures var next := Sse.Decode(Decoded(body[..m], format).value.0, body[m..c], format.event);
            next.Ok? && Texts(next.value.1) == []
  {
    var decoder := Decoded(body[..m], format).value.0;
    hide Head, FirstEnd, Decoded, Sse.Decode, Texts;
    HeadSplit(body, m, c, MAX_READ_BYTES - 1);
    QuietPrefix(decoder, body[m..c], Head(body[c..], MAX_READ_BYTES - 1 - (c - m)), format);
  }

  lemma HeadSplit(body: seq<byte>, m: nat, c: nat, n: nat)
    requires m <= c <= |body| && c - m <= n
    ensures Head(body[m..], n) == body[m..c] + Head(body[c..], n - (c - m))
  {
  }

  lemma HeadDecides(body: seq<byte>, c: nat, n: nat)
    requires c <= |body| && Decide(body[..c]) != Undecided
    ensures c <= n ==> Decide(Head(body, n)) == Decide(body[..c])
    ensures Decide(body) == Decide(body[..c])
  {
    var h := if n <= |body| then n else |body|;
    assert Head(body, n) == body[..h] && body == body[..|body|];
    if c <= h {
      DecidedAt(body, c, h);
    }
    DecidedAt(body, c, |body|);
  }

  /** A read that halts a run of a steady body gives the body's meaning. */
  lemma StopIsMeaning(body: seq<byte>, c: nat, d: nat, format: Format)
    requires c < d <= |body| && d - c <= MAX_READ_BYTES
    requires Steady(body, format) && !Halts(body[..c], format) && Halts(body[..d], format)
    ensures HaltAnswer(body[..d], format) == Meaning(body, format)
  {
    hide Halts, HaltAnswer, EndAnswer, QuietAfterDone, Texts, Size, Decoded, Decide, Head;
    if FirstEnd(body, 0, format).Some? {
      EndIsBefore(body, c, format);
      AroundTheEnd(body, d, format);
    } else {
      StopWithoutEnd(body, d, format);
    }
  }

  lemma StopWithoutEnd(body: seq<byte>, d: nat, format: Format)
    requires d <= |body| && Steady(body, format) && Halts(body[..d], format) && FirstEnd(body, 0, format).None?
    ensures HaltAnswer(body[..d], format).None? && Meaning(body, format).None?
  {
    hide EndAnswer;
    NotBeforeFirstEnd(body, 0, d, format);
    if Decide(body[..d]) == EventStream {
      NoEndNoAnswer(body, d, format);
    } else {
      LateMeansNothing(body, d, format);
    }
  }

  lemma LateMeansNothing(body: seq<byte>, d: nat, format: Format)
    requires MAX_UNDECIDED_BYTES < d <= |body| && Decide(body[..d]) == Undecided
    requires !DecidesLate(body, format) && FirstEnd(body, 0, format).None?
    ensures Meaning(body, format).None?
  {
    assert Head(body, MAX_UNDECIDED_BYTES + 1) == body[..MAX_UNDECIDED_BYTES + 1];
    if Decide(body[..MAX_UNDECIDED_BYTES + 1]) != Undecided {
      DecidedAt(body, MAX_UNDECIDED_BYTES + 1, d);
    }
    if Decide(body) == EventStream {
      StreamsShow(body);
      var n :| 0 < n <= 6 && n <= |body| && Decide(body[..n]) == EventStream;
      DecidedAt(body, n, d);
    }
  }

  lemma EndIsMeaning(body: seq<byte>, format: Format)
    requires !Halts(body, format) && (Decide(body) != Undecided ==> Decide(Head(body, LATEST_DECISION)) != Undecided)
    ensures Meaning(body, format) == EndAnswer(body, format)
  {
    hide EndAnswer;
    if FirstEnd(body, 0, format).Some? {
      assert body[..|body|] == body;
      EndIsBefore(body, |body|, format);
    }
  }

  lemma {:induction false} SteadyAnswers(body: seq<byte>, c: nat, pieces: seq<Piece>, format: Format)
    requires c <= |body| && !Halts(body[..c], format) && Steady(body, format)
    requires Flatten(pieces) == body[c..] && forall i :: 0 <= i < |pieces| ==> pieces[i] != []
    requires Decide(body[..c]) != Undecided ==> Decide(Head(body, LATEST_DECISION)) != Undecided
    ensures Answer(body[..c], pieces, format) == Meaning(body, format)
    decreases |pieces|
  {
    hide Steady, Meaning, EndAnswer, HaltAnswer, Decide, Head;
    if pieces == [] {
      assert body[..c] == body;
      EndIsMeaning(body, format);
    } else {
      var d := c + |pieces[0]|;
      NextCut(body, c, pieces);
      if Halts(body[..d], format) {
        StopIsMeaning(body, c, d, format);
      } else {
        KnownInTime(body, c, d, format);
        SteadyAnswers(body, d, pieces[1..], format);
      }
    }
  }

  lemma NextCut(body: seq<byte>, c: nat, pieces: seq<Piece>)
    requires c <= |body| && pieces != [] && Flatten(pieces) == body[c..]
    ensures var d := c + |pieces[0]|;
            d <= |body| && body[..c] + pieces[0] == body[..d] && Flatten(pieces[1..]) == body[d..]
  {
    var d := c + |pieces[0]|;
    assert body[c..] == pieces[0] + Flatten(pieces[1..]);
    assert body[c..d] == pieces[0];
    assert body[..d] == body[..c] + body[c..d];
  }

  lemma KnownInTime(body: seq<byte>, c: nat, d: nat, format: Format)
    requires c <= d <= |body| && d - c <= MAX_READ_BYTES && !Halts(body[..c], format)
    requires Decide(body[..c]) != Undecided ==> Decide(Head(body, LATEST_DECISION)) != Undecided
    ensures Decide(body[..d]) != Undecided ==> Decide(Head(body, LATEST_DECISION)) != Undecided
  {
    if Decide(body[..c]) == Undecided && Decide(body[..d]) != Undecided {
      assert d <= LATEST_DECISION;
      HeadDecides(body, d, LATEST_DECISION);
    }
  }

  // ----------------------------------- other bodies: two runs that differ

  function Slices(part: seq<byte>): (pieces: seq<Piece>)
    ensures Flatten(pieces) == part
    ensures forall i :: 0 <= i < |pieces| ==> pieces[i] != []
    decreases |part|
  {
    if part == [] then []
    else if |part| <= MAX_READ_BYTES then [part]
    else [part[..MAX_READ_BYTES]] + Slices(part[MAX_READ_BYTES..])
  }

  /** No reader halts from here on. */
  ghost predicate Open(part: seq<byte>, from: nat, format: Format) {
    forall k :: from <= k <= |part| ==> !Halts(part[..k], format)
  }

  lemma OpenEnds(part: seq<byte>, from: nat, format: Format)
    requires from <= |part| && Open(part, from, format)
    ensures !Halts(part[..from], format) && !Halts(part, format)
  {
    assert part[..|part|] == part;
  }

  /** Reads that halt nowhere pass on to the next ones. */
  lemma {:induction false} AnswerThrough(done: seq<byte>, a: seq<Piece>, b: seq<Piece>, format: Format)
    requires Open(done + Flatten(a), |done|, format)
    ensures !Halts(done, format) && !Halts(done + Flatten(a), format)
    ensures Answer(done, a + b, format) == Answer(done + Flatten(a), b, format)
    decreases |a|
  {
    hide *;
    OpenStep(done, a, format);
    if a == [] {
      assert a + b == b;
    } else {
      var now := done + a[0];
      AnswerThrough(now, a[1..], b, format);
      assert a + b == [a[0]] + (a[1..] + b);
      AnswerStep(done, a[0], a[1..] + b, format);
    }
  }

  lemma AnswerStep(done: seq<byte>, first: Piece, rest: seq<Piece>, format: Format)
    requires !Halts(done, format) && !Halts(done + first, format)
    ensures Answer(done, [first] + rest, format) == Answer(done + first, rest, format)
  {
    assert ([first] + rest)[1..] == rest;
  }

  lemma OpenStep(done: seq<byte>, a: seq<Piece>, format: Format)
    requires Open(done + Flatten(a), |done|, format)
    ensures !Halts(done, format)
    ensures a == [] ==> done + Flatten(a) == done
    ensures a != [] ==>
              && Open(done + a[0] + Flatten(a[1..]), |done + a[0]|, format)
              && done + a[0] + Flatten(a[1..]) == done + Flatten(a)
  {
    hide Halts;
    var all := done + Flatten(a);
    OpenEnds(all, |done|, format);
    assert all[..|done|] == done;
    if a != [] {
      assert all == done + a[0] + Flatten(a[1..]);
    }
  }

  /** No reader halts up to here. */
  ghost predicate Flows(body: seq<byte>, c: nat, format: Format)
    requires c <= |body|
  {
    forall k :: 0 <= k <= c ==> !Halts(body[..k], format)
  }

  /** Slices up to `c`, one read from there to `d`, slices behind. */
  function CutAt(body: seq<byte>, c: nat, d: nat): (pieces: seq<Piece>)
    requires c < d <= |body| && d - c <= MAX_READ_BYTES
  {
    Slices(body[..c]) + [body[c..d]] + Slices(body[d..])
  }

  lemma CutAtCuts(body: seq<byte>, c: nat, d: nat)
    requires c < d <= |body| && d - c <= MAX_READ_BYTES
    ensures CutsOf(CutAt(body, c, d), body)
  {
    FlattenConcat<byte>(Slices(body[..c]), [body[c..d]]);
    FlattenConcat<byte>(Slices(body[..c]) + [body[c..d]], Slices(body[d..]));
    assert body == body[..c] + body[c..d] + body[d..];
    assert Flatten([body[c..d]]) == body[c..d] + [];
  }

  lemma CutAtAnswers(body: seq<byte>, c: nat, d: nat, format: Format)
    requires c < d <= |body| && d - c <= MAX_READ_BYTES
    requires Flows(body, c, format)
    ensures !Halts([], format)
    ensures Answer([], CutAt(body, c, d), format)
         == if Halts(body[..d], format) then HaltAnswer(body[..d], format)
            else Answer(body[..d], Slices(body[d..]), format)
  {
    hide Halts, HaltAnswer, EndAnswer;
    var a, b := Slices(body[..c]), [body[c..d]] + Slices(body[d..]);
    assert a + b == CutAt(body, c, d);
    assert [] + Flatten(a) == body[..c];
    assert Open(body[..c], 0, format) by {
      assert forall k :: 0 <= k <= c ==> body[..c][..k] == body[..k];
    }
    hide Flows, Open;
    AnswerThrough([], a, b, format);
    assert body[..c] + body[c..d] == body[..d];
    assert b[1..] == Slices(body[d..]);
  }

  lemma LateRunsDiffer(body: seq<byte>, format: Format)
    requires DecidesLate(body, format)
    ensures |body| > MAX_UNDECIDED_BYTES + 1 && !Halts([], format)
    ensures Answer([], CutAt(body, MAX_UNDECIDED_BYTES, MAX_UNDECIDED_BYTES + 1), format).None?
    ensures var d := |Head(body, LATEST_DECISION)|;
            && MAX_UNDECIDED_BYTES < d <= |body|
            && Answer([], CutAt(body, MAX_UNDECIDED_BYTES, d), format).Some?
  {
    var n := MAX_UNDECIDED_BYTES;
    LateShape(body, format);
    var d := |Head(body, LATEST_DECISION)|;
    hide EndAnswer, DecidesLate;
    CutAtAnswers(body, n, n + 1, format);
    CutAtAnswers(body, n, d, format);
    assert forall k :: d <= k <= |body| ==> !Halts(body[..k], format);
    JsonToTheEnd(body, d, format);
  }

  lemma HeadWhole(body: seq<byte>, n: nat)
    ensures |body| <= n ==> Head(body, n) == body
  {
    assert body[..|body|] == body;
  }

  lemma NoStreamLater(body: seq<byte>, c: nat, d: nat)
    requires 6 <= c <= d <= |body| && Decide(body[..c]) == Undecided
    ensures Decide(body[..d]) != EventStream
  {
    if Decide(body[..d]) == EventStream {
      StreamsShow(body[..d]);
      var n :| 0 < n <= 6 && n <= |body[..d]| && Decide(body[..d][..n]) == EventStream;
      assert body[..d][..n] == body[..n];
      DecidedAt(body, n, c);
    }
  }

  lemma LateShape(body: seq<byte>, format: Format)
    requires DecidesLate(body, format)
    ensures |body| > MAX_UNDECIDED_BYTES + 1
    ensures Flows(body, MAX_UNDECIDED_BYTES, format)
    ensures Halts(body[..MAX_UNDECIDED_BYTES + 1], format) && !EndsStream(body[..MAX_UNDECIDED_BYTES + 1], format)
    ensures var d := |Head(body, LATEST_DECISION)|;
            && MAX_UNDECIDED_BYTES < d <= |body| && d <= LATEST_DECISION
            && forall k :: d <= k <= |body| ==> Decide(body[..k]) == Json
  {
    var n := MAX_UNDECIDED_BYTES;
    var head := Head(body, LATEST_DECISION);
    HeadWhole(body, n + 1);
    HeadWhole(body, LATEST_DECISION);
    assert Head(body, n + 1) == body[..n + 1] && head == body[..|head|];
    forall k | 0 <= k <= n + 1 ensures Decide(body[..k]) == Undecided {
      if Decide(body[..k]) != Undecided {
        DecidedAt(body, k, n + 1);
      }
    }
    NoStreamLater(body, n + 1, |head|);
    forall k | |head| <= k <= |body| ensures Decide(body[..k]) == Json {
      DecidedAt(body, |head|, k);
    }
  }

  lemma JsonToTheEnd(body: seq<byte>, d: nat, format: Format)
    requires d <= |body| && forall k :: d <= k <= |body| ==> Decide(body[..k]) == Json
    requires format.body(body).Some? && |format.body(body).value| <= format.limit
    ensures !Halts(body[..d], format) && Answer(body[..d], Slices(body[d..]), format).Some?
  {
    var a := Slices(body[d..]);
    assert body[..d] + Flatten(a) == body;
    AnswerThrough(body[..d], a, [], format);
    assert a + [] == a && body[..|body|] == body;
  }

  lemma NoisyRunsDiffer(body: seq<byte>, m: nat, d: nat, format: Format)
    requires FirstEnd(body, 0, format) == Some(m) && !QuietAfterDone(body, format)
    requires d == m + |Head(body[m..], MAX_READ_BYTES - 1)| && 0 < m <= d <= |body| && d - m < MAX_READ_BYTES
    ensures !Halts([], format)
    ensures Answer([], CutAt(body, m - 1, d), format) != Answer([], CutAt(body, m - 1, m), format)
  {
    hide *;
    EndInside(body, m, d, format);
    NoiseShows(body, m, d, format);
    TwoHalts(body, m - 1, m, d, format);
  }

  lemma TwoHalts(body: seq<byte>, c: nat, d: nat, e: nat, format: Format)
    requires c < d <= e <= |body| && e - c <= MAX_READ_BYTES && Flows(body, c, format)
    requires Halts(body[..d], format) && Halts(body[..e], format)
    requires HaltAnswer(body[..e], format) != HaltAnswer(body[..d], format)
    ensures !Halts([], format)
    ensures Answer([], CutAt(body, c, e), format) != Answer([], CutAt(body, c, d), format)
  {
    hide *;
    CutAtAnswers(body, c, d, format);
    CutAtAnswers(body, c, e, format);
  }

  lemma EndInside(body: seq<byte>, m: nat, d: nat, format: Format)
    requires FirstEnd(body, 0, format) == Some(m) && 0 < m <= d <= |body|
    ensures Flows(body, m - 1, format)
    ensures Halts(body[..m], format) && Halts(body[..d], format) && HaltAnswer(body[..m], format).Some?
  {
    hide FirstEnd, QuietAfterDone, Halts, HaltAnswer, EndsStream, Decoded;
    forall k | 0 <= k <= m - 1 ensures !Halts(body[..k], format) {
      AroundTheEnd(body, k, format);
    }
    AroundTheEnd(body, m, format);
    AroundTheEnd(body, d, format);
  }

  lemma NoisyHasEnd(body: seq<byte>, format: Format)
    requires !QuietAfterDone(body, format)
    ensures FirstEnd(body, 0, format).Some? && FirstEnd(body, 0, format).value > 0
  {
    AtStart(format);
    assert body[..0] == [];
  }

  lemma NoiseShows(body: seq<byte>, m: nat, d: nat, format: Format)
    requires FirstEnd(body, 0, format) == Some(m) && !QuietAfterDone(body, format)
    requires d == m + |Head(body[m..], MAX_READ_BYTES - 1)| && d <= |body|
    ensures HaltAnswer(body[..d], format) != HaltAnswer(body[..m], format)
  {
    hide Sse.Decode, Texts, Decide, Size, FirstEnd, Decoded;
    var window := Head(body[m..], MAX_READ_BYTES - 1);
    assert body[..d] == body[..m] + window;
    MoreTexts(body[..m], window, format);
  }

  lemma MoreTexts(part: seq<byte>, more: seq<byte>, format: Format)
    requires EndsStream(part, format)
    requires var next := Sse.Decode(Decoded(part, format).value.0, more, format.event);
             next.Err? || Texts(next.value.1) != []
    ensures HaltAnswer(part + more, format) != HaltAnswer(part, format)
  {
    hide Sse.Decode, Decide, Size, Decoded;
    Grows(part, more, format);
    var texts, next := Texts(Decoded(part, format).value.1), Sse.Decode(Decoded(part, format).value.0, more, format.event);
    hide Texts;
    if next.Ok? {
      assert |texts + Texts(next.value.1)| > |texts|;
    }
  }

  // ---------------------------------------------------------- main results

  ghost predicate SameAnswer(a: Final, b: Final) {
    && (a.result.Ok? <==> b.result.Ok?)
    && (a.result.Ok? ==> a.sent == b.sent)
  }

  function Run(pieces: seq<Piece>, format: Format): Final { ReadAll(START, Chunks(pieces), format) }

  /** Every two ways of cutting the body into reads succeed or fail alike, and deliver
      the same texts if they succeed. */
  ghost predicate Independent(body: seq<byte>, format: Format) {
    forall p: seq<Piece>, q: seq<Piece> :: CutsOf(p, body) && CutsOf(q, body) ==>
      SameAnswer(Run(p, format), Run(q, format))
  }

  lemma RunAnswersFromStart(pieces: seq<Piece>, body: seq<byte>, format: Format)
    requires CutsOf(pieces, body) && |body| <= MAX_RESPONSE_BYTES
    ensures !Halts([], format)
    ensures Agrees(Run(pieces, format), Answer([], pieces, format))
  {
    AtStart(format);
    assert [] + Flatten(pieces) == body;
    RunAnswers(START, [], pieces, format);
  }

  /** A steady body succeeds with its meaning, or fails without one, however it is read. */
  lemma SteadyMeaning(body: seq<byte>, pieces: seq<Piece>, format: Format)
    requires CutsOf(pieces, body) && |body| <= MAX_RESPONSE_BYTES && Steady(body, format)
    ensures Agrees(Run(pieces, format), Meaning(body, format))
  {
    hide Steady, Meaning, Answer, EndAnswer;
    RunAnswersFromStart(pieces, body, format);
    AtStart(format);
    assert body[..0] == [] && body[0..] == body;
    SteadyAnswers(body, 0, pieces, format);
  }

  lemma UnsteadyRuns(body: seq<byte>, format: Format)
    requires |body| <= MAX_RESPONSE_BYTES && !Steady(body, format)
    ensures !Independent(body, format)
  {
    hide DecidesLate, QuietAfterDone, Answer, Halts, FirstEnd, Head;
    if DecidesLate(body, format) {
      LateRunsDiffer(body, format);
      var n, d := MAX_UNDECIDED_BYTES, |Head(body, LATEST_DECISION)|;
      HeadIsShort(body, LATEST_DECISION);
      TwoCutsDiffer(body, n, n + 1, n, d, format);
    } else {
      NoisyHasEnd(body, format);
      var m := FirstEnd(body, 0, format).value;
      var d := m + |Head(body[m..], MAX_READ_BYTES - 1)|;
      HeadIsShort(body[m..], MAX_READ_BYTES - 1);
      NoisyRunsDiffer(body, m, d, format);
      TwoCutsDiffer(body, m - 1, m, m - 1, d, format);
    }
  }

  lemma HeadIsShort(body: seq<byte>, n: nat)
    ensures |Head(body, n)| <= n && |Head(body, n)| <= |body|
  {
  }

  lemma TwoCutsDiffer(body: seq<byte>, c: nat, d: nat, e: nat, f: nat, format: Format)
    requires |body| <= MAX_RESPONSE_BYTES
    requires c < d <= |body| && d - c <= MAX_READ_BYTES && e < f <= |body| && f - e <= MAX_READ_BYTES
    requires !Halts([], format)
    requires Answer([], CutAt(body, c, d), format) != Answer([], CutAt(body, e, f), format)
    ensures !Independent(body, format)
  {
    var p, q := CutAt(body, c, d), CutAt(body, e, f);
    CutAtCuts(body, c, d);
    CutAtCuts(body, e, f);
    RunAnswersFromStart(p, body, format);
    RunAnswersFromStart(q, body, format);
    assert !SameAnswer(Run(p, format), Run(q, format));
  }

  /** The main result, for every body of at most 2 MiB: success and the texts
      delivered do not depend on the reads, exactly if the body is steady. */
  lemma BoundaryIndependence(body: seq<byte>, format: Format)
    requires |body| <= MAX_RESPONSE_BYTES
    ensures Independent(body, format) <==> Steady(body, format)
  {
    hide Steady, Meaning, Run;
    if Steady(body, format) {
      forall p: seq<Piece>, q: seq<Piece> | CutsOf(p, body) && CutsOf(q, body)
        ensures SameAnswer(Run(p, format), Run(q, format))
      {
        SteadyMeaning(body, p, format);
        SteadyMeaning(body, q, format);
      }
    } else {
      UnsteadyRuns(body, format);
    }
  }

  // -------------------------------------------------- bodies of both families

  /** An event of one data line. */
  function Event(payload: seq<byte>): seq<byte> { Sse.DATA + [32] + payload + [LF, LF] }

  ghost predicate Printable(payload: seq<byte>) { forall i :: 0 <= i < |payload| ==> 32 <= payload[i] < 127 }

  lemma {:induction false} PrintableIsUtf8(payload: seq<byte>)
    requires Printable(payload)
    ensures Sse.Utf8(payload)
    decreases |payload|
  {
    if payload != [] {
      PrintableIsUtf8(payload[1..]);
    }
  }

  lemma EventLine(payload: seq<byte>)
    requires Printable(payload)
    ensures var line := Sse.DATA + [32] + payload;
            && Sse.StripOneCr(line) == line && Sse.Utf8(line) && LF !in line
            && Sse.IsData(line) && Sse.DataValue(line) == payload
  {
    var line := Sse.DATA + [32] + payload;
    PrintableIsUtf8(line);
    assert line[|line| - 1] == if payload == [] then 32 else payload[|payload| - 1];
    assert line[|Sse.DATA|..] == [32] + payload;
    assert ([32] + payload)[1..] == payload;
  }

  lemma EventDecodes(payload: seq<byte>, rest: seq<byte>, events: seq<Sse.Event>, parse: Sse.Parser)
    requires Printable(payload) && |payload| <= 1000 && Sse.PayloadEvents(payload, parse) == Ok(events)
    ensures Sse.Decode(Sse.INITIAL, Event(payload) + rest, parse)
         == Sse.Prepend(events, Sse.Decode(Sse.INITIAL, rest, parse))
  {
    var line := Sse.DATA + [32] + payload;
    var input := Event(payload) + rest;
    var middle := [LF] + rest;
    var stored := Sse.State([], [payload], |payload| + 1);
    EventLine(payload);
    hide Sse.Utf8, Sse.Decode;
    assert input[..|line|] == line && input[|line|] == LF && input[|line| + 1..] == middle;
    Sse.DecodeLine(Sse.INITIAL, input, |line|, parse);
    assert Sse.LineStep(Sse.INITIAL, line, parse) == Ok((stored, [])) by {
      assert [] + [payload] == [payload];
    }
    Sse.PrependNothing(Sse.Decode(stored, middle, parse));
    EmptyLineDecodes(payload, rest, events, parse);
  }

  lemma EmptyLineDecodes(payload: seq<byte>, rest: seq<byte>, events: seq<Sse.Event>, parse: Sse.Parser)
    requires |payload| <= 1000 && Sse.PayloadEvents(payload, parse) == Ok(events)
    ensures Sse.Decode(Sse.State([], [payload], |payload| + 1), [LF] + rest, parse)
         == Sse.Prepend(events, Sse.Decode(Sse.INITIAL, rest, parse))
  {
    var stored, middle := Sse.State([], [payload], |payload| + 1), [LF] + rest;
    assert Sse.Valid(stored) by {
      assert [payload][..0] == [];
      assert Sse.Stored([payload]) == Sse.Stored([]) + |payload| + 1;
    }
    assert middle[..0] == [] && middle[1..] == rest && Sse.Utf8([]);
    Sse.DecodeLine(stored, middle, 0, parse);
    assert Sse.JoinLines([payload]) == payload;
  }

  /** The end of the stream with any event behind it that shows some text: read at
      one go it shows the text, read in two goes it does not. */
  lemma NoiseAfterDoneDependsOnReads(payload: seq<byte>, text: seq<byte>, format: Format)
    requires Printable(payload) && |payload| <= 1000 && payload != Sse.SENTINEL && text != []
    requires format.event(payload) == Some(Sse.Choice(Some(Sse.Text(text)), None))
    ensures !Independent(Event(Sse.SENTINEL) + Event(payload), format)
  {
    var first, second := Event(Sse.SENTINEL), Event(payload);
    var body := first + second;
    EventDecodes(Sse.SENTINEL, [], [Sse.Done], format.event);
    EventDecodes(payload, [], [Sse.Delta(text)], format.event);
    EventDecodes(Sse.SENTINEL, second, [Sse.Done], format.event);
    assert first + [] == first && second + [] == second;
    assert [Sse.Done] + [] == [Sse.Done] && [Sse.Delta(text)] + [] == [Sse.Delta(text)];
    assert [Sse.Done] + [Sse.Delta(text)] == [Sse.Done, Sse.Delta(text)];
    assert Decoded(first, format) == Ok((Sse.INITIAL, [Sse.Done]));
    assert Decoded(body, format) == Ok((Sse.INITIAL, [Sse.Done, Sse.Delta(text)]));
    assert body[..|first|] == first;
    StartsAsStream(Sse.SENTINEL, []);
    StartsAsStream(Sse.SENTINEL, second);
    DoneThenText(body, |first|, text, format);
    BoundaryIndependence(body, format);
  }

  lemma StartsAsStream(payload: seq<byte>, rest: seq<byte>)
    ensures Decide(Event(payload) + rest) == EventStream
  {
    var all := Event(payload) + rest;
    assert Sse.DATA <= all && all[0] == 100;
    SsePrefixIsPlainPrefix(all);
    assert FirstVisible(all) == Some(100);
  }

  lemma DoneThenText(body: seq<byte>, c: nat, text: seq<byte>, format: Format)
    requires c <= |body| <= MAX_READ_BYTES - 1
    requires Decide(body[..c]) == EventStream
    requires Decoded(body[..c], format) == Ok((Sse.INITIAL, [Sse.Done]))
    requires Decoded(body, format) == Ok((Sse.INITIAL, [Sse.Done, Sse.Delta(text)]))
    ensures !QuietAfterDone(body, format)
  {
    assert [Sse.Done][1..] == [] && [Sse.Done, Sse.Delta(text)][1..] == [Sse.Delta(text)];
    assert [Sse.Delta(text)][1..] == [] && Texts([Sse.Delta(text)]) == [text] + Texts([]);
    assert Texts([Sse.Done]) == [] && Texts([Sse.Done, Sse.Delta(text)]) == [text];
    assert EndsStream(body[..c], format);
    if FirstEnd(body, 0, format).None? || c < FirstEnd(body, 0, format).value {
      NotBeforeFirstEnd(body, 0, c, format);
    } else {
      var m := FirstEnd(body, 0, format).value;
      assert body[..c] == body[..m] + body[m..c] && body == body[..m] + body[m..];
      Grows(body[..m], body[m..c], format);
      Grows(body[..m], body[m..], format);
      HeadWhole(body[m..], MAX_READ_BYTES - 1);
    }
  }

  function Blanks(n: nat): seq<byte> { seq(n, i => 32) }

  lemma {:induction false} BlanksAreInvisible(n: nat, rest: seq<byte>)
    ensures FirstVisible(Blanks(n) + rest) == FirstVisible(rest)
    decreases n
  {
    if n == 0 {
      assert Blanks(0) + rest == rest;
    } else {
      assert (Blanks(n) + rest)[1..] == Blanks(n - 1) + rest;
      BlanksAreInvisible(n - 1, rest);
    }
  }

  lemma BlanksAreOpen(n: nat)
    ensures Decide(Blanks(n)) == Undecided
  {
    BlanksAreInvisible(n, []);
    assert Blanks(n) + [] == Blanks(n);
    SsePrefixIsPlainPrefix(Blanks(n));
  }

  /** JSON behind 64 KiB and one byte of blanks: a reader that stops to look right
      there gives up, one whose read goes further does not. */
  lemma LateDecisionDependsOnReads(json: seq<byte>, format: Format)
    requires json != [] && (json[0] == 123 || json[0] == 91) && |json| <= MAX_READ_BYTES
    requires var text := format.body(Blanks(MAX_UNDECIDED_BYTES + 1) + json); text.Some? && |text.value| <= format.limit
    ensures !Independent(Blanks(MAX_UNDECIDED_BYTES + 1) + json, format)
  {
    var n := MAX_UNDECIDED_BYTES + 1;
    var body := Blanks(n) + json;
    var part := Head(json, MAX_READ_BYTES - 1);
    assert Head(body, n) == Blanks(n);
    assert Head(body, LATEST_DECISION) == Blanks(n) + part;
    BlanksAreOpen(n);
    BlanksAreInvisible(n, part);
    assert FirstVisible(part) == Some(json[0]);
    assert DecidesLate(body, format);
    BoundaryIndependence(body, format);
  }
}
