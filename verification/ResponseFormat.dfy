/** Post-processing of the linguist profile's structured responses. */
module ResponseFormat {
  import opened Common
  import opened Normalize

  const LINGUIST := "linguist-analysis"
  const NAMES: seq<string> := ["Translation", "Idioms and Grammar", "Other Forms", "Reasoning"]

  function HeadingLine(index: nat): string
    requires index < 4
  {
    "## " + NAMES[index]
  }

  // ------------------------------------------------------- classification

  datatype Class = Plain | Heading(index: nat) | Field(index: nat, value: string)

  function TrimHashes(s: string): string {
    if s != "" && s[0] == '#' then TrimHashes(s[1..]) else s
  }

  function TrimColons(s: string): string {
    if s != "" && s[|s| - 1] == ':' then TrimColons(s[..|s| - 1]) else s
  }

  function CanonicalName(title: string): Option<nat> {
    if title == NAMES[0] then Some(0)
    else if title == NAMES[1] then Some(1)
    else if title == NAMES[2] then Some(2)
    else if title == NAMES[3] then Some(3)
    else None
  }

  function TitleIndex(s: string): Option<nat> { CanonicalName(Trim(TrimColons(Trim(s)))) }

  function HashHeading(trimmed: string): Option<nat> {
    if trimmed != "" && trimmed[0] == '#' && TrimHashes(trimmed) != "" && IsWhitespace(TrimHashes(trimmed)[0])
    then TitleIndex(TrimHashes(trimmed)) else None
  }

  function BoldHeading(trimmed: string): Option<nat> {
    if |trimmed| >= 4 && "**" <= trimmed && trimmed[|trimmed| - 2..] == "**"
    then TitleIndex(trimmed[2..|trimmed| - 2]) else None
  }

  function FieldAt(field: string, index: nat): Class
    requires index < 4
    decreases 4 - index
  {
    if NAMES[index] + ":" <= field then Field(index, Trim(field[|NAMES[index]| + 1..]))
    else if index < 3 then FieldAt(field, index + 1)
    else Plain
  }

  function Classify(line: string): (c: Class)
    ensures c.Heading? || c.Field? ==> c.index < 4
  {
    var trimmed := Trim(line);
    if HashHeading(trimmed).Some? then Heading(HashHeading(trimmed).value)
    else if BoldHeading(trimmed).Some? then Heading(BoldHeading(trimmed).value)
    else FieldAt(if trimmed != "" && trimmed[0] == '-' then TrimStart(trimmed[1..]) else trimmed, 0)
  }

  predicate Blank(line: string) { Trim(line) == "" }

  predicate AllBlank(lines: seq<string>) { forall i :: 0 <= i < |lines| ==> Blank(lines[i]) }

  // ------------------------------------------------------------ splitting

  function Split(s: string): (lines: seq<string>)
    ensures |lines| >= 1
  {
    if s == "" then [""]
    else if s[0] == '\n' then [""] + Split(s[1..])
    else
      var rest := Split(s[1..]);
      [[s[0]] + rest[0]] + rest[1..]
  }

  function Join(lines: seq<string>, separator: string): string
    decreases |lines|
  {
    if lines == [] then "" else if |lines| == 1 then lines[0] else lines[0] + separator + Join(lines[1..], separator)
  }

  function StripCr(raw: string): string {
    if raw != "" && raw[|raw| - 1] == '\r' then raw[..|raw| - 1] else raw
  }

  function StripAll(raws: seq<string>): (lines: seq<string>)
    ensures |lines| == |raws|
    ensures forall i :: 0 <= i < |lines| ==> lines[i] == StripCr(raws[i])
  {
    if raws == [] then [] else [StripCr(raws[0])] + StripAll(raws[1..])
  }

  function Lines(s: string): seq<string> { StripAll(Split(s)) }

  predicate HasCrLf(s: string) { exists i :: 0 <= i < |s| - 1 && s[i] == '\r' && s[i + 1] == '\n' }

  predicate EndsWithNewline(s: string) { s != "" && s[|s| - 1] == '\n' }

  // -------------------------------------------------------------- parsing

  datatype Parsed = Parsed(sections: seq<seq<string>>, preamble: seq<string>, current: Option<nat>)

  const NOTHING := Parsed([[], [], [], []], [], None)

  predicate Shaped(p: Parsed) { |p.sections| == 4 && (p.current.Some? ==> p.current.value < 4) }

  function Append(sections: seq<seq<string>>, index: nat, line: string): seq<seq<string>>
    requires index < |sections|
  {
    sections[index := sections[index] + [line]]
  }

  function AddLine(p: Parsed, line: string): (q: Parsed)
    requires Shaped(p)
    ensures Shaped(q)
  {
    match Classify(line)
    case Heading(index) => p.(current := Some(index))
    case Field(index, value) => p.(current := Some(index), sections := Append(p.sections, index, value))
    case Plain =>
      if p.current.Some? then p.(sections := Append(p.sections, p.current.value, line))
      else p.(preamble := p.preamble + [line])
  }

  function AddLines(p: Parsed, lines: seq<string>): (q: Parsed)
    requires Shaped(p)
    ensures Shaped(q)
    decreases |lines|
  {
    if lines == [] then p else AddLines(AddLine(p, lines[0]), lines[1..])
  }

  function DropLastEmpty(lines: seq<string>): seq<string> {
    if lines != [] && lines[|lines| - 1] == "" then lines[..|lines| - 1] else lines
  }

  /** The four section bodies, the terminal newline's empty item removed. */
  function Bodies(p: Parsed, trailing: bool): (r: seq<seq<string>>)
    requires Shaped(p)
    ensures |r| == 4
  {
    var q :=
      if !trailing then p
      else if p.current.Some? then
        p.(sections := p.sections[p.current.value := DropLastEmpty(p.sections[p.current.value])])
      else p.(preamble := DropLastEmpty(p.preamble));
    q.sections[0 := q.preamble + q.sections[0]]
  }

  function Shown(body: seq<string>): seq<string> { if AllBlank(body) then ["None"] else body }

  function Layout(bodies: seq<seq<string>>): seq<string>
    requires |bodies| == 4
  {
    Section(0, Shown(bodies[0])) + Section(1, Shown(bodies[1])) + Section(2, Shown(bodies[2]))
    + Section(3, Shown(bodies[3]))
  }

  function Section(index: nat, body: seq<string>): seq<string>
    requires index < 4
  {
    [HeadingLine(index)] + body
  }

  function BodiesOf(response: string): (r: seq<seq<string>>)
    ensures |r| == 4
  {
    Bodies(AddLines(NOTHING, Lines(response)), EndsWithNewline(response))
  }

  function Separator(response: string): string { if HasCrLf(response) then "\r\n" else "\n" }

  function NormalizeTerminalResponse(profileId: string, response: string): string {
    if profileId != LINGUIST then response
    else Render(BodiesOf(response), Separator(response), EndsWithNewline(response))
  }

  function Render(bodies: seq<seq<string>>, separator: string, trailing: bool): string
    requires |bodies| == 4
  {
    Join(Layout(bodies), separator) + (if trailing then separator else "")
  }

  // ------------------------------------------------------ the source's loop

  method NormalizeResponse(profileId: string, response: string) returns (output: string)
    ensures output == NormalizeTerminalResponse(profileId, response)
  {
    if profileId != LINGUIST {
      return response;
    }
    var separator := if HasCrLf(response) then "\r\n" else "\n";
    var trailing := EndsWithNewline(response);
    var sections := CollectSections(response, trailing);
    var lines: seq<string> := [];
    var k := 0;
    while k < 4
      invariant 0 <= k <= 4
      invariant lines == LayoutUpTo(sections, k)
    {
      lines := lines + [HeadingLine(k)];
      lines := lines + (if AllBlank(sections[k]) then ["None"] else sections[k]);
      assert lines == LayoutUpTo(sections, k) + Section(k, Shown(sections[k]));
      k := k + 1;
    }
    LayoutIsComplete(sections);
    output := Join(lines, separator);
    if trailing {
      output := output + separator;
    } else {
      assert output + "" == output;
    }
  }

  method CollectSections(response: string, trailing: bool) returns (sections: seq<seq<string>>)
    requires trailing == EndsWithNewline(response)
    ensures sections == BodiesOf(response)
  {
    sections := [[], [], [], []];
    var preamble: seq<string> := [];
    var current: Option<nat> := None;
    var raws := Split(response);
    ghost var todo := Lines(response);
    var i := 0;
    while i < |raws|
      invariant 0 <= i <= |raws| && Shaped(Parsed(sections, preamble, current))
      invariant current.None? ==> sections == [[], [], [], []]
      invariant todo == Lines(response)[i..]
      invariant AddLines(NOTHING, Lines(response)) == AddLines(Parsed(sections, preamble, current), todo)
    {
      var line := StripCr(raws[i]);
      assert todo[0] == line;
      match Classify(line) {
        case Heading(index) =>
          current := Some(index);
        case Field(index, value) =>
          current := Some(index);
          sections := sections[index := sections[index] + [value]];
        case Plain =>
          if current.Some? {
            sections := sections[current.value := sections[current.value] + [line]];
          } else {
            preamble := preamble + [line];
          }
      }
      todo := todo[1..];
      i := i + 1;
    }
    ghost var parsed := Parsed(sections, preamble, current);
    assert parsed == AddLines(NOTHING, Lines(response));
    if trailing {
      if current.Some? {
        sections := sections[current.value := DropLastEmpty(sections[current.value])];
      } else {
        preamble := DropLastEmpty(preamble);
      }
    }
    if current.None? {
      assert preamble + sections[0] == preamble;
      sections := sections[0 := preamble];
    } else if preamble != [] {
      sections := sections[0 := preamble + sections[0]];
    } else {
      assert preamble + sections[0] == sections[0];
    }
  }

  ghost function LayoutUpTo(bodies: seq<seq<string>>, k: nat): seq<string>
    requires |bodies| == 4 && k <= 4
  {
    if k == 0 then [] else LayoutUpTo(bodies, k - 1) + Section(k - 1, Shown(bodies[k - 1]))
  }

  lemma LayoutIsComplete(bodies: seq<seq<string>>)
    requires |bodies| == 4
    ensures LayoutUpTo(bodies, 4) == Layout(bodies)
  {
    assert LayoutUpTo(bodies, 1) == Section(0, Shown(bodies[0]));
    assert LayoutUpTo(bodies, 2) == LayoutUpTo(bodies, 1) + Section(1, Shown(bodies[1]));
    assert LayoutUpTo(bodies, 3) == LayoutUpTo(bodies, 2) + Section(2, Shown(bodies[2]));
  }

  // ------------------------------------------------- splitting and joining

  /** A line: no LF in it. */
  predicate Clean(line: string) {
    forall i :: 0 <= i < |line| ==> line[i] != '\n'
  }

  predicate AllClean(lines: seq<string>) { forall i :: 0 <= i < |lines| ==> Clean(lines[i]) }

  predicate CrOnlyBeforeLf(s: string) {
    forall i :: 0 <= i < |s| && s[i] == '\r' ==> i + 1 < |s| && s[i + 1] == '\n'
  }

  lemma {:induction false} SplitLine(a: string, b: string)
    requires '\n' !in a
    ensures Split(a + "\n" + b) == [a] + Split(b)
  {
    if a == "" {
      assert ("" + "\n" + b)[1..] == b;
    } else {
      SplitLine(a[1..], b);
      assert (a + "\n" + b)[1..] == a[1..] + "\n" + b;
      assert [a[0]] + a[1..] == a;
    }
  }

  lemma {:induction false} SplitOne(a: string)
    requires '\n' !in a
    ensures Split(a) == [a]
  {
    if a != "" {
      SplitOne(a[1..]);
      assert [a[0]] + a[1..] == a;
    }
  }

  predicate EndsWithCr(line: string) { line != "" && line[|line| - 1] == '\r' }

  /** What a line loses to the splitter, which takes one CR before each LF and one at
      the very end. */
  function Stripped(lines: seq<string>, separator: string): (r: seq<string>)
    requires lines != []
    ensures |r| == |lines|
    decreases |lines|
  {
    if |lines| == 1 then [StripCr(lines[0])]
    else [if separator == "\n" then StripCr(lines[0]) else lines[0]] + Stripped(lines[1..], separator)
  }

  /** No line ends in a CR, unless a CRLF follows it. */
  predicate Framed(lines: seq<string>, separator: string) {
    forall i :: 0 <= i < |lines| && EndsWithCr(lines[i]) ==> separator == "\r\n" && i + 1 < |lines|
  }

  lemma FirstLine(a: string, separator: string, rest: string)
    requires Clean(a) && (separator == "\n" || separator == "\r\n")
    ensures Lines(a + separator + rest) == [if separator == "\n" then StripCr(a) else a] + Lines(rest)
  {
    var first := if separator == "\n" then a else a + "\r";
    SplitLine(first, rest);
    assert a + separator + rest == first + "\n" + rest;
    assert StripCr(a + "\r") == a;
    assert StripAll([first] + Split(rest))[1..] == Lines(rest);
  }

  lemma {:induction false} LinesOfJoin(lines: seq<string>, separator: string)
    requires lines != [] && AllClean(lines) && (separator == "\n" || separator == "\r\n")
    ensures Lines(Join(lines, separator)) == Stripped(lines, separator)
    decreases |lines|
  {
    if |lines| == 1 {
      SplitOne(lines[0]);
      assert Lines(lines[0]) == [StripCr(lines[0])];
    } else {
      LinesOfJoin(lines[1..], separator);
      FirstLine(lines[0], separator, Join(lines[1..], separator));
    }
  }

  lemma {:induction false} StrippedFramed(lines: seq<string>, separator: string)
    requires lines != [] && Framed(lines, separator)
    ensures Stripped(lines, separator) == lines
    decreases |lines|
  {
    assert !EndsWithCr(lines[0]) || separator == "\r\n";
    if |lines| > 1 {
      assert Framed(lines[1..], separator) by {
        assert forall i :: 0 <= i < |lines[1..]| ==> lines[1..][i] == lines[i + 1];
      }
      StrippedFramed(lines[1..], separator);
      assert [lines[0]] + lines[1..] == lines;
    }
  }

  /** Lines without LF are determined by their number and what they join to. */
  lemma {:induction false} SameJoin(a: seq<string>, b: seq<string>, separator: string)
    requires |a| == |b| > 0 && AllClean(a) && AllClean(b) && (separator == "\n" || separator == "\r\n")
    requires Join(a, separator) == Join(b, separator)
    ensures a == b
    decreases |a|
  {
    if |a| > 1 {
      SameFirst(a[0], b[0], separator, Join(a[1..], separator), Join(b[1..], separator));
      SameJoin(a[1..], b[1..], separator);
      assert a == [a[0]] + a[1..] && b == [b[0]] + b[1..];
    } else {
      assert a == [a[0]] && b == [b[0]];
    }
  }

  lemma SameFirst(a: string, b: string, separator: string, restA: string, restB: string)
    requires Clean(a) && Clean(b) && (separator == "\n" || separator == "\r\n")
    requires a + separator + restA == b + separator + restB
    ensures a == b && restA == restB
  {
    var text, k := a + separator + restA, |separator| - 1;
    assert text == b + separator + restB;
    assert separator[k] == '\n' && forall i :: 0 <= i < k ==> separator[i] != '\n';
    assert text[|a| + k] == '\n' && text[|b| + k] == '\n';
    assert forall i :: 0 <= i < |a| ==> text[i] == a[i];
    assert forall i :: 0 <= i < |b| ==> text[i] == b[i];
    assert k == 1 ==> text[|a|] == '\r' && text[|b|] == '\r';
    assert |a| == |b|;
    assert a == text[..|a|] == b;
    assert restA == text[|a| + |separator|..] == restB;
  }

  lemma JoinHasCrLf(lines: seq<string>)
    requires |lines| >= 2
    ensures HasCrLf(Join(lines, "\r\n"))
  {
    var all := Join(lines, "\r\n");
    assert all[|lines[0]|] == '\r' && all[|lines[0]| + 1] == '\n';
  }

  lemma {:induction false} JoinHasNoCrLf(lines: seq<string>)
    requires AllClean(lines) && Framed(lines, "\n")
    ensures !HasCrLf(Join(lines, "\n"))
    decreases |lines|
  {
    if |lines| >= 2 {
      var tail := lines[1..];
      assert Framed(tail, "\n") by {
        assert forall i :: 0 <= i < |tail| ==> tail[i] == lines[i + 1];
      }
      JoinHasNoCrLf(tail);
      NoCrLfAcross(lines[0], Join(tail, "\n"));
    } else if |lines| == 1 {
      assert Clean(lines[0]);
    }
  }

  lemma NoCrLfAcross(a: string, rest: string)
    requires Clean(a) && !EndsWithCr(a) && !HasCrLf(rest)
    ensures !HasCrLf(a + "\n" + rest)
  {
    var all := a + "\n" + rest;
    forall i | 0 <= i < |all| - 1 ensures !(all[i] == '\r' && all[i + 1] == '\n') {
      if i > |a| {
        assert all[i] == rest[i - |a| - 1] && all[i + 1] == rest[i - |a|];
      }
    }
  }

  lemma {:induction false} JoinEnding(lines: seq<string>, separator: string)
    requires |lines| >= 2 && AllClean(lines) && (separator == "\n" || separator == "\r\n")
    ensures EndsWithNewline(Join(lines, separator)) <==> lines[|lines| - 1] == ""
    decreases |lines|
  {
    var rest := Join(lines[1..], separator);
    var all := lines[0] + separator + rest;
    assert Clean(lines[1]);
    if |lines| > 2 {
      JoinEnding(lines[1..], separator);
      assert rest[|rest| - 1] == all[|all| - 1] by {
        assert rest == lines[1] + separator + Join(lines[2..], separator) by { assert lines[1..][1..] == lines[2..]; }
      }
    } else {
      assert rest == lines[1];
      if rest != "" {
        assert all[|all| - 1] == rest[|rest| - 1];
      } else {
        assert all == lines[0] + separator;
      }
    }
  }

  lemma {:induction false} JoinSnocEmpty(lines: seq<string>, separator: string)
    requires lines != []
    ensures Join(lines + [""], separator) == Join(lines, separator) + separator
    decreases |lines|
  {
    if |lines| == 1 {
      assert (lines + [""])[1..] == [""];
      assert lines[0] + separator + "" == lines[0] + separator;
    } else {
      JoinSnocEmpty(lines[1..], separator);
      assert (lines + [""])[1..] == lines[1..] + [""];
      assert lines[0] + separator + (Join(lines[1..], separator) + separator)
          == lines[0] + separator + Join(lines[1..], separator) + separator;
    }
  }

  lemma {:induction false} LinesAreClean(s: string)
    ensures AllClean(Lines(s))
  {
    if s != "" {
      var tail := s[1..];
      LinesAreClean(tail);
      var rest := Split(tail);
      if s[0] == '\n' {
        assert Lines(s) == [""] + Lines(tail);
      } else {
        assert Lines(s) == [StripCr([s[0]] + rest[0])] + Lines(tail)[1..];
        assert Clean(Lines(tail)[0]);
        FirstIsClean(s[0], rest[0]);
      }
    }
  }

  lemma FirstIsClean(c: char, raw: string)
    requires c != '\n' && Clean(StripCr(raw))
    ensures Clean(StripCr([c] + raw))
  {
    if raw != "" {
      assert StripCr([c] + raw) == [c] + StripCr(raw);
    }
  }

  // --------------------------------------------------------------- parsing

  /** No field value is itself a heading or a field. */
  predicate TameLines(lines: seq<string>) {
    forall i :: 0 <= i < |lines| && Classify(lines[i]).Field? ==> Classify(Classify(lines[i]).value) == Plain
  }

  predicate Tame(response: string) { TameLines(Lines(response)) }

  predicate NoneEndsWithCr(lines: seq<string>) { forall i :: 0 <= i < |lines| ==> !EndsWithCr(lines[i]) }

  /** No CR can come to stand where the splitter takes it: the response ends in a
      newline; or else no line of a body still ends in a CR after the splitter took
      one, of all four bodies where lines are joined by LF, and where they are joined
      by CRLF only the last line of the last body counts. */
  predicate CrSafe(response: string) {
    var bodies := BodiesOf(response);
    || EndsWithNewline(response)
    || (if HasCrLf(response) then !LastEndsWithCr(Shown(bodies[3]))
        else NoneEndsWithCr(Shown(bodies[0])) && NoneEndsWithCr(Shown(bodies[1])) && NoneEndsWithCr(Shown(bodies[2]))
             && NoneEndsWithCr(Shown(bodies[3])))
  }

  predicate LastEndsWithCr(lines: seq<string>) { lines != [] && EndsWithCr(lines[|lines| - 1]) }

  /** That is what keeps every output line whole. */
  lemma CrSafeIs(response: string)
    ensures CrSafe(response) <==> Framed(OutputLines(response), Separator(response))
  {
    hide Lines, BodiesOf, Layout, Shown, NoneEndsWithCr, HasCrLf, EndsWithCr;
    var layout := Layout(BodiesOf(response));
    LayoutEnds(BodiesOf(response));
    NoneInLayout(BodiesOf(response));
    if EndsWithNewline(response) {
      if !HasCrLf(response) {
        NewlineNoCrs(response);
        OutputCrs(response);
        NoCrsIsFramed(OutputLines(response), "\n");
      } else {
        EmptyIsNoCr();
        assert forall i :: 0 <= i < |OutputLines(response)| ==>
                 (i + 1 < |OutputLines(response)| || OutputLines(response)[i] == "");
      }
    } else {
      assert layout + [] == layout;
      FramedIs(layout, Separator(response));
    }
  }

  lemma EmptyIsNoCr()
    ensures !EndsWithCr("")
  {
  }

  lemma FramedIs(lines: seq<string>, separator: string)
    requires lines != []
    ensures separator == "\r\n" ==> (Framed(lines, separator) <==> !LastEndsWithCr(lines))
    ensures separator == "\n" ==> (Framed(lines, separator) <==> NoneEndsWithCr(lines))
  {
    hide EndsWithCr;
  }

  lemma LayoutEnds(bodies: seq<seq<string>>)
    requires |bodies| == 4
    ensures Layout(bodies) != [] && (LastEndsWithCr(Layout(bodies)) <==> LastEndsWithCr(Shown(bodies[3])))
  {
    hide HeadingLine, EndsWithCr;
    assert Shown(bodies[3]) != [];
    assert Layout(bodies)[|Layout(bodies)| - 1] == Shown(bodies[3])[|Shown(bodies[3])| - 1];
  }

  lemma NoneConcat(a: seq<string>, b: seq<string>)
    ensures NoneEndsWithCr(a + b) <==> NoneEndsWithCr(a) && NoneEndsWithCr(b)
  {
    hide EndsWithCr;
    if NoneEndsWithCr(a + b) {
      assert forall i :: 0 <= i < |a| ==> a[i] == (a + b)[i];
      assert forall i :: 0 <= i < |b| ==> b[i] == (a + b)[|a| + i];
    }
  }

  lemma NoneInSection(index: nat, body: seq<string>)
    requires index < 4
    ensures NoneEndsWithCr(Section(index, body)) <==> NoneEndsWithCr(body)
  {
    hide HeadingLine;
    HeadingHasNoCr(index);
    NoneConcat([HeadingLine(index)], body);
    assert NoneEndsWithCr([HeadingLine(index)]);
  }

  lemma NoneInLayout(bodies: seq<seq<string>>)
    requires |bodies| == 4
    ensures NoneEndsWithCr(Layout(bodies)) <==>
              && NoneEndsWithCr(Shown(bodies[0])) && NoneEndsWithCr(Shown(bodies[1]))
              && NoneEndsWithCr(Shown(bodies[2])) && NoneEndsWithCr(Shown(bodies[3]))
  {
    hide NoneEndsWithCr, Section, Shown;
    var b0, b1, b2, b3 := Shown(bodies[0]), Shown(bodies[1]), Shown(bodies[2]), Shown(bodies[3]);
    NoneInSection(0, b0);
    NoneInSection(1, b1);
    NoneInSection(2, b2);
    NoneInSection(3, b3);
    NoneConcat(Section(0, b0), Section(1, b1));
    NoneConcat(Section(0, b0) + Section(1, b1), Section(2, b2));
    NoneConcat(Section(0, b0) + Section(1, b1) + Section(2, b2), Section(3, b3));
  }

  /** With a newline at the end and no CRLF, no line ends in a CR. */
  lemma {:induction false} NewlineNoCrs(s: string)
    requires !HasCrLf(s) && (s == "" || EndsWithNewline(s))
    ensures Crs(Lines(s)) == 0 && FinalCrs(Split(s)[0]) == 0
    ensures Split(s)[0] == "" ==> s == "" || s[0] == '\n'
  {
    hide FinalCrs;
    EmptyHasNoCr();
    if s == "" {
      CrsOne("");
      assert Lines("") == [""];
    } else {
      var tail := s[1..];
      TailNoCrLf(s);
      NewlineNoCrs(tail);
      var raw, lines := Split(tail)[0], Lines(tail);
      if s[0] == '\n' {
        assert Lines(s) == [""] + lines && Lines(s)[1..] == lines;
      } else {
        assert Lines(s) == [StripCr([s[0]] + raw)] + lines[1..];
        assert Lines(s)[1..] == lines[1..] && lines[0] == StripCr(raw);
        LonelyCr(s[0], raw);
      }
    }
  }

  lemma TailNoCrLf(s: string)
    requires !HasCrLf(s) && EndsWithNewline(s)
    ensures !HasCrLf(s[1..]) && (s[1..] == "" || EndsWithNewline(s[1..]))
    ensures s[0] == '\r' ==> |s| > 1 && s[1] != '\n'
    ensures s[1..] == "" ==> s[0] == '\n'
  {
    var tail := s[1..];
    assert forall i :: 0 <= i < |tail| ==> tail[i] == s[i + 1];
  }

  lemma LonelyCr(c: char, raw: string)
    requires FinalCrs(raw) == 0 && (raw == "" ==> c != '\r')
    ensures StripCr([c] + raw) == [c] + raw && FinalCrs([c] + raw) == 0
  {
    var line := [c] + raw;
    assert line[|line| - 1] == if raw == "" then c else raw[|raw| - 1];
  }

  predicate GoodBody(lines: seq<string>) {
    AllClean(lines) && forall i :: 0 <= i < |lines| ==> Classify(lines[i]) == Plain
  }

  predicate GoodBodies(bodies: seq<seq<string>>) { forall i :: 0 <= i < |bodies| ==> GoodBody(bodies[i]) }

  lemma HashTitle(name: string)
    requires name != "" && !IsWhitespace(name[0]) && !IsWhitespace(name[|name| - 1]) && name[|name| - 1] != ':'
    ensures Trim("## " + name) == "## " + name && HashHeading("## " + name) == CanonicalName(name)
  {
    var heading, rest := "## " + name, " " + name;
    TrimNormal(heading);
    TrimNormal(name);
    assert heading[1..][1..] == rest && rest[1..] == name;
    assert TrimHashes(heading) == TrimHashes(heading[1..]) == TrimHashes(rest) == rest;
    assert Trim(rest) == Trim(name) by { assert TrimStart(rest) == TrimStart(name); }
    assert TrimColons(name) == name;
  }

  lemma NameFacts(i: nat)
    requires i < 4
    ensures CanonicalName(NAMES[i]) == Some(i) && Clean(NAMES[i])
    ensures var name := NAMES[i];
            name != "" && !IsWhitespace(name[0]) && !IsWhitespace(name[|name| - 1]) && name[|name| - 1] != ':'
  {
    if i == 0 {
      assert NAMES[i] == "Translation";
    } else if i == 1 {
      assert NAMES[i] == "Idioms and Grammar";
    } else if i == 2 {
      assert NAMES[i] == "Other Forms";
    } else {
      assert NAMES[i] == "Reasoning";
    }
  }

  lemma HeadingClassified(i: nat)
    requires i < 4
    ensures Classify(HeadingLine(i)) == Heading(i) && Clean(HeadingLine(i)) && Trim(HeadingLine(i)) == HeadingLine(i)
  {
    NameFacts(i);
    HashTitle(NAMES[i]);
  }

  lemma FixedLines()
    ensures Classify("None") == Plain && Clean("None") && !Blank("None")
    ensures Classify("") == Plain
  {
    TrimNormal("None");
  }

  lemma FieldValueIsSlice(line: string)
    requires Classify(line).Field? && Clean(line)
    ensures Clean(Classify(line).value)
  {
    hide FieldAt, HashHeading, BoldHeading;
    var trimmed := Trim(line);
    var lo, hi := TrimSlice(line);
    CleanSlice(line, lo, hi);
    var field := if trimmed != "" && trimmed[0] == '-' then TrimStart(trimmed[1..]) else trimmed;
    if trimmed != "" {
      CleanRest(trimmed);
    }
    FieldAtSlice(field, 0);
  }

  lemma CleanSlice(line: string, lo: nat, hi: nat)
    requires Clean(line) && lo <= hi <= |line|
    ensures Clean(line[lo..hi])
  {
  }

  lemma CleanRest(line: string)
    requires Clean(line) && line != ""
    ensures Clean(TrimStart(line[1..]))
  {
    TrimStartSuffix(line[1..]);
  }

  lemma {:induction false} FieldAtSlice(field: string, index: nat)
    requires index < 4 && Clean(field)
    ensures FieldAt(field, index).Field? ==> Clean(FieldAt(field, index).value)
    decreases 4 - index
  {
    if NAMES[index] + ":" <= field {
      var value := field[|NAMES[index]| + 1..];
      var lo, hi := TrimSlice(value);
      assert Trim(value) == field[|NAMES[index]| + 1 + lo..|NAMES[index]| + 1 + hi];
    } else if index < 3 {
      FieldAtSlice(field, index + 1);
    }
  }

  lemma {:induction false} ParsedBodiesGood(p: Parsed, lines: seq<string>)
    requires Shaped(p) && GoodBodies(p.sections) && GoodBody(p.preamble)
    requires AllClean(lines) && TameLines(lines)
    ensures var q := AddLines(p, lines); GoodBodies(q.sections) && GoodBody(q.preamble)
    decreases |lines|
  {
    if lines != [] {
      if Classify(lines[0]).Field? {
        FieldValueIsSlice(lines[0]);
      }
      ParsedBodiesGood(AddLine(p, lines[0]), lines[1..]);
    }
  }

  lemma BodiesGood(response: string)
    requires Tame(response)
    ensures GoodBodies(BodiesOf(response))
  {
    hide Classify, AddLines, Lines, Clean, TameLines;
    LinesAreClean(response);
    ParsedBodiesGood(NOTHING, Lines(response));
  }

  lemma {:induction false} AddLinesConcat(p: Parsed, a: seq<string>, b: seq<string>)
    requires Shaped(p)
    ensures AddLines(p, a + b) == AddLines(AddLines(p, a), b)
    decreases |a|
  {
    if a == [] {
      assert a + b == b;
    } else {
      assert (a + b)[1..] == a[1..] + b;
      AddLinesConcat(AddLine(p, a[0]), a[1..], b);
    }
  }

  lemma {:induction false} AddPlain(p: Parsed, body: seq<string>)
    requires Shaped(p) && p.current.Some? && GoodBody(body)
    ensures AddLines(p, body)
         == p.(sections := p.sections[p.current.value := p.sections[p.current.value] + body])
    decreases |body|
  {
    hide Classify, Clean;
    var i := p.current.value;
    if body == [] {
      assert p.sections[i] + body == p.sections[i];
      assert p.sections[i := p.sections[i]] == p.sections;
    } else {
      var line := body[0];
      assert Classify(line) == Plain;
      var q := p.(sections := Append(p.sections, i, line));
      assert AddLine(p, line) == q;
      assert GoodBody(body[1..]);
      AddPlain(q, body[1..]);
      assert q.sections[i] + body[1..] == p.sections[i] + body;
      assert q.sections[i := p.sections[i] + body] == p.sections[i := p.sections[i] + body];
    }
  }

  /** One heading and its plain body fill one section. */
  lemma AddSection(p: Parsed, index: nat, body: seq<string>)
    requires Shaped(p) && index < 4 && p.sections[index] == [] && GoodBody(body)
    ensures AddLines(p, Section(index, body))
         == p.(current := Some(index), sections := p.sections[index := body])
  {
    HeadingClassified(index);
    assert Section(index, body)[0] == HeadingLine(index) && Section(index, body)[1..] == body;
    hide Classify, GoodBody, HeadingLine;
    var q := p.(current := Some(index));
    assert AddLine(p, HeadingLine(index)) == q;
    AddPlain(q, body);
    assert [] + body == body;
  }

  ghost function AllShown(bodies: seq<seq<string>>): seq<seq<string>>
    requires |bodies| == 4
  {
    [Shown(bodies[0]), Shown(bodies[1]), Shown(bodies[2]), Shown(bodies[3])]
  }

  lemma ShownGood(body: seq<string>)
    requires GoodBody(body)
    ensures GoodBody(Shown(body)) && Shown(body) != [] && Shown(Shown(body)) == Shown(body)
  {
    FixedLines();
  }

  lemma LayoutParses(bodies: seq<seq<string>>)
    requires |bodies| == 4 && GoodBodies(bodies)
    ensures AddLines(NOTHING, Layout(bodies)) == Parsed(AllShown(bodies), [], Some(3))
  {
    forall i | 0 <= i < 4 ensures GoodBody(Shown(bodies[i])) {
      ShownGood(bodies[i]);
    }
    SectionsParse(Shown(bodies[0]), Shown(bodies[1]), Shown(bodies[2]), Shown(bodies[3]));
  }

  lemma SectionsParse(b0: seq<string>, b1: seq<string>, b2: seq<string>, b3: seq<string>)
    requires GoodBody(b0) && GoodBody(b1) && GoodBody(b2) && GoodBody(b3)
    ensures AddLines(NOTHING, Section(0, b0) + Section(1, b1) + Section(2, b2) + Section(3, b3))
         == Parsed([b0, b1, b2, b3], [], Some(3))
  {
    FirstSections(b0, b1);
    var two := Section(0, b0) + Section(1, b1);
    NextSection(NOTHING, two, Parsed([b0, b1, [], []], [], Some(1)), 2, b2);
    assert [b0, b1, [], []][2 := b2] == [b0, b1, b2, []];
    NextSection(NOTHING, two + Section(2, b2), Parsed([b0, b1, b2, []], [], Some(2)), 3, b3);
    assert [b0, b1, b2, []][3 := b3] == [b0, b1, b2, b3];
  }

  lemma FirstSections(b0: seq<string>, b1: seq<string>)
    requires GoodBody(b0) && GoodBody(b1)
    ensures AddLines(NOTHING, Section(0, b0) + Section(1, b1)) == Parsed([b0, b1, [], []], [], Some(1))
  {
    hide Classify, GoodBody, Section, AddLines;
    AddSection(NOTHING, 0, b0);
    assert [[], [], [], []][0 := b0] == [b0, [], [], []];
    NextSection(NOTHING, Section(0, b0), Parsed([b0, [], [], []], [], Some(0)), 1, b1);
    assert [b0, [], [], []][1 := b1] == [b0, b1, [], []];
  }

  lemma NextSection(p: Parsed, before: seq<string>, q: Parsed, index: nat, body: seq<string>)
    requires Shaped(p) && AddLines(p, before) == q && Shaped(q)
    requires index < 4 && q.sections[index] == [] && GoodBody(body)
    ensures AddLines(p, before + Section(index, body))
         == q.(current := Some(index), sections := q.sections[index := body])
  {
    AddLinesConcat(p, before, Section(index, body));
    AddSection(q, index, body);
  }

  lemma CleanConcat(a: seq<string>, b: seq<string>)
    requires AllClean(a) && AllClean(b)
    ensures AllClean(a + b)
  {
  }

  lemma LayoutClean(bodies: seq<seq<string>>)
    requires |bodies| == 4 && GoodBodies(bodies)
    ensures AllClean(Layout(bodies)) && |Layout(bodies)| >= 8
    ensures Layout(bodies)[|Layout(bodies)| - 1] == Shown(bodies[3])[|Shown(bodies[3])| - 1]
    ensures Layout(AllShown(bodies)) == Layout(bodies)
  {
    forall i | 0 <= i < 4
      ensures GoodBody(Shown(bodies[i])) && Shown(bodies[i]) != [] && Shown(Shown(bodies[i])) == Shown(bodies[i])
      ensures AllClean(Section(i, Shown(bodies[i])))
    {
      ShownGood(bodies[i]);
      HeadingClassified(i);
    }
    var s0, s1 := Section(0, Shown(bodies[0])), Section(1, Shown(bodies[1]));
    var s2, s3 := Section(2, Shown(bodies[2])), Section(3, Shown(bodies[3]));
    CleanConcat(s0, s1);
    CleanConcat(s0 + s1, s2);
    CleanConcat(s0 + s1 + s2, s3);
  }

  // ----------------------------------------------------------- main results

  /** A line without the CRs at its end. */
  function Bare(line: string): string { if EndsWithCr(line) then Bare(StripCr(line)) else line }

  /** The non-blank lines of a body, in order. */
  function Content(lines: seq<string>): seq<string>
    decreases |lines|
  {
    if lines == [] then [] else ContentOf(lines[0]) + Content(lines[1..])
  }

  function ContentOf(line: string): seq<string> { if Blank(line) then [] else [Bare(line)] }

  /** What a reader of the output should find under a heading. */
  function Offered(body: seq<string>): seq<string> { if Content(body) == [] then ["None"] else Content(body) }

  lemma {:induction false} ContentConcat(a: seq<string>, b: seq<string>)
    ensures Content(a + b) == Content(a) + Content(b)
    decreases |a|
  {
    hide ContentOf;
    if a == [] {
      assert a + b == b;
    } else {
      assert (a + b)[1..] == a[1..] + b && (a + b)[0] == a[0];
      ContentConcat(a[1..], b);
    }
  }

  lemma ContentOne(line: string)
    ensures Content([line]) == ContentOf(line)
  {
    hide ContentOf;
    assert [line][1..] == [];
  }

  lemma {:induction false} ContentOfBlank(lines: seq<string>)
    ensures Content(lines) == [] <==> AllBlank(lines)
    decreases |lines|
  {
    hide Blank;
    if lines != [] {
      ContentOfBlank(lines[1..]);
    }
  }

  lemma DroppedContent(lines: seq<string>)
    ensures Content(DropLastEmpty(lines)) == Content(lines)
  {
    hide ContentOf;
    if lines != [] && lines[|lines| - 1] == "" {
      var init := lines[..|lines| - 1];
      assert lines == init + [""];
      ContentConcat(init, [""]);
      ContentOne("");
      EmptyContent();
      assert Content(init) + [] == Content(init);
    }
  }

  lemma EmptyContent()
    ensures ContentOf("") == [] && ContentOf("None") == ["None"]
  {
    FixedLines();
    TrimNormal("");
  }

  lemma ShownContent(body: seq<string>)
    ensures Content(Shown(body)) == Offered(body)
  {
    hide Content, ContentOf;
    ContentOfBlank(body);
    ContentOne("None");
    EmptyContent();
  }

  /** The lines of the output: the layout, and the terminal newline's empty item. */
  function OutputLines(response: string): seq<string> {
    Layout(BodiesOf(response)) + (if EndsWithNewline(response) then [""] else [])
  }

  lemma OutputSplits(response: string)
    requires Tame(response) && CrSafe(response)
    ensures var output := NormalizeTerminalResponse(LINGUIST, response);
            && Lines(output) == OutputLines(response)
            && Separator(output) == Separator(response)
            && (EndsWithNewline(output) <==> OutputLines(response)[|OutputLines(response)| - 1] == "")
            && output == Join(OutputLines(response), Separator(response))
  {
    hide Classify, Section, Layout, Shown, Join, GoodBody, Lines, BodiesOf, Tame, GoodBodies, CrSafe;
    CrSafeIs(response);
    BodiesGood(response);
    var bodies := BodiesOf(response);
    var layout, lines, separator := Layout(bodies), OutputLines(response), Separator(response);
    LayoutClean(bodies);
    CleanConcat(layout, [""]);
    JoinSnocEmpty(layout, separator);
    assert layout + [] == layout;
    assert Join(layout, separator) + "" == Join(layout, separator);
    var output := Join(lines, separator);
    assert output == NormalizeTerminalResponse(LINGUIST, response);
    LinesOfJoin(lines, separator);
    StrippedFramed(lines, separator);
    JoinEnding(lines, separator);
    if separator == "\n" {
      JoinHasNoCrLf(lines);
    } else {
      JoinHasCrLf(lines);
    }
  }

  lemma ParseWithEmptyItem(bodies: seq<seq<string>>)
    requires |bodies| == 4 && GoodBodies(bodies)
    ensures Bodies(AddLines(NOTHING, Layout(bodies) + [""]), true) == AllShown(bodies)
  {
    var shown := AllShown(bodies);
    LayoutParses(bodies);
    AddLinesConcat(NOTHING, Layout(bodies), [""]);
    FixedLines();
    var parsed := Parsed(shown, [], Some(3));
    var more := Parsed(shown[3 := shown[3] + [""]], [], Some(3));
    assert [""][1..] == [];
    assert AddLines(parsed, [""]) == AddLine(parsed, "") == more;
    assert DropLastEmpty(shown[3] + [""]) == shown[3];
    assert more.sections[3 := shown[3]] == shown;
    assert [] + shown[0] == shown[0] && shown[0 := shown[0]] == shown;
  }

  lemma ParseWithoutItem(bodies: seq<seq<string>>, trailing: bool)
    requires |bodies| == 4 && GoodBodies(bodies)
    ensures Bodies(AddLines(NOTHING, Layout(bodies)), trailing)
         == if trailing then AllShown(bodies)[3 := DropLastEmpty(Shown(bodies[3]))] else AllShown(bodies)
  {
    var shown := AllShown(bodies);
    LayoutParses(bodies);
    assert [] + shown[0] == shown[0] && shown[0 := shown[0]] == shown;
    var dropped := shown[3 := DropLastEmpty(shown[3])];
    assert dropped[0 := [] + dropped[0]] == dropped;
  }

  lemma ParseOutput(bodies: seq<seq<string>>, trailing: bool, lines: seq<string>, ends: bool)
    requires |bodies| == 4 && GoodBodies(bodies)
    requires lines == Layout(bodies) + (if trailing then [""] else [])
    requires ends <==> lines[|lines| - 1] == ""
    ensures Bodies(AddLines(NOTHING, lines), ends) == ShownAgain(bodies, trailing)
  {
    hide Classify, Section, Layout, Shown, GoodBody, AllClean, AddLines, Bodies;
    if trailing {
      ParseWithEmptyItem(bodies);
    } else {
      assert lines == Layout(bodies);
      LayoutClean(bodies);
      ParseWithoutItem(bodies, ends);
      if !ends {
        assert AllShown(bodies)[3 := Shown(bodies[3])] == AllShown(bodies);
      }
    }
  }

  /** The second parse finds the four shown bodies again; only a final empty line
      of the last one may be read as the terminal newline. */
  lemma BodiesAgain(response: string)
    requires Tame(response) && CrSafe(response)
    ensures BodiesOf(NormalizeTerminalResponse(LINGUIST, response))
         == ShownAgain(BodiesOf(response), EndsWithNewline(response))
  {
    var bodies := BodiesOf(response);
    var output := NormalizeTerminalResponse(LINGUIST, response);
    BodiesGood(response);
    OutputSplits(response);
    ParseOutput(bodies, EndsWithNewline(response), Lines(output), EndsWithNewline(output));
  }

  ghost function ShownAgain(bodies: seq<seq<string>>, trailing: bool): (r: seq<seq<string>>)
    requires |bodies| == 4
    ensures |r| == 4
  {
    var shown := AllShown(bodies);
    if trailing then shown else shown[3 := DropLastEmpty(shown[3])]
  }

  lemma DroppedShown(body: seq<string>)
    ensures Shown(DropLastEmpty(Shown(body))) == DropLastEmpty(Shown(body))
    ensures DropLastEmpty(Shown(body)) != []
  {
    FixedLines();
    hide Blank, Classify;
    DroppedContent(body);
    ContentOfBlank(body);
    ContentOfBlank(DropLastEmpty(body));
  }

  /** The heading and field lines, in order. */
  function Marks(lines: seq<string>): seq<Class>
    decreases |lines|
  {
    if lines == [] then [] else MarkOf(lines[0]) + Marks(lines[1..])
  }

  function MarkOf(line: string): seq<Class> { if Classify(line) == Plain then [] else [Classify(line)] }

  /** The output has the four headings once each, in order, and no other line that
      classifies, exactly if no field value is itself a heading or a field. */
  lemma OutputMarks(response: string)
    ensures Marks(Lines(NormalizeTerminalResponse(LINGUIST, response))) == [Heading(0), Heading(1), Heading(2), Heading(3)]
       <==> Tame(response)
  {
    hide Marks, Weight, Passed, Lines, OutputLines, BodiesOf, Classify, NormalizeTerminalResponse, BodiesWeight, Layout,
         TameLines, Shown, Stripped, AllClean, Join, HasCrLf;
    var lines, bodies := OutputLines(response), BodiesOf(response);
    OutputLinesAre(response);
    StrippedMarks(lines, Separator(response));
    LayoutMarks(response);
    LayoutWeight(bodies);
    BodiesOfWeight(response);
    TameWeighsNothing(Lines(response));
    BodiesMarks(bodies);
    FourMarks(Marks(Shown(bodies[0])), Marks(Shown(bodies[1])), Marks(Shown(bodies[2])), Marks(Shown(bodies[3])));
    assert BodiesWeight(bodies) == 0 <==>
           Marks(Shown(bodies[0])) == [] && Marks(Shown(bodies[1])) == [] &&
           Marks(Shown(bodies[2])) == [] && Marks(Shown(bodies[3])) == [];
  }

  lemma FourMarks(m0: seq<Class>, m1: seq<Class>, m2: seq<Class>, m3: seq<Class>)
    ensures var all := [Heading(0)] + m0 + [Heading(1)] + m1 + [Heading(2)] + m2 + [Heading(3)] + m3;
            all == [Heading(0), Heading(1), Heading(2), Heading(3)] <==> m0 == [] && m1 == [] && m2 == [] && m3 == []
  {
    var all := [Heading(0)] + m0 + [Heading(1)] + m1 + [Heading(2)] + m2 + [Heading(3)] + m3;
    assert |all| == 4 + |m0| + |m1| + |m2| + |m3|;
  }

  lemma BodiesMarks(bodies: seq<seq<string>>)
    requires |bodies| == 4
    ensures BodiesWeight(bodies) == 0 <==> forall i :: 0 <= i < 4 ==> Marks(Shown(bodies[i])) == []
  {
    hide Marks, Weight, Shown;
    forall i | 0 <= i < 4 ensures Marks(Shown(bodies[i])) == [] <==> Weight(bodies[i]) == 0 {
      ShownWeight(bodies[i]);
      NoMarks(Shown(bodies[i]));
    }
  }

  lemma LayoutMarks(response: string)
    ensures var b := BodiesOf(response);
            Marks(OutputLines(response)) ==
            [Heading(0)] + Marks(Shown(b[0])) + [Heading(1)] + Marks(Shown(b[1])) +
            [Heading(2)] + Marks(Shown(b[2])) + [Heading(3)] + Marks(Shown(b[3]))
  {
    hide Marks, Shown, HeadingLine, Classify, BodiesOf, Section;
    var b, layout := BodiesOf(response), Layout(BodiesOf(response));
    var b0, b1, b2, b3 := Shown(b[0]), Shown(b[1]), Shown(b[2]), Shown(b[3]);
    SectionMarks(0, b0);
    SectionMarks(1, b1);
    SectionMarks(2, b2);
    SectionMarks(3, b3);
    MarksConcat(Section(0, b0), Section(1, b1));
    MarksConcat(Section(0, b0) + Section(1, b1), Section(2, b2));
    MarksConcat(Section(0, b0) + Section(1, b1) + Section(2, b2), Section(3, b3));
    NoMarkAtEnd(layout);
    assert layout + [] == layout;
  }

  lemma NoMarkAtEnd(layout: seq<string>)
    ensures Marks(layout + [""]) == Marks(layout)
  {
    FixedLines();
    MarksConcat(layout, [""]);
    assert [""][1..] == [];
  }

  lemma SectionMarks(index: nat, body: seq<string>)
    requires index < 4
    ensures Marks(Section(index, body)) == [Heading(index)] + Marks(body)
  {
    HeadingClassified(index);
    assert Section(index, body)[1..] == body;
  }

  lemma {:induction false} MarksConcat(a: seq<string>, b: seq<string>)
    ensures Marks(a + b) == Marks(a) + Marks(b)
    decreases |a|
  {
    hide MarkOf;
    if a == [] {
      assert a + b == b;
    } else {
      assert (a + b)[1..] == a[1..] + b && (a + b)[0] == a[0];
      MarksConcat(a[1..], b);
    }
  }

  lemma {:induction false} NoMarks(lines: seq<string>)
    ensures Marks(lines) == [] <==> Weight(lines) == 0
    decreases |lines|
  {
    hide Classify;
    if lines != [] {
      LineLoses(lines[0]);
      NoMarks(lines[1..]);
    }
  }

  lemma {:induction false} StrippedMarks(lines: seq<string>, separator: string)
    requires lines != []
    ensures Marks(Stripped(lines, separator)) == Marks(lines)
    decreases |lines|
  {
    hide Classify, StripCr;
    SameClass(lines[0]);
    if |lines| > 1 {
      StrippedMarks(lines[1..], separator);
      var first := if separator == "\n" then StripCr(lines[0]) else lines[0];
      assert Stripped(lines, separator)[1..] == Stripped(lines[1..], separator);
      assert Classify(first) == Classify(lines[0]);
    } else {
      assert [StripCr(lines[0])][1..] == [] == lines[1..];
    }
  }

  lemma SameClass(line: string)
    ensures Classify(StripCr(line)) == Classify(line)
  {
    if EndsWithCr(line) {
      TrimWithout(line);
    }
  }

  lemma {:induction false} TrimWithout(line: string)
    requires EndsWithCr(line)
    ensures Trim(StripCr(line)) == Trim(line)
  {
    if !IsWhitespace(line[0]) {
      assert TrimStart(line) == line && TrimStart(StripCr(line)) == StripCr(line);
    } else if |line| > 1 {
      assert StripCr(line)[1..] == StripCr(line[1..]);
      TrimWithout(line[1..]);
    } else {
      assert line[1..] == "" == StripCr(line);
    }
  }

  /** Read back, the output has under each heading the non-blank lines the response had
      there, in order, or "None": exactly if no field value is itself a heading or a
      field.  Lines are compared without the CRs at their ends. */
  lemma BodyLinesSurvive(response: string)
    ensures var again := BodiesOf(NormalizeTerminalResponse(LINGUIST, response));
            (forall i :: 0 <= i < 4 ==> Content(again[i]) == Offered(BodiesOf(response)[i])) <==> Tame(response)
  {
    hide Weight, BodiesOf, Content, Offered, NormalizeTerminalResponse, TameLines;
    var again := BodiesOf(NormalizeTerminalResponse(LINGUIST, response));
    if Tame(response) {
      TameContent(response);
    } else {
      LosesWeight(response);
      if forall i :: 0 <= i < 4 ==> Content(again[i]) == Offered(BodiesOf(response)[i]) {
        forall i | 0 <= i < 4 ensures Weight(again[i]) == Weight(BodiesOf(response)[i]) {
          ContentWeight(again[i]);
          OfferedWeight(BodiesOf(response)[i]);
        }
      }
    }
  }

  /** Two lines that differ at most in the CRs at their ends. */
  ghost predicate SameText(a: string, b: string) { Trim(a) == Trim(b) && Bare(a) == Bare(b) }

  ghost predicate SameParse(p: Parsed, q: Parsed)
    requires Shaped(p) && Shaped(q)
  {
    && p.current == q.current && Content(p.preamble) == Content(q.preamble)
    && forall i :: 0 <= i < 4 ==> Content(p.sections[i]) == Content(q.sections[i])
  }

  lemma SameTextClass(a: string, b: string)
    requires SameText(a, b)
    ensures Classify(a) == Classify(b) && ContentOf(a) == ContentOf(b)
  {
  }

  lemma SameLine(p: Parsed, q: Parsed, a: string, b: string)
    requires Shaped(p) && Shaped(q) && SameParse(p, q) && SameText(a, b)
    ensures SameParse(AddLine(p, a), AddLine(q, b))
  {
    SameTextClass(a, b);
    hide Classify, Content, ContentOf, SameText;
    ContentConcat(p.preamble, [a]);
    ContentConcat(q.preamble, [b]);
    ContentOne(a);
    ContentOne(b);
    if p.current.Some? {
      ContentConcat(p.sections[p.current.value], [a]);
      ContentConcat(q.sections[p.current.value], [b]);
    }
    var c := Classify(a);
    if c.Field? {
      ContentConcat(p.sections[c.index], [c.value]);
      ContentConcat(q.sections[c.index], [c.value]);
    }
  }

  lemma {:induction false} SameLines(p: Parsed, q: Parsed, a: seq<string>, b: seq<string>)
    requires Shaped(p) && Shaped(q) && SameParse(p, q)
    requires |a| == |b| && forall i :: 0 <= i < |a| ==> SameText(a[i], b[i])
    ensures SameParse(AddLines(p, a), AddLines(q, b))
    decreases |a|
  {
    hide AddLine, SameParse, SameText;
    if a != [] {
      SameLine(p, q, a[0], b[0]);
      SameLines(AddLine(p, a[0]), AddLine(q, b[0]), a[1..], b[1..]);
    }
  }

  lemma StripSame(line: string)
    ensures SameText(StripCr(line), line) && SameText(line, line)
  {
    if EndsWithCr(line) {
      TrimWithout(line);
    }
  }

  lemma {:induction false} StrippedSame(lines: seq<string>, separator: string)
    requires lines != []
    ensures forall i :: 0 <= i < |lines| ==> SameText(Stripped(lines, separator)[i], lines[i])
    decreases |lines|
  {
    hide SameText, StripCr;
    StripSame(lines[0]);
    if |lines| > 1 {
      StrippedSame(lines[1..], separator);
      var stripped := Stripped(lines, separator);
      assert stripped[1..] == Stripped(lines[1..], separator);
      forall i | 0 < i < |lines| ensures SameText(stripped[i], lines[i]) {
        assert stripped[i] == stripped[1..][i - 1] && lines[i] == lines[1..][i - 1];
      }
    }
  }

  lemma BodiesContent(p: Parsed, trailing: bool)
    requires Shaped(p)
    ensures var bodies := Bodies(p, trailing);
            && Content(bodies[0]) == Content(p.preamble) + Content(p.sections[0])
            && forall i :: 1 <= i < 4 ==> Content(bodies[i]) == Content(p.sections[i])
  {
    hide Content, DropLastEmpty;
    DroppedContent(p.preamble);
    if p.current.Some? {
      DroppedContent(p.sections[p.current.value]);
    }
    ContentConcat(p.preamble, p.sections[0]);
    ContentConcat(DropLastEmpty(p.preamble), p.sections[0]);
    ContentConcat(p.preamble, DropLastEmpty(p.sections[0]));
  }

  /** What the second parse of a tame response collects. */
  lemma OutputContent(response: string)
    requires Tame(response)
    ensures var p := AddLines(NOTHING, OutputLines(response));
            && Content(p.preamble) == []
            && forall i :: 0 <= i < 4 ==> Content(p.sections[i]) == Offered(BodiesOf(response)[i])
  {
    hide Classify, Content, Offered, GoodBodies, BodiesOf, Layout, TameLines, AddLines, AllShown;
    var b := BodiesOf(response);
    BodiesGood(response);
    LayoutParses(b);
    ParsedShown(b);
    NothingPasses(b);
    assert Layout(b) + [] == Layout(b);
    AddLinesConcat(NOTHING, Layout(b), [""]);
    EmptyLineParses(Parsed(AllShown(b), [], Some(3)));
  }

  lemma NothingPasses(b: seq<seq<string>>)
    requires |b| == 4
    ensures Shaped(Parsed(AllShown(b), [], Some(3)))
  {
  }

  lemma ParsedShown(b: seq<seq<string>>)
    requires |b| == 4
    ensures |AllShown(b)| == 4 && forall i :: 0 <= i < 4 ==> Content(AllShown(b)[i]) == Offered(b[i])
    ensures Content([]) == []
  {
    hide Content, Offered, Shown;
    ShownContent(b[0]);
    ShownContent(b[1]);
    ShownContent(b[2]);
    ShownContent(b[3]);
    NoContent();
  }

  /** The terminal newline's empty item adds no content. */
  lemma EmptyLineParses(p: Parsed)
    requires Shaped(p) && p.current == Some(3)
    ensures var q := AddLines(p, [""]);
            q.preamble == p.preamble && forall i :: 0 <= i < 4 ==> Content(q.sections[i]) == Content(p.sections[i])
  {
    hide Classify, Content;
    FixedLines();
    assert [""][1..] == [] && AddLines(p, [""]) == AddLine(p, "");
    ContentConcat(p.sections[3], [""]);
    ContentOne("");
    EmptyContent();
    assert Content(p.sections[3]) + [] == Content(p.sections[3]);
  }

  lemma NoContent()
    ensures Content([]) == []
  {
  }

  lemma TameContent(response: string)
    requires Tame(response)
    ensures var again := BodiesOf(NormalizeTerminalResponse(LINGUIST, response));
            forall i :: 0 <= i < 4 ==> Content(again[i]) == Offered(BodiesOf(response)[i])
  {
    hide Classify, Content, Offered, Layout, Stripped, Lines, Tame, SameText, AllClean, NormalizeTerminalResponse, AddLines,
         Bodies, OutputLines, Separator;
    var once := NormalizeTerminalResponse(LINGUIST, response);
    var lines := OutputLines(response);
    OutputLinesAre(response);
    var stripped := Stripped(lines, Separator(response));
    StrippedSame(lines, Separator(response));
    OutputContent(response);
    SameLines(NOTHING, NOTHING, stripped, lines);
    BodiesContent(AddLines(NOTHING, stripped), EndsWithNewline(once));
    var content := Content(AddLines(NOTHING, lines).sections[0]);
    assert [] + content == content;
  }

  lemma LosesWeight(response: string)
    requires !Tame(response)
    ensures BodiesWeight(BodiesOf(NormalizeTerminalResponse(LINGUIST, response))) < BodiesWeight(BodiesOf(response))
  {
    hide Weight, Passed, Lines, BodiesOf, NormalizeTerminalResponse, BodiesWeight, TameLines, OutputLines, Stripped;
    OutputLinesAre(response);
    PassedStripped(OutputLines(response), Separator(response));
    BodiesOfWeight(response);
    BodiesOfWeight(NormalizeTerminalResponse(LINGUIST, response));
    OutputWeight(response);
    TameWeighsNothing(Lines(response));
  }

  lemma {:induction false} PassedStripped(lines: seq<string>, separator: string)
    requires lines != []
    ensures Passed(Stripped(lines, separator)) == Passed(lines)
    decreases |lines|
  {
    hide LineWeight, Classify, StripCr;
    SameClass(lines[0]);
    if |lines| > 1 {
      PassedStripped(lines[1..], separator);
      assert Stripped(lines, separator)[1..] == Stripped(lines[1..], separator);
    } else {
      assert [StripCr(lines[0])][1..] == [] == lines[1..];
    }
  }

  lemma {:induction false} BareWeight(line: string)
    ensures Trim(Bare(line)) == Trim(line) && LineWeight(Bare(line)) == LineWeight(line)
    decreases |line|
  {
    if EndsWithCr(line) {
      TrimWithout(line);
      BareWeight(StripCr(line));
    }
  }

  lemma {:induction false} ContentWeight(body: seq<string>)
    ensures Weight(Content(body)) == Weight(body)
    decreases |body|
  {
    hide LineWeight, Bare;
    if body != [] {
      ContentWeight(body[1..]);
      WeightConcat(ContentOf(body[0]), Content(body[1..]));
      if Blank(body[0]) {
        BlankIsPlain(body[0]);
        PlainWeighsNothing(body[0]);
        assert ContentOf(body[0]) == [];
      } else {
        BareWeight(body[0]);
        WeightOne(Bare(body[0]));
      }
    }
  }

  lemma OfferedWeight(body: seq<string>)
    ensures Weight(Offered(body)) == Weight(body)
  {
    hide Content, LineWeight, Classify;
    ContentWeight(body);
    FixedLines();
    WeightOne("None");
    PlainWeighsNothing("None");
  }

  /** Normalizing twice is normalizing once: for every other profile always, and for
      the linguist profile exactly for the responses in which no field value is itself
      a heading or a field, and whose CRs are safe. */
  lemma NormalizeIdempotent(profileId: string, response: string)
    ensures var once := NormalizeTerminalResponse(profileId, response);
            NormalizeTerminalResponse(profileId, once) == once <==>
            profileId != LINGUIST || (Tame(response) && CrSafe(response))
  {
    hide Tame, CrSafe;
    if profileId == LINGUIST {
      hide NormalizeTerminalResponse;
      var once := NormalizeTerminalResponse(LINGUIST, response);
      if Tame(response) && CrSafe(response) {
        TameIsFixed(response);
      } else if NormalizeTerminalResponse(LINGUIST, once) == once {
        FixedIsTame(response);
      }
    }
  }

  lemma TameIsFixed(response: string)
    requires Tame(response) && CrSafe(response)
    ensures var once := NormalizeTerminalResponse(LINGUIST, response); NormalizeTerminalResponse(LINGUIST, once) == once
  {
    var once := NormalizeTerminalResponse(LINGUIST, response);
    var bodies := BodiesOf(response);
    BodiesGood(response);
    OutputSplits(response);
    BodiesAgain(response);
    RenderAgain(bodies, Separator(response), EndsWithNewline(response), EndsWithNewline(once));
  }

  lemma RenderAgain(bodies: seq<seq<string>>, separator: string, trailing: bool, ends: bool)
    requires |bodies| == 4 && GoodBodies(bodies)
    requires var lines := Layout(bodies) + (if trailing then [""] else []);
             |lines| > 0 && (ends <==> lines[|lines| - 1] == "")
    ensures Render(ShownAgain(bodies, trailing), separator, ends) == Render(bodies, separator, trailing)
  {
    hide Classify, Section, Layout, Shown, Join, GoodBody, AllClean;
    LayoutClean(bodies);
    if !trailing {
      ShownGood(bodies[3]);
      assert Layout(bodies) + [] == Layout(bodies);
      if ends {
        RenderDropped(bodies, separator);
      } else {
        assert ShownAgain(bodies, false) == AllShown(bodies);
      }
    }
  }

  lemma RenderDropped(bodies: seq<seq<string>>, separator: string)
    requires |bodies| == 4 && GoodBodies(bodies) && Shown(bodies[3]) != []
    requires Shown(bodies[3])[|Shown(bodies[3])| - 1] == ""
    ensures Render(ShownAgain(bodies, false), separator, true) == Render(bodies, separator, false)
  {
    var again := ShownAgain(bodies, false);
    LayoutShape(bodies, again);
    JoinSnocEmpty(Layout(again), separator);
    assert Render(bodies, separator, false) == Join(Layout(bodies), separator) + "" == Join(Layout(bodies), separator);
  }

  lemma LayoutShape(bodies: seq<seq<string>>, again: seq<seq<string>>)
    requires |bodies| == 4 && GoodBodies(bodies)
    requires again == AllShown(bodies)[3 := DropLastEmpty(Shown(bodies[3]))]
    ensures Shown(bodies[3])[|Shown(bodies[3])| - 1] == "" ==> Layout(again) + [""] == Layout(bodies)
  {
    hide Classify, Shown, GoodBody, HeadingLine;
    forall i | 0 <= i < 4 ensures Shown(bodies[i]) != [] && Shown(Shown(bodies[i])) == Shown(bodies[i]) {
      ShownGood(bodies[i]);
    }
    DroppedShown(bodies[3]);
    var last := Shown(bodies[3]);
    if last[|last| - 1] == "" {
      assert DropLastEmpty(last) + [""] == last;
      assert Section(3, DropLastEmpty(last)) + [""] == Section(3, last);
    }
  }

  // ----------------------------------- responses that are not a fixed point

  /** The lines that a parser does not take as they stand, by their lengths. */
  function Weight(lines: seq<string>): nat
    decreases |lines|
  {
    if lines == [] then 0 else LineWeight(lines[0]) + Weight(lines[1..])
  }

  function LineWeight(line: string): nat { if Classify(line) == Plain then 0 else |Trim(line)| }

  /** What is left of that weight in the values of the fields. */
  function Passed(lines: seq<string>): nat
    decreases |lines|
  {
    if lines == [] then 0 else LinePassed(lines[0]) + Passed(lines[1..])
  }

  function LinePassed(line: string): nat {
    var c := Classify(line);
    if c.Field? then LineWeight(c.value) else 0
  }

  lemma {:induction false} WeightConcat(a: seq<string>, b: seq<string>)
    ensures Weight(a + b) == Weight(a) + Weight(b) && Passed(a + b) == Passed(a) + Passed(b)
    decreases |a|
  {
    hide LineWeight, LinePassed;
    if a == [] {
      assert a + b == b;
    } else {
      assert (a + b)[1..] == a[1..] + b && (a + b)[0] == a[0];
      WeightConcat(a[1..], b);
    }
  }

  lemma WeightOne(line: string)
    ensures Weight([line]) == LineWeight(line) && Passed([line]) == LinePassed(line)
  {
    hide LineWeight, LinePassed;
    assert [line][1..] == [];
  }

  /** A field's value is shorter than its line. */
  lemma LineLoses(line: string)
    ensures LinePassed(line) <= LineWeight(line)
    ensures LineWeight(line) > 0 ==> LinePassed(line) < LineWeight(line)
    ensures Classify(line) != Plain ==> LineWeight(line) > 0
  {
    hide HashHeading, BoldHeading;
    var trimmed := Trim(line);
    var lo, hi := TrimSlice(line);
    var field := if trimmed != "" && trimmed[0] == '-' then TrimStart(trimmed[1..]) else trimmed;
    if trimmed != "" {
      TrimStartSuffix(trimmed[1..]);
    }
    if trimmed == "" {
      BlankIsPlain(line);
    }
    FieldAtShorter(field, 0);
    if FieldAt(field, 0).Field? {
      var from, to := TrimSlice(FieldAt(field, 0).value);
    }
  }

  lemma {:induction false} FieldAtShorter(field: string, index: nat)
    requires index < 4
    ensures FieldAt(field, index).Field? ==> |FieldAt(field, index).value| < |field|
    decreases 4 - index
  {
    if NAMES[index] + ":" <= field {
      var lo, hi := TrimSlice(field[|NAMES[index]| + 1..]);
    } else if index < 3 {
      FieldAtShorter(field, index + 1);
    }
  }

  lemma BlankIsPlain(line: string)
    requires Trim(line) == ""
    ensures Classify(line) == Plain
  {
    FixedLines();
    assert Classify("") == Plain;
    TrimNormal("");
  }

  lemma {:induction false} LinesLose(lines: seq<string>)
    ensures Passed(lines) <= Weight(lines) && (Weight(lines) > 0 ==> Passed(lines) < Weight(lines))
    decreases |lines|
  {
    hide LineWeight, LinePassed;
    if lines != [] {
      LineLoses(lines[0]);
      LinesLose(lines[1..]);
    }
  }

  lemma {:induction false} BlankWeighsNothing(lines: seq<string>)
    requires AllBlank(lines)
    ensures Weight(lines) == 0
    decreases |lines|
  {
    if lines != [] {
      BlankIsPlain(lines[0]);
      BlankWeighsNothing(lines[1..]);
    }
  }

  lemma ShownWeight(body: seq<string>)
    ensures Weight(Shown(body)) == Weight(body)
  {
    hide LineWeight, Classify;
    if AllBlank(body) {
      BlankWeighsNothing(body);
      FixedLines();
      WeightOne("None");
      PlainWeighsNothing("None");
    }
  }

  lemma PlainWeighsNothing(line: string)
    requires Classify(line) == Plain
    ensures LineWeight(line) == 0 && LinePassed(line) == 0
  {
  }

  function HeadingsWeight(): nat {
    |HeadingLine(0)| + |HeadingLine(1)| + |HeadingLine(2)| + |HeadingLine(3)|
  }

  function BodiesWeight(bodies: seq<seq<string>>): nat
    requires |bodies| == 4
  {
    Weight(bodies[0]) + Weight(bodies[1]) + Weight(bodies[2]) + Weight(bodies[3])
  }

  lemma SectionWeight(index: nat, body: seq<string>)
    requires index < 4
    ensures Weight(Section(index, body)) == |HeadingLine(index)| + Weight(body)
    ensures Passed(Section(index, body)) == Passed(body)
  {
    HeadingClassified(index);
    hide HeadingLine, Classify;
    WeightConcat([HeadingLine(index)], body);
    WeightOne(HeadingLine(index));
  }

  /** The weight of a layout is its headings and its bodies; a second pass keeps the
      headings and strictly less of the bodies, if they weigh anything. */
  lemma LayoutWeight(bodies: seq<seq<string>>)
    requires |bodies| == 4
    ensures Weight(Layout(bodies)) == HeadingsWeight() + BodiesWeight(bodies)
    ensures Passed(Layout(bodies)) <= BodiesWeight(bodies)
    ensures BodiesWeight(bodies) > 0 ==> Passed(Layout(bodies)) < BodiesWeight(bodies)
  {
    hide HeadingLine, Weight, Passed, Section, Shown;
    var b0, b1, b2, b3 := Shown(bodies[0]), Shown(bodies[1]), Shown(bodies[2]), Shown(bodies[3]);
    forall i | 0 <= i < 4
      ensures Weight(Shown(bodies[i])) == Weight(bodies[i])
      ensures Weight(Section(i, Shown(bodies[i]))) == |HeadingLine(i)| + Weight(bodies[i])
      ensures Passed(Section(i, Shown(bodies[i]))) == Passed(Shown(bodies[i])) <= Weight(bodies[i])
      ensures Weight(bodies[i]) > 0 ==> Passed(Section(i, Shown(bodies[i]))) < Weight(bodies[i])
    {
      ShownWeight(bodies[i]);
      SectionWeight(i, Shown(bodies[i]));
      LinesLose(Shown(bodies[i]));
    }
    WeightConcat(Section(0, b0), Section(1, b1));
    WeightConcat(Section(0, b0) + Section(1, b1), Section(2, b2));
    WeightConcat(Section(0, b0) + Section(1, b1) + Section(2, b2), Section(3, b3));
  }

  function ParsedWeight(p: Parsed): nat
    requires Shaped(p)
  {
    Weight(p.preamble) + BodiesWeight(p.sections)
  }

  lemma AppendWeight(sections: seq<seq<string>>, index: nat, line: string)
    requires |sections| == 4 && index < 4
    ensures BodiesWeight(Append(sections, index, line)) == BodiesWeight(sections) + LineWeight(line)
  {
    hide LineWeight, Weight;
    WeightConcat(sections[index], [line]);
    WeightOne(line);
  }

  lemma AddLineWeight(p: Parsed, line: string)
    requires Shaped(p)
    ensures ParsedWeight(AddLine(p, line)) == ParsedWeight(p) + LinePassed(line)
  {
    hide Weight, Append, BodiesWeight;
    var c := Classify(line);
    hide Classify;
    match c {
      case Heading(index) =>
      case Field(index, value) => AppendWeight(p.sections, index, value);
      case Plain =>
        if p.current.Some? {
          AppendWeight(p.sections, p.current.value, line);
        } else {
          WeightConcat(p.preamble, [line]);
          WeightOne(line);
        }
    }
  }

  /** What a parse collects weighs what the fields of its lines pass on. */
  lemma {:induction false} ParseWeight(p: Parsed, lines: seq<string>)
    requires Shaped(p)
    ensures ParsedWeight(AddLines(p, lines)) == ParsedWeight(p) + Passed(lines)
    decreases |lines|
  {
    hide AddLine, ParsedWeight, LinePassed;
    if lines != [] {
      AddLineWeight(p, lines[0]);
      ParseWeight(AddLine(p, lines[0]), lines[1..]);
    }
  }

  lemma DropWeight(lines: seq<string>)
    ensures Weight(DropLastEmpty(lines)) == Weight(lines)
  {
    hide Weight, LineWeight, Classify;
    if lines != [] && lines[|lines| - 1] == "" {
      assert lines == lines[..|lines| - 1] + [""];
      WeightConcat(lines[..|lines| - 1], [""]);
      FixedLines();
      PlainWeighsNothing("");
      WeightOne("");
    }
  }

  lemma BodiesOfWeight(response: string)
    ensures BodiesWeight(BodiesOf(response)) == Passed(Lines(response))
  {
    hide Weight, Passed, DropLastEmpty, AddLines, Lines;
    ParseWeight(NOTHING, Lines(response));
    NothingWeighsNothing();
    var p := AddLines(NOTHING, Lines(response));
    DropWeight(p.preamble);
    if p.current.Some? {
      DropWeight(p.sections[p.current.value]);
    }
    WeightConcat(p.preamble, p.sections[0]);
    WeightConcat(p.preamble, DropLastEmpty(p.sections[0]));
    WeightConcat(DropLastEmpty(p.preamble), p.sections[0]);
  }

  lemma NothingWeighsNothing()
    ensures ParsedWeight(NOTHING) == 0
  {
  }

  lemma {:induction false} ParsedClean(p: Parsed, lines: seq<string>)
    requires Shaped(p) && (forall i :: 0 <= i < 4 ==> AllClean(p.sections[i])) && AllClean(p.preamble) && AllClean(lines)
    ensures var q := AddLines(p, lines); (forall i :: 0 <= i < 4 ==> AllClean(q.sections[i])) && AllClean(q.preamble)
    decreases |lines|
  {
    hide Classify, Clean;
    if lines != [] {
      if Classify(lines[0]).Field? {
        FieldValueIsSlice(lines[0]);
      }
      ParsedClean(AddLine(p, lines[0]), lines[1..]);
    }
  }

  /** The lines of an output, and what the splitter makes of them. */
  lemma OutputLinesAre(response: string)
    ensures AllClean(OutputLines(response)) && |OutputLines(response)| > 1
    ensures var output := NormalizeTerminalResponse(LINGUIST, response);
            && output == Join(OutputLines(response), Separator(response))
            && Lines(output) == Stripped(OutputLines(response), Separator(response))
  {
    hide *;
    OutputIsJoin(response);
    OutputIsClean(response);
    SeparatorIs(response);
    LinesOfJoin(OutputLines(response), Separator(response));
  }

  lemma SeparatorIs(response: string)
    ensures Separator(response) == "\n" || Separator(response) == "\r\n"
  {
  }

  lemma OutputIsJoin(response: string)
    ensures OutputLines(response) != []
    ensures NormalizeTerminalResponse(LINGUIST, response) == Join(OutputLines(response), Separator(response))
  {
    hide Join, BodiesOf, HasCrLf, Layout;
    var layout, separator := Layout(BodiesOf(response)), Separator(response);
    LayoutEnds(BodiesOf(response));
    JoinSnocEmpty(layout, separator);
    assert layout + [] == layout && Join(layout, separator) + "" == Join(layout, separator);
  }

  lemma OutputIsClean(response: string)
    ensures AllClean(OutputLines(response)) && |OutputLines(response)| > 1
  {
    hide Clean, Layout, Lines, AddLines;
    LinesAreClean(response);
    EmptyIsClean();
    ParsedClean(NOTHING, Lines(response));
    BodiesAreClean(AddLines(NOTHING, Lines(response)), EndsWithNewline(response));
    LayoutIsClean(BodiesOf(response));
    CleanConcat(Layout(BodiesOf(response)), [""]);
  }

  lemma BodiesAreClean(p: Parsed, trailing: bool)
    requires Shaped(p) && (forall i :: 0 <= i < 4 ==> AllClean(p.sections[i])) && AllClean(p.preamble)
    ensures forall i :: 0 <= i < 4 ==> AllClean(Bodies(p, trailing)[i])
  {
    hide Clean;
  }

  lemma EmptyIsClean()
    ensures AllClean([""]) && AllClean(["None"])
  {
  }

  lemma LayoutIsClean(bodies: seq<seq<string>>)
    requires |bodies| == 4 && forall i :: 0 <= i < 4 ==> AllClean(bodies[i])
    ensures AllClean(Layout(bodies)) && |Layout(bodies)| > 1
  {
    hide Classify, Clean, HeadingLine;
    EmptyIsClean();
    forall i | 0 <= i < 4 ensures AllClean(Section(i, Shown(bodies[i]))) {
      HeadingClassified(i);
    }
    var s0, s1 := Section(0, Shown(bodies[0])), Section(1, Shown(bodies[1]));
    var s2, s3 := Section(2, Shown(bodies[2])), Section(3, Shown(bodies[3]));
    CleanConcat(s0, s1);
    CleanConcat(s0 + s1, s2);
    CleanConcat(s0 + s1 + s2, s3);
  }

  lemma OutputWeight(response: string)
    ensures Weight(OutputLines(response)) == HeadingsWeight() + Passed(Lines(response))
    ensures Passed(OutputLines(response)) <= Passed(Lines(response))
    ensures Passed(Lines(response)) > 0 ==> Passed(OutputLines(response)) < Passed(Lines(response))
  {
    hide Weight, Passed, Layout, BodiesOf, HeadingsWeight, BodiesWeight, Classify;
    var layout := Layout(BodiesOf(response));
    LayoutWeight(BodiesOf(response));
    BodiesOfWeight(response);
    FixedLines();
    PlainWeighsNothing("");
    WeightOne("");
    WeightConcat(layout, [""]);
    assert layout + [] == layout;
  }

  lemma {:induction false} TameWeighsNothing(lines: seq<string>)
    ensures TameLines(lines) <==> Passed(lines) == 0
    decreases |lines|
  {
    hide Classify, Passed;
    if i :| 0 <= i < |lines| && Classify(lines[i]).Field? && Classify(Classify(lines[i]).value) != Plain {
      WildPasses(lines, i);
    } else {
      TamePassesNothing(lines);
    }
  }

  lemma {:induction false} TamePassesNothing(lines: seq<string>)
    requires TameLines(lines)
    ensures Passed(lines) == 0
    decreases |lines|
  {
    hide Classify;
    if lines != [] {
      TamePassesNothing(lines[1..]);
    }
  }

  lemma {:induction false} WildPasses(lines: seq<string>, i: nat)
    requires i < |lines| && Classify(lines[i]).Field? && Classify(Classify(lines[i]).value) != Plain
    ensures Passed(lines) > 0
    decreases |lines|
  {
    hide Classify;
    if i == 0 {
      LineLoses(Classify(lines[0]).value);
    } else {
      WildPasses(lines[1..], i - 1);
    }
  }

  /** A response that is left alone by a second pass splits into the very lines that
      the first pass wrote, and a further pass over wild lines would make them lighter. */
  lemma FixedIsTame(response: string)
    requires var once := NormalizeTerminalResponse(LINGUIST, response); NormalizeTerminalResponse(LINGUIST, once) == once
    ensures Tame(response) && CrSafe(response)
  {
    hide Lines, Weight, Passed, OutputLines, NormalizeTerminalResponse, HeadingsWeight, Framed, TameLines, HasCrLf, Join,
         AllClean;
    var once := NormalizeTerminalResponse(LINGUIST, response);
    FixedIsSafe(once);
    CrSafeIs(once);
    CrSafeIs(response);
    SameSeparator(response);
    OutputLinesAre(response);
    OutputLinesAre(once);
    StrippedFramed(OutputLines(once), Separator(once));
    SameJoin(OutputLines(once), OutputLines(response), Separator(response));
    OutputWeight(response);
    OutputWeight(once);
    TameWeighsNothing(Lines(response));
  }

  lemma SameSeparator(response: string)
    requires var once := NormalizeTerminalResponse(LINGUIST, response); NormalizeTerminalResponse(LINGUIST, once) == once
    ensures Separator(NormalizeTerminalResponse(LINGUIST, response)) == Separator(response)
  {
    hide Shown, BodiesOf, HasCrLf, HeadingLine;
    var once := NormalizeTerminalResponse(LINGUIST, response);
    StartsWithSeparator(BodiesOf(response), Separator(response), EndsWithNewline(response));
    StartsWithSeparator(BodiesOf(once), Separator(once), EndsWithNewline(once));
  }

  /** A fixed point holds no CR that the splitter would take from an output line: the
      second pass would find one CR fewer at the ends of the lines. */
  lemma FixedIsSafe(text: string)
    requires NormalizeTerminalResponse(LINGUIST, text) == text
    ensures CrSafe(text)
  {
    hide Lines, OutputLines, NormalizeTerminalResponse, Crs, Stripped;
    CrSafeIs(text);
    OutputLinesAre(text);
    StrippedCrs(OutputLines(text), Separator(text));
    OutputCrs(text);
  }

  // ------------------------------------------------- CRs at the end of lines

  /** The CRs that lines end in. */
  function Crs(lines: seq<string>): nat
    decreases |lines|
  {
    if lines == [] then 0 else FinalCrs(lines[0]) + Crs(lines[1..])
  }

  function FinalCrs(line: string): nat {
    if EndsWithCr(line) then 1 + FinalCrs(line[..|line| - 1]) else 0
  }

  lemma {:induction false} StrippedCrs(lines: seq<string>, separator: string)
    requires lines != [] && (separator == "\n" || separator == "\r\n")
    ensures Crs(Stripped(lines, separator)) <= Crs(lines)
    ensures !Framed(lines, separator) ==> Crs(Stripped(lines, separator)) < Crs(lines)
    decreases |lines|
  {
    if |lines| > 1 {
      var tail := lines[1..];
      StrippedCrs(tail, separator);
      assert Stripped(lines, separator)[1..] == Stripped(tail, separator);
      if Framed(tail, separator) && !(separator == "\n" && EndsWithCr(lines[0])) {
        assert forall i :: 1 <= i < |lines| ==> lines[i] == tail[i - 1];
        assert Framed(lines, separator);
      }
    } else {
      assert [StripCr(lines[0])][1..] == [];
    }
  }

  lemma {:induction false} CrsConcat(a: seq<string>, b: seq<string>)
    ensures Crs(a + b) == Crs(a) + Crs(b)
    decreases |a|
  {
    hide FinalCrs;
    if a == [] {
      assert a + b == b;
    } else {
      assert (a + b)[1..] == a[1..] + b && (a + b)[0] == a[0];
      CrsConcat(a[1..], b);
    }
  }

  lemma CrsOne(line: string)
    ensures Crs([line]) == FinalCrs(line)
  {
    assert [line][1..] == [];
  }

  lemma ValueHasNoCr(line: string)
    ensures Classify(line).Field? ==> FinalCrs(Classify(line).value) == 0
  {
    hide HashHeading, BoldHeading;
    var trimmed := Trim(line);
    FieldHasNoCr(if trimmed != "" && trimmed[0] == '-' then TrimStart(trimmed[1..]) else trimmed, 0);
  }

  lemma {:induction false} FieldHasNoCr(field: string, index: nat)
    requires index < 4
    ensures FieldAt(field, index).Field? ==> FinalCrs(FieldAt(field, index).value) == 0
    decreases 4 - index
  {
    if NAMES[index] + ":" <= field {
      var lo, hi := TrimSlice(field[|NAMES[index]| + 1..]);
    } else if index < 3 {
      FieldHasNoCr(field, index + 1);
    }
  }

  function BodiesCrs(bodies: seq<seq<string>>): nat
    requires |bodies| == 4
  {
    Crs(bodies[0]) + Crs(bodies[1]) + Crs(bodies[2]) + Crs(bodies[3])
  }

  function ParsedCrs(p: Parsed): nat
    requires Shaped(p)
  {
    Crs(p.preamble) + BodiesCrs(p.sections)
  }

  lemma AppendCrs(sections: seq<seq<string>>, index: nat, line: string)
    requires |sections| == 4 && index < 4
    ensures BodiesCrs(Append(sections, index, line)) == BodiesCrs(sections) + FinalCrs(line)
  {
    hide FinalCrs, Crs;
    CrsConcat(sections[index], [line]);
    CrsOne(line);
  }

  lemma {:induction false} ParseCrs(p: Parsed, lines: seq<string>)
    requires Shaped(p)
    ensures ParsedCrs(AddLines(p, lines)) <= ParsedCrs(p) + Crs(lines)
    decreases |lines|
  {
    hide AddLine, ParsedCrs, FinalCrs;
    if lines != [] {
      AddLineCrs(p, lines[0]);
      ParseCrs(AddLine(p, lines[0]), lines[1..]);
    }
  }

  lemma AddLineCrs(p: Parsed, line: string)
    requires Shaped(p)
    ensures ParsedCrs(AddLine(p, line)) <= ParsedCrs(p) + FinalCrs(line)
  {
    hide Crs, Append, BodiesCrs, FinalCrs;
    var c := Classify(line);
    ValueHasNoCr(line);
    hide Classify;
    match c {
      case Heading(index) =>
      case Field(index, value) => AppendCrs(p.sections, index, value);
      case Plain =>
        if p.current.Some? {
          AppendCrs(p.sections, p.current.value, line);
        } else {
          CrsConcat(p.preamble, [line]);
          CrsOne(line);
        }
    }
  }

  lemma DropCrs(lines: seq<string>)
    ensures Crs(DropLastEmpty(lines)) == Crs(lines)
  {
    if lines != [] && lines[|lines| - 1] == "" {
      assert lines == lines[..|lines| - 1] + [""];
      CrsConcat(lines[..|lines| - 1], [""]);
      CrsOne("");
    }
  }

  lemma BodiesOfCrs(response: string)
    ensures BodiesCrs(BodiesOf(response)) <= Crs(Lines(response))
  {
    hide Crs, DropLastEmpty, AddLines, Lines;
    ParseCrs(NOTHING, Lines(response));
    NothingHasCrs();
    var p := AddLines(NOTHING, Lines(response));
    DropCrs(p.preamble);
    if p.current.Some? {
      DropCrs(p.sections[p.current.value]);
    }
    CrsConcat(p.preamble, p.sections[0]);
    CrsConcat(p.preamble, DropLastEmpty(p.sections[0]));
    CrsConcat(DropLastEmpty(p.preamble), p.sections[0]);
  }

  lemma NothingHasCrs()
    ensures ParsedCrs(NOTHING) == 0
  {
  }

  lemma SectionCrs(index: nat, body: seq<string>)
    requires index < 4
    ensures Crs(Section(index, Shown(body))) <= Crs(body)
  {
    hide Crs, HeadingLine;
    CrsConcat([HeadingLine(index)], Shown(body));
    HeadingHasNoCr(index);
    CrsOne(HeadingLine(index));
    CrsOne("None");
  }

  lemma HeadingHasNoCr(index: nat)
    requires index < 4
    ensures FinalCrs(HeadingLine(index)) == 0
  {
    NameFacts(index);
    var name, line := NAMES[index], HeadingLine(index);
    assert line[|line| - 1] == name[|name| - 1];
  }

  /** An output has at most the CRs at the ends of its lines that its response had. */
  lemma OutputCrs(response: string)
    ensures Crs(OutputLines(response)) <= Crs(Lines(response))
  {
    hide Crs, BodiesOf, Lines, Shown, Section;
    var b, layout := BodiesOf(response), Layout(BodiesOf(response));
    BodiesOfCrs(response);
    SectionCrs(0, b[0]);
    SectionCrs(1, b[1]);
    SectionCrs(2, b[2]);
    SectionCrs(3, b[3]);
    var s0, s1, s2, s3 := Section(0, Shown(b[0])), Section(1, Shown(b[1])), Section(2, Shown(b[2])), Section(3, Shown(b[3]));
    CrsConcat(s0, s1);
    CrsConcat(s0 + s1, s2);
    CrsConcat(s0 + s1 + s2, s3);
    CrsConcat(layout, [""]);
    CrsOne("");
    assert layout + [] == layout;
  }

  /** The CRs of a response are safe when each of them stands before a LF. */
  lemma CrBeforeLfIsSafe(response: string)
    requires CrOnlyBeforeLf(response)
    ensures CrSafe(response)
  {
    hide Lines, OutputLines, HasCrLf;
    NoFinalCrs(response);
    OutputCrs(response);
    NoCrsIsFramed(OutputLines(response), Separator(response));
    CrSafeIs(response);
  }

  lemma {:induction false} NoFinalCrs(s: string)
    requires CrOnlyBeforeLf(s)
    ensures Crs(Lines(s)) == 0
    ensures Split(s)[0] != "" ==> s != "" && s[0] != '\n'
  {
    hide FinalCrs;
    if s == "" {
      EmptyHasNoCr();
      CrsOne("");
      assert Lines("") == [""];
    } else {
      TailCrs(s);
      NoFinalCrs(s[1..]);
      var rest, lines := Split(s[1..]), Lines(s[1..]);
      EmptyHasNoCr();
      if s[0] == '\n' {
        assert Lines(s) == [""] + lines && Lines(s)[1..] == lines;
      } else {
        assert Lines(s) == [StripCr([s[0]] + rest[0])] + lines[1..];
        assert Lines(s)[1..] == lines[1..] && lines[0] == StripCr(rest[0]);
        FirstHasNoCr(s[0], rest[0]);
      }
    }
  }

  lemma TailCrs(s: string)
    requires CrOnlyBeforeLf(s) && s != ""
    ensures CrOnlyBeforeLf(s[1..]) && (s[0] == '\r' ==> |s| > 1 && s[1] == '\n')
  {
    var tail := s[1..];
    assert forall i :: 0 <= i < |tail| ==> tail[i] == s[i + 1];
  }

  lemma EmptyHasNoCr()
    ensures FinalCrs("") == 0
  {
  }

  lemma FirstHasNoCr(c: char, raw: string)
    requires FinalCrs(StripCr(raw)) == 0 && (raw != "" ==> c != '\r')
    ensures FinalCrs(StripCr([c] + raw)) == 0
  {
    var line := StripCr([c] + raw);
    if raw != "" {
      assert line == [c] + StripCr(raw);
      assert line[|line| - 1] == if StripCr(raw) == "" then c else StripCr(raw)[|StripCr(raw)| - 1];
    }
  }

  lemma {:induction false} NoCrsIsFramed(lines: seq<string>, separator: string)
    requires Crs(lines) == 0
    ensures Framed(lines, separator)
    decreases |lines|
  {
    if lines != [] {
      var tail := lines[1..];
      NoCrsIsFramed(tail, separator);
      forall i | 0 <= i < |lines| && EndsWithCr(lines[i]) ensures separator == "\r\n" && i + 1 < |lines| {
        assert i > 0 && lines[i] == tail[i - 1];
      }
    }
  }

  lemma StartsWithSeparator(bodies: seq<seq<string>>, separator: string, trailing: bool)
    requires |bodies| == 4 && separator != ""
    ensures var text := Render(bodies, separator, trailing);
            |text| > |HeadingLine(0)| && text[|HeadingLine(0)|] == separator[0]
  {
    hide Shown, HeadingLine;
    var layout := Layout(bodies);
    assert layout[0] == HeadingLine(0) && |layout| >= 4;
    assert Join(layout, separator) == HeadingLine(0) + separator + Join(layout[1..], separator);
  }

  /** A field line: the first name, a colon, a space and a trimmed value. */
  lemma FieldValue(value: string)
    requires value != "" && !IsWhitespace(value[0]) && !IsWhitespace(value[|value| - 1])
    ensures Classify(NAMES[0] + ":" + (" " + value)) == Field(0, value)
  {
    var prefix := NAMES[0] + ":";
    var response := prefix + (" " + value);
    NameFacts(0);
    assert response[0] == NAMES[0][0] == 'T';
    TrimNormal(response);
    TrimNormal(value);
    assert response[|prefix|..] == " " + value;
    assert TrimStart(" " + value) == TrimStart(value) by { assert (" " + value)[1..] == value; }
  }

  /** This value is itself a heading, so the second pass ends its section and puts
      "None" in its place. */
  lemma HeadingValueBreaksIdempotence()
    ensures var once := NormalizeTerminalResponse(LINGUIST, "Translation: ## Reasoning");
            NormalizeTerminalResponse(LINGUIST, once) != once
  {
    hide NormalizeTerminalResponse, Tame, CrSafe, Classify, Clean;
    var response := "Translation: ## Reasoning";
    SpelledOut();
    FieldValue(HeadingLine(3));
    HeadingClassified(3);
    OneLine(response);
    NormalizeIdempotent(LINGUIST, response);
  }

  /** A CR that only the end of the response strips comes to stand before a LF in the
      output, so the second pass writes CRLF everywhere. */
  lemma CrsAtTheEndBreakIdempotence()
    ensures var once := NormalizeTerminalResponse(LINGUIST, "a\r\r"); NormalizeTerminalResponse(LINGUIST, once) != once
  {
    hide NormalizeTerminalResponse, Tame, OutputLines, Classify;
    var response, line := "a\r\r", "a\r";
    assert StripCr(response) == response[..2] == line;
    PlainLetter();
    OnePlainLine(response, line);
    CrSafeIs(response);
    NormalizeIdempotent(LINGUIST, response);
  }

  /** A response of one plain line. */
  lemma OnePlainLine(response: string, line: string)
    requires Clean(response) && StripCr(response) == line && Classify(line) == Plain && !Blank(line)
    ensures |OutputLines(response)| > 1 && OutputLines(response)[1] == line
  {
    hide Classify, HeadingLine;
    SplitOne(response);
    assert StripAll([response]) == [line];
    PlainPreamble(line);
    assert !EndsWithNewline(response);
    assert BodiesOf(response)[0] == [line] + [] == [line];
    assert [line][0] == line && Shown([line]) == [line];
  }

  lemma PlainPreamble(line: string)
    requires Classify(line) == Plain
    ensures AddLines(NOTHING, [line]) == NOTHING.(preamble := [line])
  {
    assert AddLine(NOTHING, line) == NOTHING.(preamble := [] + [line]);
    assert [line][1..] == [];
  }

  lemma PlainLetter()
    ensures Classify("a\r") == Plain && Trim("a\r") == "a"
  {
    TrimNormal("a");
    TrimWithout("a\r");
    assert StripCr("a\r") == "a";
    SameClass("a\r");
  }

  lemma SpelledOut()
    ensures var value := HeadingLine(3);
            && "Translation: ## Reasoning" == NAMES[0] + ":" + (" " + value)
            && Clean("Translation: ## Reasoning")
            && value != "" && !IsWhitespace(value[0]) && !IsWhitespace(value[|value| - 1])
  {
    assert NAMES[3] == "Reasoning" && HeadingLine(3) == "## Reasoning";
  }

  lemma OneLine(response: string)
    requires Clean(response) && Classify(response).Field? && Classify(Classify(response).value) != Plain
    ensures !Tame(response)
  {
    hide Classify;
    SplitOne(response);
    SameClass(response);
    assert Lines(response)[0] == StripCr(response);
  }
}
