/** Prompt profiles: template validation, rendering, and their agreement. */
module Prompt {
  import opened Common
  import opened Normalize

  datatype Error =
    | EmptyId | InvalidId | EmptyName | EmptyTemplate | MissingTargetPlaceholder
    | UnknownPlaceholder(name: string) | MalformedPlaceholder
    | InvalidModel | InvalidTemperature | InvalidMaxOutputTokens
  datatype RenderError = InvalidProfile | MissingTarget

  datatype Values = Values(target: string, context: string, source: string)

  const TARGET := "target"
  const CONTEXT := "context"
  const SOURCE := "source"

  predicate IsPlaceholder(name: string) { name == TARGET || name == CONTEXT || name == SOURCE }

  function ValueOf(name: string, values: Values): string
    requires IsPlaceholder(name)
  {
    if name == TARGET then values.target else if name == CONTEXT then values.context else values.source
  }

  /** The first `c` from `i` on. */
  function Find(text: string, c: char, i: nat): (r: Option<nat>)
    requires i <= |text|
    ensures r.Some? ==> i <= r.value < |text| && text[r.value] == c
    ensures forall k :: i <= k < (if r.Some? then r.value else |text|) ==> text[k] != c
    decreases |text| - i
  {
    if i == |text| then None else if text[i] == c then Some(i) else Find(text, c, i + 1)
  }

  // ------------------------------------------------------- the two scanners

  /** Whether the template from `i` on is well formed, and names the target. */
  function Scan(template: string, i: nat, found: bool): Result<bool, Error>
    requires i <= |template|
    decreases |template| - i
  {
    if i == |template| then Ok(found)
    else if template[i] == '{' then
      var end := Find(template, '}', i + 1);
      if end.None? then Err(MalformedPlaceholder)
      else
        var name := template[i + 1..end.value];
        if !IsPlaceholder(name) then Err(UnknownPlaceholder(name))
        else Scan(template, end.value + 1, found || name == TARGET)
    else if template[i] == '}' then Err(MalformedPlaceholder)
    else Scan(template, i + 1, found)
  }

  function Validation(template: string, requireTarget: bool): Result<(), Error> {
    if template == "" then (if requireTarget then Err(EmptyTemplate) else Ok(()))
    else
      var found := Scan(template, 0, false);
      if found.Err? then Err(found.error)
      else if requireTarget && !found.value then Err(MissingTargetPlaceholder)
      else Ok(())
  }

  function Prefixed(text: string, rest: Result<string, ()>): Result<string, ()> {
    if rest.Err? then rest else Ok(text + rest.value)
  }

  function Rendering(template: string, cursor: nat, values: Values): Result<string, ()>
    requires cursor <= |template|
    decreases |template| - cursor, 1
  {
    var start := Find(template, '{', cursor);
    if start.None? then Ok(template[cursor..])
    else Prefixed(template[cursor..start.value], RenderingHole(template, start.value, values))
  }

  function RenderingHole(template: string, start: nat, values: Values): Result<string, ()>
    requires start < |template| && template[start] == '{'
    decreases |template| - start, 0
  {
    var end := Find(template, '}', start);
    if end.None? then Err(())
    else
      var name := template[start + 1..end.value];
      if !IsPlaceholder(name) then Err(())
      else Prefixed(ValueOf(name, values), Rendering(template, end.value + 1, values))
  }

  method ValidateTemplate(template: string, requireTarget: bool) returns (r: Result<(), Error>)
    ensures r == Validation(template, requireTarget)
  {
    if template == "" {
      return if requireTarget then Err(EmptyTemplate) else Ok(());
    }
    var foundTarget := false;
    var i := 0;
    while i < |template|
      invariant 0 <= i <= |template|
      invariant Scan(template, i, foundTarget) == Scan(template, 0, false)
    {
      if template[i] == '{' {
        var end := Find(template, '}', i + 1);
        if end.None? {
          return Err(MalformedPlaceholder);
        }
        var name := template[i + 1..end.value];
        if !IsPlaceholder(name) {
          return Err(UnknownPlaceholder(name));
        }
        foundTarget := foundTarget || name == TARGET;
        i := end.value + 1;
      } else if template[i] == '}' {
        return Err(MalformedPlaceholder);
      } else {
        i := i + 1;
      }
    }
    if requireTarget && !foundTarget {
      return Err(MissingTargetPlaceholder);
    }
    return Ok(());
  }

  method RenderTemplate(template: string, values: Values) returns (r: Result<string, ()>)
    ensures r == Rendering(template, 0, values)
  {
    hide IsPlaceholder, ValueOf, Prefixed;
    var rendered := "";
    var cursor := 0;
    PrefixedTwice("", "", Rendering(template, 0, values));
    while cursor < |template|
      invariant 0 <= cursor <= |template|
      invariant Prefixed(rendered, Rendering(template, cursor, values)) == Rendering(template, 0, values)
    {
      var start := Find(template, '{', cursor);
      if start.None? {
        PrefixedOk(rendered, template[cursor..]);
        rendered := rendered + template[cursor..];
        return Ok(rendered);
      }
      PrefixedTwice(rendered, template[cursor..start.value], RenderingHole(template, start.value, values));
      rendered := rendered + template[cursor..start.value];
      var end := Find(template, '}', start.value);
      if end.None? {
        PrefixedErr(rendered);
        return Err(());
      }
      var name := template[start.value + 1..end.value];
      if !IsPlaceholder(name) {
        PrefixedErr(rendered);
        return Err(());
      }
      PrefixedTwice(rendered, ValueOf(name, values), Rendering(template, end.value + 1, values));
      rendered := rendered + ValueOf(name, values);
      cursor := end.value + 1;
    }
    PrefixedOk(rendered, template[cursor..]);
    assert rendered + template[cursor..] == rendered;
    return Ok(rendered);
  }

  lemma PrefixedTwice(a: string, b: string, rest: Result<string, ()>)
    ensures Prefixed(a, Prefixed(b, rest)) == Prefixed(a + b, rest)
    ensures Prefixed("", rest) == rest
  {
    if rest.Ok? {
      assert a + (b + rest.value) == a + b + rest.value;
      assert "" + rest.value == rest.value;
    }
  }

  lemma PrefixedOk(a: string, b: string)
    ensures Prefixed(a, Ok(b)) == Ok(a + b)
  {
  }

  lemma PrefixedErr(a: string)
    ensures Prefixed(a, Err(())) == Err(())
  {
  }

  // ----------------------------------------------------------- the grammar

  /** A template is literal scalars and placeholders. */
  datatype Item = Literal(c: char) | Placeholder(name: string)

  predicate ValidItem(item: Item) {
    match item
    case Literal(c) => c != '{' && c != '}'
    case Placeholder(name) => IsPlaceholder(name)
  }

  ghost predicate ValidItems(items: seq<Item>) { forall i :: 0 <= i < |items| ==> ValidItem(items[i]) }

  function Written(items: seq<Item>): string {
    if items == [] then ""
    else WrittenItem(items[0]) + Written(items[1..])
  }

  /** One-pass substitution: what is inserted is not looked at again. */
  function Substituted(items: seq<Item>, values: Values): string
    requires ValidItems(items)
  {
    if items == [] then ""
    else SubstitutedItem(items[0], values) + Substituted(items[1..], values)
  }

  /** The items of a well-formed template. */
  function ItemsFrom(template: string, i: nat, found: bool): (items: seq<Item>)
    requires i <= |template| && Scan(template, i, found).Ok?
    ensures ValidItems(items)
    ensures Scan(template, i, found).value == (found || Placeholder(TARGET) in items)
    decreases |template| - i
  {
    if i == |template| then []
    else if template[i] == '{' then
      var end := Find(template, '}', i + 1).value;
      var name := template[i + 1..end];
      [Placeholder(name)] + ItemsFrom(template, end + 1, found || name == TARGET)
    else [Literal(template[i])] + ItemsFrom(template, i + 1, found)
  }

  lemma {:induction false} ItemsAreWritten(template: string, i: nat, found: bool)
    requires i <= |template| && Scan(template, i, found).Ok?
    ensures Written(ItemsFrom(template, i, found)) == template[i..]
    decreases |template| - i
  {
    hide IsPlaceholder, Written, WrittenItem;
    if i == |template| {
      WrittenNothing();
    } else {
      if template[i] == '{' {
        var end := Find(template, '}', i + 1).value;
        var name := template[i + 1..end];
        var more := ItemsFrom(template, end + 1, found || name == TARGET);
        ItemsAreWritten(template, end + 1, found || name == TARGET);
        WrittenCons(Placeholder(name), more);
        HoleText(template, i, end);
        assert WrittenItem(Placeholder(name)) == "{" + name + "}" by { ItemTexts(name, 'x'); }
      } else {
        var more := ItemsFrom(template, i + 1, found);
        ItemsAreWritten(template, i + 1, found);
        WrittenCons(Literal(template[i]), more);
        ItemTexts("", template[i]);
        assert template[i..] == [template[i]] + template[i + 1..];
      }
    }
  }

  function WrittenItem(item: Item): string {
    match item
    case Literal(c) => [c]
    case Placeholder(name) => "{" + name + "}"
  }

  lemma WrittenNothing()
    ensures Written([]) == ""
  {
  }

  lemma ItemTexts(name: string, c: char)
    ensures WrittenItem(Placeholder(name)) == "{" + name + "}" && WrittenItem(Literal(c)) == [c]
  {
  }

  lemma WrittenCons(item: Item, rest: seq<Item>)
    ensures Written([item] + rest) == WrittenItem(item) + Written(rest)
  {
    assert ([item] + rest)[1..] == rest;
  }

  lemma HoleText(template: string, i: nat, end: nat)
    requires i < end < |template| && template[i] == '{' && template[end] == '}'
    ensures template[i..] == "{" + template[i + 1..end] + "}" + template[end + 1..]
  {
  }

  /** Placeholder names hold no braces. */
  lemma NameIsPlain(name: string)
    requires IsPlaceholder(name)
    ensures forall k :: 0 <= k < |name| ==> name[k] != '{' && name[k] != '}'
  {
  }

  lemma PlaceholderAt(template: string, i: nat, name: string, rest: string)
    requires i <= |template| && template[i..] == "{" + name + "}" + rest && IsPlaceholder(name)
    ensures i + |name| + 2 <= |template| && template[i] == '{'
    ensures Find(template, '{', i) == Some(i)
    ensures Find(template, '}', i + 1) == Some(i + |name| + 1) == Find(template, '}', i)
    ensures template[i + 1..i + |name| + 1] == name && template[i + |name| + 2..] == rest
  {
    NameIsPlain(name);
    hide IsPlaceholder;
    HoleAt(template, i, name, rest);
    forall k | i + 1 <= k < i + |name| + 1 ensures template[k] != '}' {
      assert template[k] == template[i + 1..i + |name| + 1][k - i - 1];
    }
  }

  lemma HoleAt(template: string, i: nat, name: string, rest: string)
    requires i <= |template| && template[i..] == "{" + name + "}" + rest
    ensures i + |name| + 2 <= |template| && template[i] == '{' && template[i + |name| + 1] == '}'
    ensures template[i + 1..i + |name| + 1] == name && template[i + |name| + 2..] == rest
  {
    var all := "{" + name + "}" + rest;
    assert template[i] == template[i..][0] && template[i + |name| + 1] == template[i..][|name| + 1];
    assert template[i + 1..i + |name| + 1] == all[1..|name| + 1] == name;
    assert template[i + |name| + 2..] == all[|name| + 2..] == rest;
  }

  lemma LiteralAt(template: string, i: nat, c: char, rest: string)
    requires i <= |template| && template[i..] == [c] + rest && c != '{'
    ensures i < |template| && template[i] == c && template[i + 1..] == rest
    ensures Find(template, '{', i) == Find(template, '{', i + 1)
  {
    assert template[i..][0] == c;
    assert template[i + 1..] == template[i..][1..];
  }

  lemma ScanLiteral(template: string, i: nat, c: char, rest: string, found: bool)
    requires i <= |template| && template[i..] == [c] + rest && c != '{' && c != '}'
    ensures i < |template| && template[i + 1..] == rest && Scan(template, i, found) == Scan(template, i + 1, found)
  {
    hide IsPlaceholder;
    LiteralAt(template, i, c, rest);
  }

  lemma ScanPlaceholder(template: string, i: nat, name: string, rest: string, found: bool)
    requires i <= |template| && template[i..] == "{" + name + "}" + rest && IsPlaceholder(name)
    ensures i + |name| + 2 <= |template| && template[i + |name| + 2..] == rest
    ensures Scan(template, i, found) == Scan(template, i + |name| + 2, found || name == TARGET)
  {
    PlaceholderAt(template, i, name, rest);
    hide IsPlaceholder;
  }

  lemma ItemsSplit(items: seq<Item>)
    requires ValidItems(items) && items != []
    ensures ValidItem(items[0]) && ValidItems(items[1..])
    ensures Written(items) == WrittenItem(items[0]) + Written(items[1..])
    ensures Placeholder(TARGET) in items <==> items[0] == Placeholder(TARGET) || Placeholder(TARGET) in items[1..]
  {
    hide ValidItem, WrittenItem;
    assert items == [items[0]] + items[1..];
  }

  lemma ScanEnd(template: string, i: nat, found: bool)
    requires i <= |template| && template[i..] == ""
    ensures Scan(template, i, found) == Ok(found)
  {
  }

  lemma {:induction false} WrittenScans(template: string, i: nat, items: seq<Item>, found: bool)
    requires i <= |template| && ValidItems(items) && template[i..] == Written(items)
    ensures Scan(template, i, found) == Ok(found || Placeholder(TARGET) in items)
    decreases |items|
  {
    hide IsPlaceholder, Scan, Written, ValidItems;
    if items == [] {
      WrittenNothing();
      ScanEnd(template, i, found);
    } else {
      ItemsSplit(items);
      match items[0] {
        case Literal(c) =>
          ScanLiteral(template, i, c, Written(items[1..]), found);
          WrittenScans(template, i + 1, items[1..], found);
        case Placeholder(name) =>
          ScanPlaceholder(template, i, name, Written(items[1..]), found);
          WrittenScans(template, i + |name| + 2, items[1..], found || name == TARGET);
      }
    }
  }

  lemma RenderPlaceholder(template: string, i: nat, name: string, rest: string, values: Values)
    requires i <= |template| && template[i..] == "{" + name + "}" + rest && IsPlaceholder(name)
    ensures i + |name| + 2 <= |template| && template[i + |name| + 2..] == rest
    ensures Rendering(template, i, values)
         == Prefixed(ValueOf(name, values), Rendering(template, i + |name| + 2, values))
  {
    PlaceholderAt(template, i, name, rest);
    hide IsPlaceholder, ValueOf, Prefixed;
    PrefixedTwice("", "", RenderingHole(template, i, values));
    assert template[i..i] == "";
  }

  function SubstitutedItem(item: Item, values: Values): string
    requires ValidItem(item)
  {
    match item
    case Literal(c) => [c]
    case Placeholder(name) => ValueOf(name, values)
  }

  lemma SubstitutedSplit(items: seq<Item>, values: Values)
    requires ValidItems(items) && items != []
    ensures ValidItem(items[0]) && ValidItems(items[1..])
    ensures Substituted(items, values) == SubstitutedItem(items[0], values) + Substituted(items[1..], values)
  {
    hide ValidItem, SubstitutedItem;
  }

  lemma RenderingEnd(template: string, i: nat, values: Values)
    requires i <= |template| && template[i..] == ""
    ensures Rendering(template, i, values) == Ok("")
  {
  }

  lemma NothingSubstituted(values: Values)
    ensures Substituted([], values) == ""
  {
  }

  lemma {:induction false} WrittenRenders(template: string, i: nat, items: seq<Item>, values: Values)
    requires i <= |template| && ValidItems(items) && template[i..] == Written(items)
    ensures Rendering(template, i, values) == Ok(Substituted(items, values))
    decreases |items|
  {
    hide IsPlaceholder, ValueOf, Rendering, Substituted, Written, ValidItems;
    if items == [] {
      WrittenNothing();
      RenderingEnd(template, i, values);
      NothingSubstituted(values);
    } else {
      ItemsSplit(items);
      SubstitutedSplit(items, values);
      match items[0] {
        case Literal(c) =>
          LiteralAt(template, i, c, Written(items[1..]));
          WrittenRenders(template, i + 1, items[1..], values);
          RenderingStep(template, i, values);
        case Placeholder(name) =>
          RenderPlaceholder(template, i, name, Written(items[1..]), values);
          WrittenRenders(template, i + |name| + 2, items[1..], values);
      }
    }
  }

  lemma RenderingStep(template: string, i: nat, values: Values)
    requires i < |template| && template[i] != '{'
    ensures Rendering(template, i, values) == Prefixed([template[i]], Rendering(template, i + 1, values))
  {
    hide RenderingHole;
    var start := Find(template, '{', i + 1);
    assert Find(template, '{', i) == start;
    if start.None? {
      assert template[i..] == [template[i]] + template[i + 1..];
    } else {
      assert template[i..start.value] == [template[i]] + template[i + 1..start.value];
      PrefixedTwice([template[i]], template[i + 1..start.value], RenderingHole(template, start.value, values));
    }
  }

  lemma WrittenEmpty(items: seq<Item>)
    ensures Written(items) == "" ==> items == []
  {
  }

  /** Validation accepts exactly the templates that are written from literal scalars
      other than braces and the three placeholders, with the target where required. */
  lemma ValidationIff(template: string, requireTarget: bool)
    ensures Validation(template, requireTarget).Ok?
            <==> exists items :: ValidItems(items) && Written(items) == template
                                 && (requireTarget ==> Placeholder(TARGET) in items)
  {
    assert template[0..] == template;
    if Validation(template, requireTarget).Ok? {
      var items := if template == "" then [] else ItemsFrom(template, 0, false);
      if template != "" {
        ItemsAreWritten(template, 0, false);
      }
      assert ValidItems(items) && Written(items) == template && (requireTarget ==> Placeholder(TARGET) in items);
    }
    if exists items :: ValidItems(items) && Written(items) == template && (requireTarget ==> Placeholder(TARGET) in items) {
      var items :| ValidItems(items) && Written(items) == template && (requireTarget ==> Placeholder(TARGET) in items);
      WrittenScans(template, 0, items, false);
      WrittenEmpty(items);
    }
  }

  /** Every accepted template renders, to the one-pass substitution of its items;
      braces inside the values come out as they are. */
  lemma AcceptedRenders(template: string, requireTarget: bool, values: Values) returns (items: seq<Item>)
    requires Validation(template, requireTarget).Ok?
    ensures ValidItems(items) && Written(items) == template
    ensures Rendering(template, 0, values) == Ok(Substituted(items, values))
    ensures requireTarget ==> Placeholder(TARGET) in items
  {
    ValidationIff(template, requireTarget);
    items :| ValidItems(items) && Written(items) == template && (requireTarget ==> Placeholder(TARGET) in items);
    assert template[0..] == template;
    WrittenRenders(template, 0, items, values);
  }

  lemma {:induction false} SubstitutedContains(items: seq<Item>, values: Values)
    requires ValidItems(items) && Placeholder(TARGET) in items
    ensures Contains(Substituted(items, values), values.target)
    decreases |items|
  {
    hide IsPlaceholder;
    var text, rest := Substituted(items, values), Substituted(items[1..], values);
    assert ValidItem(items[0]);
    var front := text[..|text| - |rest|];
    assert text == front + rest;
    if items[0] == Placeholder(TARGET) {
      assert OccursAt(text, values.target, 0);
    } else {
      SubstitutedContains(items[1..], values);
      ContainsBehind(front, rest, values.target);
    }
  }

  lemma ContainsBehind(front: string, rest: string, part: string)
    requires Contains(rest, part)
    ensures Contains(front + rest, part)
  {
    var i: nat :| i <= |rest| && OccursAt(rest, part, i);
    assert (front + rest)[|front| + i..|front| + i + |part|] == rest[i..i + |part|];
    assert OccursAt(front + rest, part, |front| + i);
  }

  // --------------------------------------------------------------- profiles

  datatype Temperature = NotFinite | Finite(value: real)

  datatype PromptConfig = PromptConfig(id: string, name: string, systemPrompt: string, userTemplate: string,
                                       model: Option<string>, temperature: Option<Temperature>,
                                       maxOutputTokens: Option<nat>)

  datatype RenderedPrompt = RenderedPrompt(systemPrompt: string, userPrompt: string)

  predicate InRange(t: Temperature) { t.Finite? && 0.0 <= t.value <= 2.0 }

  function ValidationError(p: PromptConfig): Option<Error> {
    if NormalizeText(p.id) != p.id then Some(InvalidId)
    else if p.id == "" then Some(EmptyId)
    else if Trim(p.name) == "" then Some(EmptyName)
    else if Validation(p.systemPrompt, false).Err? then Some(Validation(p.systemPrompt, false).error)
    else if Validation(p.userTemplate, true).Err? then Some(Validation(p.userTemplate, true).error)
    else if p.model.Some? && (NormalizeText(p.model.value) != p.model.value || p.model.value == "") then Some(InvalidModel)
    else if p.temperature.Some? && !InRange(p.temperature.value) then Some(InvalidTemperature)
    else if p.maxOutputTokens == Some(0) then Some(InvalidMaxOutputTokens)
    else None
  }

  function ValuesOf(target: string, context: Option<string>, source: string): Values {
    var normal := NormalizeOptional(context);
    Values(NormalizeText(target), if normal.Some? then normal.value else "", source)
  }

  lemma ValidRenders(p: PromptConfig, values: Values)
    requires ValidationError(p).None?
    ensures Rendering(p.systemPrompt, 0, values).Ok? && Rendering(p.userTemplate, 0, values).Ok?
    ensures Contains(Rendering(p.userTemplate, 0, values).value, values.target)
  {
    var system := AcceptedRenders(p.systemPrompt, false, values);
    var user := AcceptedRenders(p.userTemplate, true, values);
    SubstitutedContains(user, values);
  }

  /** A valid profile and a target that is not blank always render. */
  function Rendered(p: PromptConfig, target: string, context: Option<string>, source: string)
    : (r: Result<RenderedPrompt, RenderError>)
    ensures r.Ok? ==> Contains(r.value.userPrompt, NormalizeText(target))
  {
    if ValidationError(p).Some? then Err(InvalidProfile)
    else if NormalizeText(target) == "" then Err(MissingTarget)
    else
      var values := ValuesOf(target, context, source);
      ValidRenders(p, values);
      Ok(RenderedPrompt(Rendering(p.systemPrompt, 0, values).value, Rendering(p.userTemplate, 0, values).value))
  }

  /** The renderings are asserted to succeed, as the source expects. */
  method Render(p: PromptConfig, target: string, context: Option<string>, source: string)
    returns (r: Result<RenderedPrompt, RenderError>)
    ensures r == Rendered(p, target, context, source)
  {
    hide ValidationError, Rendering;
    if ValidationError(p).Some? {
      return Err(InvalidProfile);
    }
    var normal := NormalizeText(target);
    if normal == "" {
      return Err(MissingTarget);
    }
    var values := ValuesOf(target, context, source);
    ValidRenders(p, values);
    var systemPrompt := RenderTemplate(p.systemPrompt, values);
    assert systemPrompt.Ok?;
    var userPrompt := RenderTemplate(p.userTemplate, values);
    assert userPrompt.Ok?;
    return Ok(RenderedPrompt(systemPrompt.value, userPrompt.value));
  }
}
