/**
 The gate in front of the provider: which inputs become requests, in which order
 they are rejected, and what an admitted request looks like.  URL and provider
 validation is one flag here.
 */
module RequestGate {
  import opened Common
  import opened Normalize
  import opened Prompt
  import HoverToken
  import Sentence

  const MAX_TARGET_SCALARS := 4000

  datatype Rejection =
    | Cancelled | StaleJob(inputId: nat, activeId: nat)
    | NoTarget | TargetTooLong(scalars: nat)
    | MissingPrompt | InvalidPrompt | MissingProviderConfig | InvalidProviderConfig

  datatype Provider = Provider(model: string, valid: bool)

  datatype JobInput = JobInput(id: nat, trigger: Trigger, text: TextContext, promptId: string)

  datatype PreparedRequest = PreparedRequest(jobId: nat, target: string, context: Option<string>, promptId: string,
                                             rendered: RenderedPrompt, model: string,
                                             temperature: Option<Temperature>, maxOutputTokens: Option<nat>)

  /** What the code takes from its language and its constants. */
  datatype Language = Language(classes: HoverToken.Classes, lower: Sentence.Lower, contract: string)

  function SourceName(source: Source): string {
    match source
    case UiaSelection => "UiaSelection"
    case UiaPoint => "UiaPoint"
    case Clipboard => "Clipboard"
    case Ocr => "Ocr"
  }

  function WithContract(systemPrompt: string, contract: string): string {
    if systemPrompt == "" then contract else systemPrompt + "\n\n" + contract
  }

  /** The text of a request: hovered text is cleaned, other text is normalized. */
  function TargetOf(l: Language, input: JobInput): string {
    if input.trigger == Hover then
      var cleaned := HoverToken.SanitizedHoverText(l.classes, l.lower, input.text);
      if cleaned.None? then "" else cleaned.value.target
    else NormalizeText(input.text.target)
  }

  function ContextOf(l: Language, input: JobInput): Option<string> {
    if input.trigger == Hover then
      var cleaned := HoverToken.SanitizedHoverText(l.classes, l.lower, input.text);
      if cleaned.None? then None else cleaned.value.context
    else
      var context := NormalizeOptional(input.text.context);
      if context.None? then None else Sentence.SentenceForTarget(l.lower, context.value, TargetOf(l, input))
  }

  /** The admission checks in their order, given the profiles of the wanted id. */
  function PrepareFrom(l: Language, input: JobInput, activeId: nat, cancelled: bool, matching: seq<PromptConfig>,
                       provider: Option<Provider>): Result<PreparedRequest, Rejection>
  {
    var target := TargetOf(l, input);
    if cancelled then Err(Cancelled)
    else if input.id != activeId then Err(StaleJob(input.id, activeId))
    else if target == "" then Err(NoTarget)
    else if |target| > MAX_TARGET_SCALARS then Err(TargetTooLong(|target|))
    else if input.promptId == "" || matching == [] then Err(MissingPrompt)
    else if |matching| > 1 || ValidationError(matching[0]).Some? then Err(InvalidPrompt)
    else if provider.None? then Err(MissingProviderConfig)
    else if !provider.value.valid then Err(InvalidProviderConfig)
    else
      var context := ContextOf(l, input);
      if input.trigger == Hover && context.None? then Err(NoTarget)
      else
        var rendered := Rendered(matching[0], target, context, SourceName(input.text.source));
        if rendered.Err? then Err(InvalidPrompt)
        else
          var prompt := rendered.value.(systemPrompt := WithContract(rendered.value.systemPrompt, l.contract));
          Ok(PreparedRequest(input.id, target, context, matching[0].id, prompt,
                             if matching[0].model.Some? then matching[0].model.value else provider.value.model,
                             matching[0].temperature, matching[0].maxOutputTokens))
  }

  function Matching(prompts: seq<PromptConfig>, id: string): seq<PromptConfig> {
    if prompts == [] then []
    else
      var rest := Matching(prompts[..|prompts| - 1], id);
      if prompts[|prompts| - 1].id == id then rest + [prompts[|prompts| - 1]] else rest
  }

  function Prepare(l: Language, input: JobInput, activeId: nat, cancelled: bool, prompts: seq<PromptConfig>,
                   provider: Option<Provider>): Result<PreparedRequest, Rejection>
  {
    PrepareFrom(l, input, activeId, cancelled, Matching(prompts, input.promptId), provider)
  }

  lemma NonHoverTargetIsNormal(l: Language, input: JobInput)
    ensures NormalizeText(TargetOf(l, input)) == TargetOf(l, input)
      || input.trigger == Hover
  {
    NormalizeFixed(input.text.target);
  }

  lemma HoverTargetIsNormal(l: Language, input: JobInput)
    requires HoverToken.Disjoint(l.classes) && input.trigger == Hover
    ensures NormalizeText(TargetOf(l, input)) == TargetOf(l, input)
  {
    hide NormalizeText, HoverToken.Disjoint, HoverToken.Sanitized;
    if HoverToken.Sanitized(l.classes, input.text.target).Some? {
      HoverToken.SanitizedIsFixed(l.classes, input.text.target);
    } else {
      EmptyIsNormal();
    }
  }

  lemma EmptyIsNormal()
    ensures NormalizeText("") == ""
  {
  }

  /** An admitted request has one normal, bounded target that its user message
      contains; its profile is the only one of that id; its system message ends with
      the response contract; and a hover request has a context. */
  lemma PreparedIsSound(l: Language, input: JobInput, activeId: nat, cancelled: bool, prompts: seq<PromptConfig>,
                        provider: Option<Provider>)
    requires HoverToken.Disjoint(l.classes)
    requires Prepare(l, input, activeId, cancelled, prompts, provider).Ok?
    ensures var r := Prepare(l, input, activeId, cancelled, prompts, provider).value;
            && !cancelled && r.jobId == input.id == activeId
            && Normal(r.target) && 1 <= |r.target| <= MAX_TARGET_SCALARS
            && Contains(r.rendered.userPrompt, r.target)
            && l.contract == r.rendered.systemPrompt[|r.rendered.systemPrompt| - |l.contract|..]
            && |Matching(prompts, r.promptId)| == 1 && r.promptId == input.promptId
            && (input.trigger == Hover ==> r.context.Some? && HoverToken.IsToken(l.classes, r.target))
  {
    hide NormalizeText, HoverToken.Disjoint, HoverToken.Sanitized, Rendered, ValidationError, Normal, HoverToken.IsToken;
    var r := Prepare(l, input, activeId, cancelled, prompts, provider).value;
    if input.trigger == Hover {
      HoverTargetIsNormal(l, input);
      HoverToken.SanitizedIsToken(l.classes, input.text.target);
    } else {
      NonHoverTargetIsNormal(l, input);
    }
    NormalizeFixed(r.target);
    MatchingIds(prompts, input.promptId);
    ContractLast(Rendered(Matching(prompts, input.promptId)[0], r.target, r.context,
                          SourceName(input.text.source)).value.systemPrompt, l.contract);
  }

  lemma ContractLast(systemPrompt: string, contract: string)
    ensures var text := WithContract(systemPrompt, contract);
            |contract| <= |text| && text[|text| - |contract|..] == contract
  {
  }

  lemma {:induction false} MatchingIds(prompts: seq<PromptConfig>, id: string)
    ensures forall i :: 0 <= i < |Matching(prompts, id)| ==> Matching(prompts, id)[i].id == id
  {
    if prompts != [] {
      MatchingIds(prompts[..|prompts| - 1], id);
    }
  }

  // ------------------------------------------------------------- the wrapper

  /** Profiles by id, with the ids that came more than once set apart. */
  class RequestGate {
    const provider: Option<Provider>
    const language: Language
    var prompts: map<string, PromptConfig>
    var duplicatePromptIds: set<string>
    ghost const listed: seq<PromptConfig>

    ghost predicate Valid()
      reads this
    {
      && (forall id :: id in prompts <==> Matching(listed, id) != [])
      && (forall id :: id in prompts ==> prompts[id] == Matching(listed, id)[0])
      && (forall id :: id in duplicatePromptIds <==> |Matching(listed, id)| > 1)
    }

    constructor (language: Language, provider: Option<Provider>, profiles: seq<PromptConfig>)
      ensures Valid() && listed == profiles && this.provider == provider && this.language == language
    {
      this.language, this.provider, listed := language, provider, profiles;
      var known: map<string, PromptConfig> := map[];
      var duplicates: set<string> := {};
      var i := 0;
      while i < |profiles|
        invariant 0 <= i <= |profiles|
        invariant forall id :: id in known <==> Matching(profiles[..i], id) != []
        invariant forall id :: id in known ==> known[id] == Matching(profiles[..i], id)[0]
        invariant forall id :: id in duplicates <==> |Matching(profiles[..i], id)| > 1
      {
        var prompt := profiles[i];
        assert profiles[..i + 1][..i] == profiles[..i];
        if prompt.id in known {
          duplicates := duplicates + {prompt.id};
        } else {
          known := known[prompt.id := prompt];
        }
        i := i + 1;
      }
      assert profiles[..i] == profiles;
      prompts, duplicatePromptIds := known, duplicates;
    }

    /** The map finds the one profile a scan of the list would.  A duplicated id is
        rejected before anything else is looked at, so only the reason for
        rejecting it may differ from the scan's. */
    method PrepareInput(input: JobInput, activeId: nat, cancelled: bool) returns (r: Result<PreparedRequest, Rejection>)
      requires Valid()
      ensures r == if |Matching(listed, input.promptId)| > 1 then Err(InvalidPrompt)
                   else Prepare(language, input, activeId, cancelled, listed, provider)
      ensures r.Ok? <==> Prepare(language, input, activeId, cancelled, listed, provider).Ok?
    {
      if input.promptId in duplicatePromptIds {
        return Err(InvalidPrompt);
      }
      var matching := if input.promptId in prompts then [prompts[input.promptId]] else [];
      assert matching == Matching(listed, input.promptId);
      return PrepareFrom(language, input, activeId, cancelled, matching, provider);
    }
  }
}
