/**
 * The pitch builder page as a state machine: the component's state hooks
 * are the fields of `PitchBuilder`, its event handlers are methods, and the
 * two effects (recomputing the warnings when the inputs change, copying a
 * new generated pitch into the editor) run at the end of the handlers that
 * change what they depend on. The model's replies are parameters.
 */
module Page {
  import opened Wrappers
  import opened Text
  import opened Lint
  import opened Drafts
  import opened Reply
  import opened Derived

  /** The text shown in place of a pitch when generation fails. */
  const GenerationError: string := "Error generating pitch. Please try again."

  /** The inputs with field `k` (in declaration order) set to `value`. */
  function WithField(inputs: Inputs, k: nat, value: string): (r: Inputs)
    requires k < 7
    ensures Values(r) == Values(inputs)[k := value]
  {
    match k
    case 0 => inputs.(companyName := value)
    case 1 => inputs.(offering := value)
    case 2 => inputs.(audience := value)
    case 3 => inputs.(problemStatement := value)
    case 4 => inputs.(outcome := value)
    case 5 => inputs.(secretSauce := value)
    case _ => inputs.(analogy := value)
  }

  /**
   * The editor's text after the copy effect: when the generated pitch or
   * the iterate flag changed, a non-empty generated pitch outside iterate
   * mode replaces whatever is in the editor.
   */
  function AfterCopyEffect(editable: string, generatedBefore: string, iterateBefore: bool,
                           generated: string, iterate: bool): (r: string)
    ensures r == editable || r == generated
    ensures generated == "" || iterate ==> r == editable
    ensures generated == generatedBefore && iterate == iterateBefore ==> r == editable
    ensures (generated != generatedBefore || iterate != iterateBefore) && generated != "" && !iterate ==> r == generated
  {
    if (generated != generatedBefore || iterate != iterateBefore) && generated != "" && !iterate
    then generated else editable
  }

  /** A failed generation puts the error text into the editor, unless it was already the generated pitch outside iterate mode. */
  lemma FailureShowsError(editable: string, generatedBefore: string, iterateBefore: bool)
    requires generatedBefore != GenerationError || iterateBefore
    ensures AfterCopyEffect(editable, generatedBefore, iterateBefore, GenerationError, false) == GenerationError
  {
  }

  /** A second failure in a row outside iterate mode changes nothing the effect watches, so the editor keeps its text. */
  lemma RepeatedFailureKeepsEditor(editable: string)
    ensures AfterCopyEffect(editable, GenerationError, false, GenerationError, false) == editable
  {
  }

  /** The suggestion list a critique reply produces; `None` is a failed request. */
  function Critique(reply: Option<string>, parse: string -> Option<Parsed>): (r: seq<Suggestion>)
    ensures reply.None? ==> EditsShown(r) == [ErrorEdit] && RewriteShown(r) == None
    ensures reply.Some? && parse(StripFences(reply.value)).None? ==>
              EditsShown(r) == [ErrorEdit] && RewriteShown(r) == None
    ensures reply.Some? && parse(StripFences(reply.value)).Some? ==>
              EditsShown(r) == parse(StripFences(reply.value)).value.suggestions
  {
    match reply
    case None => Assemble(None)
    case Some(text) => Interpret(text, parse)
  }

  class PitchBuilder {
    var inputs: Inputs
    var audienceMode: AudienceMode
    var lengthMode: LengthMode
    var warnings: seq<Warning>
    var generatedPitch: string
    var editablePitch: string
    var hasGenerated: bool
    var iterateMode: bool
    var suggestions: seq<Suggestion>
    var drafts: seq<DraftEntry>

    /** The warnings always match the inputs, and the draft store never exceeds its cap. */
    predicate Valid()
      reads this`warnings, this`inputs, this`drafts
    {
      warnings == Warnings(inputs) && |drafts| <= MaxDrafts
    }

    /** The first render: empty fields, the investor audience, one sentence, nothing generated. */
    constructor ()
      ensures Valid()
      ensures inputs == Inputs("", "", "", "", "", "", "")
      ensures audienceMode == Investor && lengthMode == OneSentence
      ensures generatedPitch == "" && editablePitch == "" && !hasGenerated && !iterateMode
      ensures suggestions == [] && drafts == []
    {
      var initial := Inputs("", "", "", "", "", "", "");
      var computed := ComputeWarnings(initial);
      inputs := initial;
      audienceMode := Investor;
      lengthMode := OneSentence;
      generatedPitch := "";
      editablePitch := "";
      hasGenerated := false;
      iterateMode := false;
      suggestions := [];
      drafts := [];
      warnings := computed;
    }

    /** The copy effect, run after a handler that may have changed its dependencies. */
    method RunCopyEffect(generatedBefore: string, iterateBefore: bool)
      modifies this`editablePitch
      ensures editablePitch == AfterCopyEffect(old(editablePitch), generatedBefore, iterateBefore,
                                               generatedPitch, iterateMode)
    {
      if (generatedPitch != generatedBefore || iterateMode != iterateBefore) && generatedPitch != "" && !iterateMode {
        editablePitch := generatedPitch;
      }
    }

    /** Typing into field `k`: the field changes and the warnings are recomputed for the new inputs. */
    method UpdateInput(k: nat, value: string)
      requires Valid() && k < 7
      modifies this`inputs, this`warnings
      ensures Valid()
      ensures inputs == WithField(old(inputs), k, value)
      ensures warnings == Warnings(inputs)
    {
      inputs := WithField(inputs, k, value);
      warnings := ComputeWarnings(inputs);
    }

    method SelectAudience(mode: AudienceMode)
      requires Valid()
      modifies this`audienceMode
      ensures Valid() && audienceMode == mode
    {
      audienceMode := mode;
    }

    method SelectLength(mode: LengthMode)
      requires Valid()
      modifies this`lengthMode
      ensures Valid() && lengthMode == mode
    {
      lengthMode := mode;
    }

    /** Typing into the pitch editor. */
    method EditPitch(text: string)
      requires Valid()
      modifies this`editablePitch
      ensures Valid() && editablePitch == text
    {
      editablePitch := text;
    }

    /**
     * Saving the editor's pitch as a draft (`id` and the display strings
     * come from the clock). An empty editor saves nothing.
     */
    method SaveToDrafts(id: int, timestamp: string, date: string)
      requires Valid()
      modifies this`drafts
      ensures Valid()
      ensures old(editablePitch) == "" ==> drafts == old(drafts)
      ensures old(editablePitch) != "" ==>
                drafts == Prepended(old(drafts), DraftEntry(id, editablePitch, audienceMode, lengthMode, timestamp, date))
    {
      if editablePitch == "" {
        return;
      }
      var entry := DraftEntry(id, editablePitch, audienceMode, lengthMode, timestamp, date);
      drafts := Prepended(drafts, entry);
    }

    /** Deleting every draft with the given id. */
    method RemoveFromDrafts(id: int)
      requires Valid()
      modifies this`drafts
      ensures Valid()
      ensures drafts == WithoutId(old(drafts), id)
    {
      drafts := WithoutId(drafts, id);
    }

    /** Loading a draft: its pitch goes into the editor and its modes are selected again. */
    method RestoreFromDrafts(entry: DraftEntry)
      requires Valid()
      modifies this`editablePitch, this`generatedPitch, this`audienceMode, this`lengthMode, this`hasGenerated
      ensures Valid()
      ensures editablePitch == entry.pitch && generatedPitch == entry.pitch && hasGenerated
      ensures audienceMode == entry.audience && lengthMode == entry.length
    {
      var generatedBefore, iterateBefore := generatedPitch, iterateMode;
      editablePitch := entry.pitch;
      generatedPitch := entry.pitch;
      audienceMode := entry.audience;
      lengthMode := entry.length;
      hasGenerated := true;
      RunCopyEffect(generatedBefore, iterateBefore);
    }

    /**
     * Generating a pitch from the inputs; `reply` is the text of the
     * model's answer, `None` when the request fails. Nothing happens while a
     * required field is empty.
     */
    method GenerateWithAI(reply: Option<string>)
      requires Valid()
      modifies this`suggestions, this`iterateMode, this`generatedPitch, this`editablePitch, this`hasGenerated
      ensures Valid()
      ensures !IsComplete(old(inputs)) ==>
                editablePitch == old(editablePitch) && generatedPitch == old(generatedPitch)
                && suggestions == old(suggestions) && iterateMode == old(iterateMode)
                && hasGenerated == old(hasGenerated)
      ensures IsComplete(old(inputs)) ==> suggestions == [] && !iterateMode
      ensures IsComplete(old(inputs)) && reply.Some? ==>
                generatedPitch == CleanPitch(reply.value) && editablePitch == generatedPitch && hasGenerated
      ensures IsComplete(old(inputs)) && reply.None? ==>
                generatedPitch == GenerationError && hasGenerated == old(hasGenerated)
                && editablePitch == AfterCopyEffect(old(editablePitch), old(generatedPitch), old(iterateMode),
                                                    GenerationError, false)
    {
      if IsComplete(inputs) {
        var pitch := match reply case Some(text) => Some(CleanPitch(text)) case None => None;
        ShowGeneration(pitch);
      }
    }

    /**
     * What generation does once the required fields are filled: the
     * suggestions are cleared and iterate mode is left; a cleaned pitch is
     * shown in both places, and a failure (`None`) shows the error text as
     * the generated pitch, which the copy effect carries into the editor.
     */
    method ShowGeneration(pitch: Option<string>)
      requires Valid()
      modifies this`suggestions, this`iterateMode, this`generatedPitch, this`editablePitch, this`hasGenerated
      ensures Valid()
      ensures suggestions == [] && !iterateMode
      ensures pitch.Some? ==> generatedPitch == pitch.value && editablePitch == generatedPitch && hasGenerated
      ensures pitch.None? ==>
                generatedPitch == GenerationError && hasGenerated == old(hasGenerated)
                && editablePitch == AfterCopyEffect(old(editablePitch), old(generatedPitch), old(iterateMode),
                                                    GenerationError, false)
    {
      var generatedBefore, iterateBefore := generatedPitch, iterateMode;
      suggestions := [];
      iterateMode := false;
      match pitch {
        case Some(shown) =>
          generatedPitch := shown;
          editablePitch := shown;
          hasGenerated := true;
        case None =>
          generatedPitch := GenerationError;
      }
      RunCopyEffect(generatedBefore, iterateBefore);
    }

    /**
     * Asking for a critique of the editor's pitch; `reply` is the model's
     * answer (`None` when the request fails) and `parse` stands for
     * `JSON.parse`. Only the suggestion list changes.
     */
    method IterateWithAI(reply: Option<string>, parse: string -> Option<Parsed>)
      requires Valid()
      modifies this`suggestions
      ensures Valid()
      ensures old(editablePitch) == "" ==> suggestions == old(suggestions)
      ensures old(editablePitch) != "" ==> suggestions == Critique(reply, parse)
    {
      if editablePitch == "" {
        return;
      }
      suggestions := Critique(reply, parse);
      ValidWhileKept(this);
    }

    /**
     * The iterate button: it flips iterate mode and, when switching it on
     * with a pitch in the editor, asks for a critique. Switching it off lets
     * the copy effect put the generated pitch, when there is one, back into
     * the editor.
     */
    method ToggleIterate(reply: Option<string>, parse: string -> Option<Parsed>)
      requires Valid()
      modifies this`iterateMode, this`suggestions, this`editablePitch
      ensures Valid()
      ensures iterateMode == !old(iterateMode)
      ensures iterateMode && old(editablePitch) != "" ==> suggestions == Critique(reply, parse)
      ensures !(iterateMode && old(editablePitch) != "") ==> suggestions == old(suggestions)
      ensures !iterateMode && generatedPitch != "" ==> editablePitch == generatedPitch
      ensures !iterateMode && generatedPitch == "" ==> editablePitch == old(editablePitch)
      ensures iterateMode ==> editablePitch == old(editablePitch)
    {
      var generatedBefore, iterateBefore := generatedPitch, iterateMode;
      iterateMode := !iterateMode;
      if !iterateBefore && editablePitch != "" {
        IterateWithAI(reply, parse);
      }
      RunCopyEffect(generatedBefore, iterateBefore);
    }

    /** The Apply button of a phrase edit: the first occurrence of its phrase in the editor is replaced. */
    method ApplySuggestion(e: Edit)
      requires Valid()
      modifies this`editablePitch
      ensures Valid()
      ensures editablePitch == ReplaceFirst(old(editablePitch), e.original, e.replacement)
    {
      editablePitch := ReplaceFirst(editablePitch, e.original, e.replacement);
    }

    /** Taking the rewritten pitch: it becomes both the generated and the edited pitch, and the list is cleared. */
    method ApplyImprovedVersion(newPitch: string)
      requires Valid()
      modifies this`editablePitch, this`generatedPitch, this`suggestions
      ensures Valid()
      ensures editablePitch == newPitch && generatedPitch == newPitch && suggestions == []
    {
      var generatedBefore, iterateBefore := generatedPitch, iterateMode;
      editablePitch := newPitch;
      generatedPitch := newPitch;
      suggestions := [];
      RunCopyEffect(generatedBefore, iterateBefore);
    }

    /** The word count shown under the editor. */
    function PitchWordCount(): (n: nat)
      reads this`editablePitch
      ensures n == 0 <==> AllSpace(editablePitch)
    {
      WordCount(editablePitch)
    }
  }

  /**
   * Saving, then editing the pitch and switching both modes, then restoring
   * the newest draft brings back the pitch and modes of the moment of saving
   * and leaves the store as the save made it.
   */
  method SaveEditRestore(page: PitchBuilder, id: int, timestamp: string, date: string,
                         scratch: string, audience: AudienceMode, length: LengthMode)
    requires page.Valid() && page.editablePitch != ""
    modifies page
    ensures page.Valid()
    ensures page.editablePitch == old(page.editablePitch) && page.generatedPitch == old(page.editablePitch)
    ensures page.audienceMode == old(page.audienceMode) && page.lengthMode == old(page.lengthMode)
    ensures page.hasGenerated
    ensures page.drafts == Prepended(old(page.drafts), DraftEntry(id, old(page.editablePitch), old(page.audienceMode),
                                                                 old(page.lengthMode), timestamp, date))
  {
    page.SaveToDrafts(id, timestamp, date);
    page.EditPitch(scratch);
    page.SelectAudience(audience);
    page.SelectLength(length);
    page.RestoreFromDrafts(page.drafts[0]);
  }

  /** A handler that leaves the inputs, the warnings and the drafts alone keeps the page valid. */
  twostate lemma ValidWhileKept(page: PitchBuilder)
    requires old(page.Valid())
    requires unchanged(page`warnings, page`inputs, page`drafts)
    ensures page.Valid()
  {
  }
}
