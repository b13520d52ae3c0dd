# Pitch builder — a verified model of the page logic

The pitch builder is a single React page (`app/page.js`). It collects seven
free-text fields describing a startup and lints them continuously against
three wordlists: jargon, superlatives and vague audiences. It asks a language
model to draft a one-sentence pitch and to critique it. It keeps a capped
list of saved drafts. This project models that page in Dafny:

- `wrappers.dfy` (`Wrappers`): the `Option` type.
- `text.dfy` (`Text`): the JavaScript string primitives the page relies on.
  These are the `\s` class (exactly what `trim` strips), the `\b` word
  characters, `toLowerCase` on ASCII letters, `includes`, a `\b…\b` regular
  expression test, `trim`, `split(/\s+/)`, `split(' ')`, `join` and `indexOf`.
- `lint.dfy` (`Lint`): the wordlists, the warning list as a specification
  function, and the linter effect as a method with loops proved against it.
- `drafts.dfy` (`Drafts`): draft entries and the two list transformations
  behind save and delete.
- `reply.dfy` (`Reply`): how model replies are handled. This covers quote
  stripping of a generated pitch, code-fence stripping before `JSON.parse`,
  assembly of the suggestion list and what the page shows from it, and the
  "Apply" button's `String.prototype.replace`, including its `$` patterns.
- `derived.dfy` (`Derived`): the values computed on each render. These are the
  word count, the required-field test and the email-test questions.
- `page.dfy` (`Page`): the component's state as the class `PitchBuilder`.
  The event handlers are its methods, and the two effects (warnings and
  editor sync) run at the end of the handlers that change what they depend on.

The model's replies and `JSON.parse` are parameters of the handlers. A reply
is an `Option<string>`, with `None` for a failed request. The parser is a
function `string -> Option<Parsed>`, with `None` for a parse error or a
`null` result.

Three behaviours of `app/page.js` that the model keeps as written:

- Quote stripping (`app/page.js:188`) removes one straight quote (`"` or
  `'`) from the start and one from the end, each independently of the other.
  So `"pitch` loses its single quote, a pitch quoted twice loses only the
  outer quotes, and curly quotes stay.
- A parsed critique without a `suggestions` field is not an error
  (`parsed.suggestions || []`, `app/page.js:252`). It reads as an empty list
  of edits, and its rewrite, when present, is still offered.
- The copy effect (`app/page.js:91-95`) runs whenever the generated pitch or
  the iterate flag changed. It copies a non-empty generated pitch into the
  editor outside iterate mode. So a failed generation puts the error text
  into the editor, unless the generated pitch already held the error text
  outside iterate mode: then nothing the effect watches changes, and the
  editor keeps whatever was typed since. Switching iterate mode off replaces the editor's text with
  the generated pitch when the generated pitch is non-empty, which discards
  edits and applied suggestions.

## Model

| member | source | states |
|---|---|---|
| Text.Lower | app/page.js:63 | `toLowerCase` keeps the length, leaves no capital letter, and changes no character that was not a capital |
| Text.LowerConcat | app/page.js:63 | lower-casing distributes over concatenation |
| Text.LowerIdempotent | app/page.js:63 | lower-casing an already lower-cased text changes nothing |
| Text.Contains | app/page.js:67 | `includes` always finds the empty string and never finds a string longer than the text |
| Text.HasWholeWord | app/page.js:73-74 | a whole-word match is in particular a substring match |
| Text.Trim | app/page.js:188 | the result is no longer than the text and neither starts nor ends with whitespace |
| Text.TrimKeepsMiddle | app/page.js:188 | `trim` removes only whitespace: the text is a whitespace run, the result, and another whitespace run |
| Text.TrimUnique | app/page.js:188 | `trim` of whitespace + m + whitespace is m whenever m has no whitespace at its ends |
| Text.TrimIgnoresTrailingSpace | app/page.js:249 | appending whitespace does not change the trimmed text |
| Text.SplitWs | app/page.js:82 | `split(/\s+/)` yields at least one piece and no piece holds whitespace |
| Text.SplitWsStep | app/page.js:82 | a token followed by whitespace splits off as the first piece |
| Text.SplitWsOfToken | app/page.js:82 | a text without whitespace splits into itself alone |
| Text.SplitWsPiecesOccur | app/page.js:82 | every token is a substring of the text |
| Text.SplitWsTwoTokens | app/page.js:82 | two tokens joined by one space split back into exactly those two tokens |
| Text.SplitOn | app/page.js:292 | `split(' ')` yields at least one piece and no piece holds a space |
| Text.SplitOnLength | app/page.js:292 | `split(' ')` yields one piece more than there are spaces |
| Text.SplitOnJoin | app/page.js:292 | joining the pieces of `split(c)` with `c` gives back the text |
| Text.JoinAround | app/page.js:63 | a joined list is the parts before a piece, the piece, and the parts after it, with separators |
| Text.IndexOfFrom | app/page.js:557 | `indexOf` finds the first occurrence at or after the start, or reports that there is none |
| Text.WholeWordInContext | app/page.js:72-77 | a whole-word match inside a field stays one when non-word characters surround the field |
| Text.WholeWordInJoin | app/page.js:63-74 | in the lower-cased, space-joined fields a word stands as a whole word only inside one lower-cased field: no match spans two fields |
| Lint.NamesAudience | app/page.js:81-82 | an audience that names a term, as a whole or as a token, contains the term in its lower-cased text |
| Lint.Pass | app/page.js:65-86 | a pass emits at most one warning per term it looks at |
| Lint.Warnings | app/page.js:62-88 | the warning list holds at most one warning per listed term |
| Lint.ComputeWarnings | app/page.js:62-89 | the three loops build exactly the specified warning list, so recomputing on the same inputs yields the same list |
| Lint.RunPass | app/page.js:65-86 | the `forEach` loop over a wordlist pushes exactly the warnings of the specified pass, in wordlist order |
| Lint.WarningIff | app/page.js:62-89 | a warning for a term is in the list iff the term is on its pass's wordlist and fires |
| Lint.PassSound | app/page.js:65-86 | each emitted warning is the standard warning of a listed term that fires |
| Lint.PassComplete | app/page.js:65-86 | each listed term that fires has its warning emitted |
| Lint.PassOrdered | app/page.js:65-86 | a pass emits warnings in wordlist order |
| Lint.SilentPass | app/page.js:79-86 | a pass in which no term fires emits nothing |
| Lint.WordlistsDistinct | app/page.js:6-8 | no wordlist repeats a term |
| Lint.PassSorted | app/page.js:65-86 | each pass alone is sorted and holds warnings of its own kind only |
| Lint.WarningsOrdered | app/page.js:62-88 | jargon warnings come first, then superlatives, then vague audiences, each group in wordlist order |
| Lint.WarningsBounded | app/page.js:62-88 | at most one warning per (pass, term), so at most 19 + 13 + 9 = 41 warnings |
| Lint.WarningsWellFormed | app/page.js:66-84 | each warning carries its pass's message for its term, and its term is on that pass's list |
| Lint.AllTextAround | app/page.js:63 | each lower-cased field sits in the joined text between spaces or text ends |
| Lint.FieldJargon | app/page.js:63-70 | a jargon term inside any field, in any letter case, draws its warning |
| Lint.PlatformIsJargon | app/page.js:63-70 | "Platform" in any field draws the warning for "platform" |
| Lint.FieldSuperlative | app/page.js:72-77 | a superlative standing as a whole word in any field draws its warning |
| Lint.SuperlativeWarningIff | app/page.js:72-77 | a superlative warning for a term is emitted iff the term is listed and stands as a whole word in some lower-cased field |
| Lint.FirstMoverHasFirst | app/page.js:72-77 | "the first mover" holds the whole word "first" |
| Lint.TopNotchHasTop | app/page.js:72-77 | "top-notch" holds the whole word "top": a hyphen is a boundary |
| Lint.FirstlyLacksFirst | app/page.js:72-77 | "firstly" does not hold the whole word "first" |
| Lint.FirstlyExample | app/page.js:72-77 | fields that are empty or "firstly" draw no warning for "first" |
| Lint.FirstMoverExample | app/page.js:72-77 | a field "the first mover" draws the warning for "first" |
| Lint.TopNotchExample | app/page.js:72-77 | a field "top-notch" draws the warning for "top" |
| Lint.AudienceTestIsTokenTest | app/page.js:79-86 | for a whitespace-free term, the empty-field guard and the whole-field equality add nothing to the token test |
| Lint.VagueWarningIff | app/page.js:79-86 | a vague-audience warning for a term is emitted iff the term is listed and is a token of the lower-cased audience |
| Lint.BusinessesExample | app/page.js:79-86 | the audience "businesses" draws the warning for "businesses" |
| Lint.SmallBusinessesExample | app/page.js:79-86 | the audience "small businesses" draws the warning for "businesses" |
| Lint.DentistsExample | app/page.js:79-86 | the audience "dentists" draws no vague-audience warning |
| Drafts.Prepended | app/page.js:108 | after a save the new entry is first, the length is min(old + 1, 20), and the rest is the old list's prefix in order |
| Drafts.WithoutId | app/page.js:115 | deletion keeps exactly the entries with another id and never lengthens the list |
| Drafts.WithoutIdConcat | app/page.js:115 | deletion works piecewise, so it keeps the entries' order |
| Drafts.WithoutAbsentId | app/page.js:115 | deleting an absent id changes nothing |
| Drafts.WithoutIdIdempotent | app/page.js:115 | deleting twice is deleting once |
| Drafts.DeleteUndoesSave | app/page.js:108-115 | below the cap, deleting a freshly saved entry restores the previous list |
| Drafts.SaveAllKeepsNewest | app/page.js:108 | any series of saves leaves the newest twenty entries, newest first, so a 21st save evicts the oldest |
| Reply.StripQuotes | app/page.js:188 | each end is handled on its own: a quote at the start only goes (`"pitch` gives `pitch`), a quote at the end only goes (`pitch'` gives `pitch`), quotes at both ends both go, a lone quote gives the empty text, and unquoted text is unchanged |
| Reply.CleanPitch | app/page.js:188 | the cleaned pitch is no longer than the reply, empty for a blank reply, and the reply itself when no whitespace or quote is at its ends |
| Reply.StripQuotesOfQuoted | app/page.js:188 | a pitch between two quotes loses exactly those quotes |
| Reply.CleanPitchUnquotes | app/page.js:188 | a pitch wrapped in quotes and whitespace comes out exactly as written inside the quotes |
| Reply.CleanPitchKeepsPlainPitch | app/page.js:188 | a pitch with no whitespace or quote at its ends passes through unchanged |
| Reply.CleanPitchStripsLeadingQuote | app/page.js:188 | a reply `"pitch` comes out as `pitch` |
| Reply.CleanPitchStripsTrailingQuote | app/page.js:188 | a reply `pitch'` comes out as `pitch` |
| Reply.CleanPitchOfLoneQuote | app/page.js:188 | a reply that is one quote comes out empty |
| Reply.CleanPitchStripsOneQuotePerEnd | app/page.js:188 | only one quote goes from each end of a doubly quoted pitch |
| Reply.RemoveMarker | app/page.js:249 | removing fence markers never lengthens the text |
| Reply.StripFences | app/page.js:249 | the text handed to the parser is no longer than the reply and neither starts nor ends with whitespace |
| Reply.RemoveMarkerKeepsPlainText | app/page.js:249 | text without a backtick passes through marker removal untouched |
| Reply.RemoveMarkerAppend | app/page.js:249 | over two parts that no marker straddles, marker removal works part by part, up to a newline taken from the second part |
| Reply.RemoveTrailingMarker | app/page.js:249 | a marker of one repeated character appended to any text is removed again without touching the text |
| Reply.StripFencesOfPlainText | app/page.js:249 | for a reply without backticks, fence stripping is exactly `trim` |
| Reply.FencesAreTransparent | app/page.js:249 | a body fenced with "```json" or "```" plus newline before it and "```" after it is handed to the parser exactly as the bare body is, whatever the body holds |
| Reply.StripFencesIgnoresTrailingSpace | app/page.js:249 | whitespace after the reply, including a newline after the closing fence, does not change what reaches the parser |
| Reply.FencesWithTrailingSpace | app/page.js:249 | a fenced body followed by whitespace (for example a reply ending "```" and a newline) reaches the parser as the bare body does |
| Reply.FencedPlainBody | app/page.js:249 | a fenced body without backticks reaches the parser as the trimmed body |
| Reply.Fixes | app/page.js:252 | the parsed edits become list entries that are all phrase edits, and the page lists them back exactly, in order |
| Reply.Assemble | app/page.js:251-268 | a failed parse yields one entry; the list is empty exactly when the parse gave no edits and no rewrite |
| Reply.Interpret | app/page.js:247-268 | after fence stripping, a failed parse shows only the error edit and no rewrite, and a successful one shows exactly the parsed edits |
| Reply.AssembleShowsReply | app/page.js:251-259 | the page lists every parsed edit in order and offers the rewrite exactly when a non-empty one was returned |
| Reply.ParseFailureYieldsOneError | app/page.js:260-268 | a failed parse yields exactly one suggestion, of priority "high", and no rewrite |
| Reply.EditsShown | app/page.js:531 | the listed edits are phrase-edit entries of the list, and every phrase-edit entry is listed |
| Reply.RewriteShown | app/page.js:568 | an offered rewrite is an entry of the list, and none is offered exactly when every entry is a phrase edit |
| Reply.EditsShownConcat | app/page.js:531 | the phrase-edit filter works piecewise on the list |
| Reply.RewriteShownSkipsFixes | app/page.js:568 | the rewrite lookup passes over any leading phrase edits |
| Reply.FencedReplyReadsAlike | app/page.js:249-259 | whatever the parser, a fenced reply yields the same suggestion list as the bare one |
| Reply.Expand | app/page.js:557 | a replacement without `$` is inserted literally |
| Reply.ReplaceFirst | app/page.js:557 | a phrase that does not occur leaves the pitch unchanged; otherwise, for a replacement without `$`, the length changes by the difference of the two lengths |
| Reply.ExpandHead | app/page.js:557 | `$$` stands for one dollar sign and `$&` for the matched phrase |
| Reply.ApplyReplacesFirst | app/page.js:557 | applying an edit replaces the first occurrence of its phrase, and only that one (for a replacement without `$`) |
| Reply.ApplyExpandsDollarDollar | app/page.js:557 | a replacement "$$5" inserts "$5" |
| Reply.ApplyExpandsMatch | app/page.js:557 | a replacement starting "$&" re-inserts the matched phrase |
| Derived.NonEmpty | app/page.js:285 | the empty-piece filter keeps only non-empty pieces of its input |
| Derived.WordCount | app/page.js:285 | the word count equals the number of places where a scan steps from whitespace onto a word, and is zero exactly when the pitch is blank |
| Derived.WordPiecesAreWordStarts | app/page.js:285 | the non-empty pieces of `split(/\s+/)` are as many as the word starts of the text |
| Derived.CompleteIffFirstFiveFilled | app/page.js:286 | the pitch is complete iff the first five fields, the ones marked required, are non-empty |
| Derived.Flagged | app/page.js:288-293 | `filter(Boolean)` keeps at most all the questions and only questions from the list |
| Derived.EmailTestQuestions | app/page.js:288-293 | at most four questions, and each of the four is asked exactly when its condition holds |
| Derived.FlaggedIff | app/page.js:288-293 | `filter(Boolean)` keeps a question iff its condition holds |
| Derived.FlaggedOrdered | app/page.js:288-293 | `filter(Boolean)` keeps the questions in their listed order |
| Derived.QuestionsInOrder | app/page.js:288-293 | at most four questions are asked, always in the page's fixed order |
| Derived.ConcisenessCountsSpaces | app/page.js:292 | the conciseness question is asked iff the pitch is non-empty and holds at least thirty spaces |
| Derived.ConcisenessIgnoresOtherWhitespace | app/page.js:292 | words separated only by newlines or tabs never raise the conciseness question |
| Derived.VagueWarningAsksAudience | app/page.js:290 | a vague-audience warning always comes with the audience question |
| Derived.SuperusersExample | app/page.js:290 | "superusers" raises the audience question but no vague-audience warning, so the converse fails |
| Page.WithField | app/page.js:320 | editing a field changes that value of the inputs and no other |
| Page.AfterCopyEffect | app/page.js:91-95 | the editor shows either its own text or the generated pitch; an empty generated pitch, iterate mode, or no change in what the effect depends on leaves the editor's text; otherwise the generated pitch is copied into the editor |
| Page.FailureShowsError | app/page.js:91-95 | after a failed generation the editor shows the error text, unless the error text was already the generated pitch outside iterate mode |
| Page.RepeatedFailureKeepsEditor | app/page.js:91-95 | a second failure in a row outside iterate mode leaves the editor's text as it was |
| Page.Critique | app/page.js:236-268 | a failed request or a failed parse shows only the error edit and no rewrite; a parsed reply shows exactly its edits |
| Page.PitchBuilder.constructor | app/page.js:11-35 | the initial state: empty fields, investor audience, one sentence, nothing generated, no drafts, and warnings computed for the empty inputs |
| Page.PitchBuilder.RunCopyEffect | app/page.js:91-95 | when the generated pitch or the iterate flag changed, a non-empty generated pitch outside iterate mode replaces the editor's text |
| Page.PitchBuilder.UpdateInput | app/page.js:320 | the field changes and the warnings are those of the new inputs; nothing else changes |
| Page.PitchBuilder.SelectAudience | app/page.js:358 | selects the audience mode |
| Page.PitchBuilder.SelectLength | app/page.js:385 | selects the length mode |
| Page.PitchBuilder.EditPitch | app/page.js:442 | typing replaces the editor's text |
| Page.PitchBuilder.SaveToDrafts | app/page.js:97-112 | an empty editor saves nothing; otherwise the editor's pitch and the current modes are prepended and the list is capped at 20 |
| Page.PitchBuilder.RemoveFromDrafts | app/page.js:114-116 | deletes the entries with the given id |
| Page.PitchBuilder.RestoreFromDrafts | app/page.js:118-124 | the draft's pitch becomes the generated and edited pitch, its modes are selected, and the draft list is unchanged |
| Page.PitchBuilder.GenerateWithAI | app/page.js:126-198 | nothing happens while a required field is empty; otherwise the suggestions are cleared and iterate mode is left; a reply becomes the cleaned pitch; a failure sets the error text as the generated pitch, and the editor follows the copy effect, so it shows the error text unless the error text was already the generated pitch outside iterate mode |
| Page.PitchBuilder.ShowGeneration | app/page.js:132-196 | the page stays valid; the suggestions are cleared and iterate mode is left; a cleaned pitch fills both the generated pitch and the editor, and a failure sets the error text as the generated pitch, which the copy effect carries into the editor unless the error text was already the generated pitch outside iterate mode |
| Page.PitchBuilder.IterateWithAI | app/page.js:200-270 | nothing happens with an empty editor; otherwise the suggestion list is the one assembled from the reply |
| Page.PitchBuilder.ToggleIterate | app/page.js:488-493 | flips iterate mode and asks for a critique when switching it on with a pitch; switching it off puts the generated pitch back into the editor when the generated pitch is non-empty, and otherwise leaves the editor alone |
| Page.PitchBuilder.ApplySuggestion | app/page.js:556-559 | the editor's text becomes the first-occurrence replacement |
| Page.PitchBuilder.ApplyImprovedVersion | app/page.js:273-277 | the rewrite becomes both the generated and the edited pitch, and the suggestions are cleared |
| Page.PitchBuilder.PitchWordCount | app/page.js:285 | the displayed count is zero exactly when the editor is blank |
| Page.SaveEditRestore | app/page.js:97-124 | saving, editing and then restoring the newest draft reproduces the pitch and modes active at save time and keeps the saved list |

## Left out

- `app/api/generate/route.js` is not part of this model. It is a network relay to the external model API and holds the credential check.
- `app/layout.js` is not part of this model; it holds static metadata and markup only.
- The prompt texts (`app/page.js:135-174`, `205-234`) are left out, with the length and audience guide tables. They are string interpolation whose result only the external model reads.
- The `fetch` calls, the HTTP status check and `JSON.parse` are left out; they are parameters of the handlers (a reply `Option` and a parser function).
- Page.PitchBuilder.GenerateWithAI and Page.PitchBuilder.IterateWithAI: each runs as one atomic step. Concurrent requests and their interleaving are not modelled, so the `isGenerating`/`isIterating` flags and the disabled buttons they drive are left out.
- The copy effect runs once, at the end of a handler, on the values from before and after it. React's render scheduling is not modelled. For the handlers here, the final editor text is the same as under React's intermediate renders.
- The clipboard, the timed "copied" and "saved" notifications, and the email-test panel toggle are left out. They change only display flags.
- Draft ids and display strings are parameters. `Date.now()` and locale date and time formatting are not modelled.
- Text.Lower: models `toLowerCase` on ASCII letters only. Non-ASCII case mappings are left out, and the warnings can then differ from the page's. JavaScript lower-cases "bloc\u212Achain" (with the Kelvin sign) to "blockchain", which draws the jargon warning; the model draws none. JavaScript lower-cases "first\u0130" to "first" followed by "i" and a combining dot, so "first" is not a whole word and no warning follows; in the model the superlative warning for "first" fires.
- Reply.Parsed: holds only the two fields the page reads. An absent array or string field reads as empty. A critique item that carries its own `type` key is not modelled; the page would hide such an item from the edit list.
- Lint.Fires: the superlative pass is modelled as a plain whole-word test. This is faithful because no superlative contains a regular-expression metacharacter, and the lower-cased text makes the `i` flag redundant. Fires carries no contract of its own: what it means for each pass is stated by Lint.WarningIff, Lint.SuperlativeWarningIff, Lint.VagueWarningIff and Lint.FieldJargon.
- Derived.IsComplete: carries no contract of its own. Its meaning is stated by Derived.CompleteIffFirstFiveFilled.
- Lint.Values: carries no contract of its own; it lists the seven fields in declaration order (`Object.values(inputs)`, `app/page.js:63`), and Lint.AllTextAround and Lint.SuperlativeWarningIff state what the passes see of it.
- Lint.AllText: carries no contract of its own; it is the joined, lower-cased text of `app/page.js:63`, and Lint.AllTextAround states where each field sits in it.
- Text.Join: carries no contract of its own; Text.JoinAround and Text.SplitOnJoin state what `join` builds.
- Lint.Message: carries no contract of its own; Lint.WarningsWellFormed states that every warning carries its pass's message (`app/page.js:68`, `75`, `83`).
- Lint.Warn: carries no contract of its own; Lint.WarningIff, Lint.PassSound and Lint.WarningsWellFormed state which warnings it builds.
- Derived.AsksPlatform: carries no contract of its own; Derived.EmailTestQuestions states that the platform question (`app/page.js:289`) is asked exactly when it holds.
- Derived.AsksAudience: carries no contract of its own; Derived.EmailTestQuestions and Derived.VagueWarningAsksAudience state what it decides (`app/page.js:290`).
- Derived.AsksDifferentiator: carries no contract of its own; Derived.EmailTestQuestions states that the differentiator question (`app/page.js:291`) is asked exactly when it holds.
- Derived.AsksConciseness: carries no contract of its own; Derived.EmailTestQuestions and Derived.ConcisenessCountsSpaces state what it decides (`app/page.js:292`).
