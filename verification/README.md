# A model of the odai inference layer

This project models, in Dafny, the parts of the repository where a small local model's untrusted
output and its sessions are handled, and proves what those parts promise.

- **JSON hardening** (`src/json.mts`): the bracket repair, code fences, prefill merging, the staged
  fallback parse and key normalisation. `JsonScan` is an independent string-aware bracket scanner,
  `JsonText` a strict parser after sections 2 to 7 of RFC 8259 (it stands for `JSON.parse`), and
  `JsonPrint` the compact printer; `JsonSpacing` shows that the parser accepts nothing but prints with
  white space. `JsonTidy` connects the parser to the scanner; `JsonFenceLaws`,
  `JsonMergeLaws`, `JsonRecovery` and `JsonTruncation` hold what whole replies give (`JsonWeights` counts
  characters for them), and `JsonExamples` the inputs that go wrong.
- **Session ownership** (`src/cancellation.mts`, `src/session.mts`, `src/model.mts`,
  `src/lifecycle.mts`): `Cancellation` is `awaitCancellable`, as a state machine and as the class of
  its callbacks. `Sessions` is one transition system for a whole model: creation with its fallback
  ladder, the identity probe, every request with its retries, aborts by the owner and by callers,
  and the final release. A promise that has settled but has not been read yet is a state of its
  own, so an abort can fall between any two of the nested races. `SessionsShape`, `SessionsLaws`
  and `SessionsRuns` prove what every run keeps, `SessionsVariant` that the model's own steps come to
  an end, `SessionsRaces` that every race inside the system is a run of `awaitCancellable`,
  `SessionsEnds` how the ladder, the requests and the detection end, and `IdentityProbe` and
  `StructuredRequest` tie the callbacks of `detectSessionModelName` and the retry loop of
  `promptStructured` to the same steps.
- **The shim protocol** (`spawnShim` in `src/backends/apple-fm-shim.mts`): `Shim`, as a state machine
  and as the class of its event handlers.
- **Streaming** (`src/stream.mts`, `src/backends/llama-server.mts`): `Framing` (lines that do not depend
  on where chunks are cut), `Sse` with `SseLaws`, and `Stream`.
- **Control tokens** (`src/control-tokens.mts`): `ControlTokens`, `ControlTokensLaws` and
  `ControlTokensTemplates`.
- **OSV ranges** (`src/osv.mts`, `src/semver.mts`): `Semver` and `Osv`.

Where the source is a loop or an object with changing fields, the model is a method or a class,
proved equal to a specification function; the theorems are lemmas about that function.

## Findings

Where the code does less than its documentation or its tests say, or than one would expect, the
model follows the code, a lemma gives an input, and another gives the exact condition.

- `repairJson` does not always give one object: `{][]` becomes `{}[]` (`test/json-fuzz.test.mts:5-6`
  and the comment at `src/json.mts:236-246` say otherwise). It gives exactly one object if and only if
  no closer unwinds past the root, and only then, or when it gives up, is one pass a fixed point.
- Noise around an object is not always skipped. A fence that is complete in the noise decides alone:
  its content gives the result. Without one, an object that the clean-up leaves alone is recovered if
  and only if the body, as it is or after either clean-up, is not a JSON value of another kind; two
  curly quotes around `{}` make it a string.
- An object that the clean-up changes is lost as soon as anything stands around it, contrary to the
  comments at `src/json.mts:110-113` and `src/json.mts:164-168`: behind a word, `{"a":"\""}` comes back
  as `{}`, and so does `{"a": "\""}`. If no member of it is overridden, however it is spaced, it is
  recovered if and only if the body is its own text, unless the text behind it brings as many
  backslashes as the clean-up takes away. Such a text can restore an object without typographic
  characters; there the repaired text decides. Behind noise it decides for objects with an overridden
  member too: such an object can come back when only what is overridden is changed.
- Closers missing from an object are not always put back: they are if and only if what is left of every
  run of closers is left of no shorter beginning of the run; `{"a":{"b":1}` is given up.
- A reply that continues the prefill with a bracket is cut off from it as soon as anything visible
  stands behind the object: after the prefill `{"a":`, the reply `[]} x` gives the empty object. A
  continuation is put behind the prefill if and only if it holds no fence, does not repeat the prefill,
  and does not open with a bracket, or is no JSON and ends with the object.
- A truncated reply can be completed by the clean-up stages, as when a string of it holds an escaped
  quote. It gives the empty object if and only if no form of it is strict JSON and the repair of the
  unescaped form gives up, behind noise and in an opened fence too.
- A merge of stream deltas is their concatenation if and only if no delta strictly extends the
  non-empty text before it.
- A shim reply that arrives after its request timed out settles the next request. The k-th line
  settles the k-th request if and only if every line met a waiting request and no request was removed
  before a younger one was answered.
- `parseControlTokens` keeps a `\r\n` where the template has `\r\r\n` within a block, between visible
  text; exactly then, printing what it parsed and parsing again changes the content.
- Key normalisation is idempotent if and only if it is on the canonical names and the synonyms in the
  map; chained synonyms are renamed again.
- The OSV walk and the OSV Schema evaluation, which sorts the events by version first, differ in two
  cases. On sorted events they differ if and only if an `introduced` directly follows an `introduced`
  of strictly lower version. On events out of order they agree if and only if they agree on the
  versions the events name; a `fixed` before the lower `introduced` it should close is an example
  where they do not.
- A server-sent `data: null` makes `parseSseLine` throw; a stream throws so if and only if such a line
  comes with no `[DONE]` before it.

## Model

| member | source | states |
|---|---|---|
| JsonRepair.RepairJson | src/json.mts:247-288 | The loop over `stack`, `out`, `inString` and `escaped` computes the specification of the repair. |
| JsonRepair.Buffers.RepairJsonCloser | src/json.mts:290-305 | A closer pops and writes the closers of everything above its match; at an empty stack it is dropped and the scan goes on. |
| JsonRepair.RepairBalancesAndConserves | src/json.mts:247-305 | For every input the result is balanced with matching kinds, ends outside strings and starts with `{`; apart from closers outside strings it is the scanned part of the input, character for character. |
| JsonRepair.RescanKeeps | src/json.mts:254-287 | From any point of the scan the text written is what the bracket scanner reads back as the kept stack and mode, and conserves all but the closers. |
| JsonRepair.PassKeeps | src/json.mts:247-288 | A pass that does not give up ends with an empty stack, outside any string, having written a text that starts with `{`. |
| JsonRepair.ConsumeKeeps | src/json.mts:260-286 | Each character keeps the stack equal to what is open in the output, and only ever appends. |
| JsonRepair.UnwindWrites | src/json.mts:296-301 | The closers written on unwinding close exactly the popped brackets. |
| JsonRepair.ScannedSplits | src/json.mts:247-288 | A raw reply is its noise, the part scanned, and the untouched rest. |
| JsonRepairLaws.PassesThrough | src/json.mts:236-246 | A well-formed object text after anything without `{` and before anything is returned byte for byte. |
| JsonRepairLaws.CloserCloses | src/json.mts:290-305 | Where the strict scan of what was written still needs some closers, a closer among them writes them up to its first occurrence: it closes exactly the brackets above the nearest one of its kind, and then that one, and the pass returns when that was the root. Any other closer writes them all and is dropped. |
| JsonRepairLaws.DroppedClosersArePutBack | src/json.mts:290-305 | Deleting closers of both kinds from an object, in any number of places and at any depth, is undone byte for byte, whatever surrounds it, as long as what is left of each run of closers is left of no shorter beginning of the run. |
| JsonRepairLaws.PutBackExactly | src/json.mts:290-305 | With nothing behind the object that condition is exact: otherwise the pass does not return it. |
| JsonRepairLaws.LastOfItsKind | src/json.mts:290-305 | It holds for every run whose last closer is kept and of a kind that does not occur before it: any `]` may be missing before a `}`, and any `}` before a `]`. |
| JsonRepairLaws.ProperPrefixGivesUp | src/json.mts:236-246 | Every proper prefix of a well-formed object text gives exactly `{}`. |
| JsonRepairLaws.TruncationGivesUp | src/json.mts:236-246 | The same for a prefix of a text some such closers were dropped from: truncation is never completed. |
| JsonRepairLaws.OneObjectUnlessUnwound | src/json.mts:247-305 | A pass that does not give up yields the text of exactly one object if and only if no closer unwinds past the root. |
| JsonRepairLaws.SecondPassIsFixed | src/json.mts:247-305 | For every input the second pass yields one object and is a fixed point. |
| JsonRepairLaws.FixedUnlessUnwound | src/json.mts:247-305 | The first pass is a fixed point if and only if it gave up or nothing unwound past the root. |
| JsonRepairLaws.SecondPass | src/json.mts:247-305 | A second pass extracts the first object of the first pass's result. |
| JsonRepairLaws.UnwoundExample | src/json.mts:296-301 | `{][]` is repaired to `{}[]`, which is neither one object nor ends with a curly bracket. |
| JsonScan.Frame | src/json.mts:254-287 | What is balanced leaves whatever was open below it untouched. |
| JsonScan.FirstObject | src/json.mts:247-288 | A balanced text that starts with `{` starts with exactly one object text. |
| JsonText.ValueConcat | src/json.mts:144-182 | The strict parser reads a value the same whatever follows it, except a number at the very end. |
| JsonTidy.StrictIsTidy | src/json.mts:75-82 | Text the strict parser accepts is balanced, ends outside strings, and uses only JSON's characters outside them. |
| JsonTidy.StrictObjectIsObjectText | src/json.mts:236-246 | The text of a strict JSON object is an object text of the bracket scanner, so the repair laws apply to it. |
| JsonPrint.ParsePrint | src/json.mts:144-182 | Parsing the compact print of a value gives the value back. |
| JsonPrint.ReadsBack | src/json.mts:144-182 | A printed value is read back in front of any text that cannot continue a number. |
| JsonSpacing.ParsedIsPrinted | src/json.mts:75-82 | Strict JSON without an overridden member is the compact print of its value once the white space outside strings is taken out; and every parsed value prints to text that gives it back. |
| JsonPipeline.ExtractJsonFence | src/json.mts:30-54 | The walk over `lineStart` finds the content between an opening fence and the first closing line, or nothing. |
| JsonFenceLaws.FenceIsExtracted | src/json.mts:30-54 | A fenced body without a fence line of its own is extracted, trimmed, whatever white space (a carriage return too) is on the fence lines and whatever follows the closing one. |
| JsonMergeLaws.OpeningTags | src/json.mts:31-41 | Three backticks open a fence alone and with the tag `json`, in any white space, and with no other tag. |
| JsonMergeLaws.FenceFreeLines | src/json.mts:42-53 | A text holds no closing fence if and only if none of its lines, trimmed, is three backticks. |
| JsonMergeLaws.ClosingLines | src/json.mts:42-53 | A line of three backticks closes a fence, in any white space and whatever follows it. |
| JsonPipelineLaws.NoFenceWithout | src/json.mts:30-54 | Text that does not start with a backtick holds no fence. |
| JsonFenceLaws.FencedObjectIsParsed | src/json.mts:144-182 | The object inside a fence is parsed, since no line of strict JSON can close the fence. |
| JsonFenceLaws.FencedNoiseIsRecovered | src/json.mts:144-182 | So is an object that the clean-up leaves alone, within noise that starts no value, inside a fence, if no line of it all is a fence. |
| JsonFenceLaws.JsonLinesAreNoFence | src/json.mts:30-54 | No line that starts within strict JSON is a fence, whatever follows the JSON. |
| JsonFenceLaws.FenceAfterObject | src/json.mts:30-54 | Behind noise without a complete fence line, a fence can close only after the whole object. |
| JsonPipelineLaws.PrefillIsRestored | src/json.mts:84-104 | If the prefill leaves a bracket open and p + c is strict JSON, the merge gives p + c for an echo, and for a bare continuation if and only if that does not itself start with the prefill. |
| JsonMergeLaws.MergesExactly | src/json.mts:84-104 | For every prefill and reply: a fenced reply and an echo are kept; any other is put behind the prefill if it does not open with a bracket, and if it does, exactly when only the two together parse. |
| JsonMergeLaws.ContinuationIsMerged | src/json.mts:84-104 | A reply that completes the prefill to an object, with anything behind it, is put behind the prefill if and only if it holds no fence, does not repeat the prefill, and does not open with a bracket, or is no JSON and nothing visible follows the object. |
| JsonMergeLaws.ContinuationIsRecovered | src/json.mts:84-182 | Then the schema is given the object, whatever follows it, if the reply does not open with a bracket and the clean-up leaves the object alone. |
| JsonMergeLaws.EchoIsRecovered | src/json.mts:84-182 | So it is when the reply repeats the prefill, up to white space at its end. |
| JsonExamples.BracketedContinuationIsLost | src/json.mts:84-182 | A prefill and an array that closes it are merged; with a word behind them the array alone is kept and the schema is given the empty object. |
| JsonFenceLaws.RestartIgnoresPrefill | src/json.mts:84-104 | A reply that is the whole object again is kept as it is under any prefill, and the schema is given that object. |
| JsonFenceLaws.FencedRestartIgnoresPrefill | src/json.mts:84-104 | Every fenced reply is kept under any prefill, and what its fence holds is what gets parsed. |
| JsonPipelineLaws.ContinuationIsUnbalanced | src/json.mts:84-104 | Such a continuation alone is never strict JSON, by bracket depth. |
| JsonPipelineLaws.EchoHasNoFence | src/json.mts:84-104 | Strict JSON is never taken for a fence. |
| JsonFenceLaws.NoiseIsRecovered | src/json.mts:144-182 | A strict object that the clean-up leaves alone, behind noise without `{` and without a complete fence, and before anything, is what the schema is given, fenced or not, when the body does not start with a value or, after clean-up, with a quotation mark. |
| JsonRecovery.RecoveredExactly | src/json.mts:144-182 | For every object whose strings and numbers are all in its value (none of its members is overridden), every noise without `{` and without a complete fence, and every suffix with fewer backslashes than the object has escaped quotes (any suffix if it has none): without a synonym map the object is recovered if and only if the body is its own text, or the clean-up leaves it alone and no form of the body is another value. |
| JsonRecovery.RecoveredByRepair | src/json.mts:144-182 | For such an object and every suffix: if and only if the body is its own text, or the object holds no typographic character, no form of the body is another value, and the repair of the unescaped body reads as the object. |
| JsonRecovery.MangledIsLost | src/json.mts:144-182 | For every suffix: such an object is lost if the clean-up changes it, unless the body is its own text, or it holds no typographic character and the suffix at least as many backslashes as the clean-up takes away. |
| JsonRecovery.UnoverriddenKeepsStrings | src/json.mts:144-182 | All this holds for every strict object without an overridden member at any depth, however it is spaced. |
| JsonRecovery.PrintKeepsStrings | src/json.mts:144-182 | And for every printed object. |
| JsonRecovery.RecoveredBehindNoise | src/json.mts:144-182 | For every reply whose body does not start with `{`, and every object, overridden members or not: it is recovered if and only if no form of the body is another value and the repair of the unescaped body reads as it. |
| JsonWeights.ValueWeighs | src/json.mts:144-182 | A value and the rest behind it hold no character more often than the text they were read from, and exactly as often where nothing is overridden and JSON has that character in strings and numbers only. |
| JsonRecovery.RepairKeepsObjects | src/json.mts:247-288 | Text that strict JSON reads as an object is still read as that object after the repair. |
| JsonExamples.UnescapingLosesTheObject | src/json.mts:144-182 | Behind a word, `{"a":"\""}` comes back as the empty object, with no fence and no other value in sight. |
| JsonExamples.UnescapingLosesTheSpacedObject | src/json.mts:144-182 | So does `{"a": "\""}`, with a blank between its tokens. |
| JsonExamples.OverriddenComesBack | src/json.mts:144-182 | An object whose only typographic character is in an overridden member comes back from behind a word, although the clean-up changes it. |
| JsonExamples.SuffixRestoresTheObject | src/json.mts:144-182 | An object the clean-up changes that a suffix with enough backslashes restores, by assigning the broken member again. |
| JsonFenceLaws.RecoveredUnlessAnotherValue | src/json.mts:144-182 | For an object that the clean-up leaves alone, every noise without `{` and without a complete fence, every suffix and every synonym map, the object is recovered if and only if the body in none of its three forms is a JSON value other than an object. |
| JsonFenceLaws.RecoveredUnlessAString | src/json.mts:144-182 | For such an object, if the body starts with no value of its own, only a JSON string can take its place, again if and only if. |
| JsonFenceLaws.FenceInNoiseHidesTheObject | src/json.mts:144-182 | If a fence is complete in the noise, its content alone decides the result, for every object and every suffix. |
| JsonFenceLaws.BodyHoldsTheObject | src/json.mts:144-182 | Otherwise the body holds the whole object, with noise of the reply before it. |
| JsonRecovery.StagesExactly | src/json.mts:144-182 | The four parses give an object without overridden members if and only if nothing stands around it, or it holds no typographic character, no form is another value, and the repaired text reads as it. |
| JsonPipelineLaws.StagesRecoverUnlessAnotherValue | src/json.mts:144-182 | The four parses give an object that the clean-up leaves alone if and only if none of the three forms is another value, for any noise without `{`. |
| JsonPipelineLaws.StagesRecoverUnlessAString | src/json.mts:144-182 | The same for such an object with strings only, when the noise starts with no value. |
| JsonPipelineLaws.StagesRecover | src/json.mts:144-182 | The four parses give an object that the clean-up leaves alone behind noise that can start no value before or after the clean-up. |
| JsonPipelineLaws.NoiseParsesToNothingElse | src/json.mts:144-182 | No earlier parse stage can yield another value than the object. |
| JsonPipelineLaws.UnescapeKeeps | src/json.mts:313-315 | Text without an escaped quote is kept by the unescaping, whatever follows. |
| JsonPipelineLaws.NormalizeKeeps | src/json.mts:114-121 | Text without the typographic characters is kept by the normalisation. |
| JsonMergeLaws.TypesetIsRead | src/json.mts:106-159 | An object with any of its commas, colons, semicolons and quotation marks in full-width or curly form is read as the object if and only if it is not another value as it stands. |
| JsonMergeLaws.EscapedObjectIsRead | src/json.mts:161-171 | An object without backslashes that a model has escaped as if for a string is read as the object. |
| JsonMergeLaws.UnescapeUndoesEscape | src/json.mts:313-315 | Unescaping takes such an escape away again. |
| JsonFenceLaws.CurlyQuotesSwallowTheObject | src/json.mts:144-182 | An empty object between curly quotes comes back as a string. |
| JsonFenceLaws.HiddenObject | src/json.mts:144-182 | Behind a fence that holds no object, every object is replaced by an empty one. |
| JsonTruncation.TruncatedExactly | src/json.mts:144-182 | For every reply that breaks off within its object, with any noise without `{` before it and an opened fence too: the schema is given the empty object if and only if no form of the trimmed reply is strict JSON and the repair gives up. |
| JsonTruncation.BareTruncatedExactly | src/json.mts:144-182 | Without noise: if and only if the normalised prefix is no strict JSON and the repair of the unescaped one gives up. |
| JsonTruncation.UnclosedFenceExactly | src/json.mts:144-182 | In a fence that is opened and never closed: if and only if the repair gives up. |
| JsonTruncation.TruncationGivesNothing | src/json.mts:144-182 | So every reply that breaks off within an object that the clean-up leaves alone gives the empty object, behind noise that starts no value and in an opened fence too. |
| JsonTruncation.RepairMakesNoEmpty | src/json.mts:144-182 | A repair that does not give up on such a prefix never yields the empty object. |
| JsonExamples.UnescapingCompletes | src/json.mts:144-182 | With an escaped quote in a string, the unescaping stage can complete what was cut off: an input for which truncation is not refused. |
| JsonKeys.NormalizeIsIdempotent | src/json.mts:124-142 | Normalising every JSON tree twice is normalising it once if and only if renaming twice is renaming once for each canonical name and each synonym in the map. |
| JsonKeys.NamesDecide | src/json.mts:56-73 | Renaming is idempotent on every key if and only if it is on those names. |
| JsonKeys.UnclaimedIsStable | src/json.mts:56-73 | That holds when canonical names are distinct ignoring case and none is another entry's synonym. |
| JsonKeys.ChainedSynonyms | src/json.mts:124-142 | For chained synonyms it is not, and a second pass renames again. |
| JsonKeys.NormalizeKeepsMembers | src/json.mts:124-142 | An object keeps its size if and only if no two of its keys share a canonical name, and then every member keeps its place under its canonical key. |
| JsonKeys.EmptyMapIsIdentity | src/json.mts:124-142 | The empty synonym map changes no JSON tree. |
| JsonKeys.CanonicalOrUnnamed | src/json.mts:56-73 | A key gets the canonical name of the first entry that claims it, and is kept if none does. |
| JsonKeys.NormalizeCanonises | src/json.mts:124-142 | If no two keys of an object share a canonical name, at any depth and in arrays too, the tree keeps its shape and its leaves, and every key becomes its canonical name. |
| JsonKeys.KeysAreCanonical | src/json.mts:124-142 | In any case every key of the result, at any depth, is the canonical name of a key of the source. |
| JsonKeys.LastOneWins | src/json.mts:135-141 | Where keys of an object share a canonical name, the last of them gives the value. |
| JsonMergeLaws.SchemaGetsCanonicalKeys | src/json.mts:144-182 | With a synonym map the schema is given what it is given without, under the canonical names, in the sense of these laws. |
| Cancellation.DeliveredOnce | src/cancellation.mts:9-44 | In every order of aborts and settlement a delivered value is passed on or disposed of, once and not both, and disposed of only if an abort came first. |
| Cancellation.StepIsSound | src/cancellation.mts:9-44 | The same for each single event, which also settles the caller's promise. |
| Cancellation.FirstEventDecides | src/cancellation.mts:9-44 | The first of the aborts and settlements decides what the caller's promise settles with. |
| Cancellation.AwaitCancellable.constructor | src/cancellation.mts:9-18 | The race starts unsettled and listening. |
| Cancellation.AwaitCancellable.OnAbort | src/cancellation.mts:11-17 | The listener rejects once, and does nothing after a settlement. |
| Cancellation.AwaitCancellable.OnResolve | src/cancellation.mts:23-35 | A value resolves the promise or, after an abort, is disposed of. |
| Cancellation.AwaitCancellable.OnReject | src/cancellation.mts:36-42 | An error rejects the promise unless an abort already has. |
| SessionsRuns.ExactlyOnce | src/model.mts:76-229 | In every reachable state each session is held by exactly one owner or was destroyed exactly once, never both and never twice, and was prompted at most once. |
| SessionsRuns.QuietIsClean | src/model.mts:187-229 | When no promise, race or timer can take a step, creation has ended, every request has finished, and every session but a base in its owner's hands was destroyed exactly once: nothing leaks and nothing gets stuck. |
| SessionsRuns.BaseOutlivesRequests | src/lifecycle.mts:42-62 | The base is destroyed by no request and no probe; only an abort during detection and the owner's release destroy it, once. |
| SessionsRuns.DestroyedForGood | src/model.mts:231-235 | Over every continuation of a run a session destroyed once is not destroyed again. |
| SessionsRuns.NoCreateAfterAbort | src/session.mts:54-94 | Once the owner has aborted, no continuation of the run calls the factory again: not the creation, its probe, or any request, old or new. |
| SessionsRuns.AttemptsAreBounded | src/model.mts:108-137 | A request acquires a session at most once per attempt, prompts at most what it acquired, sees its owner's abort; every acquisition calls the factory at most three times, and again only after an unsupported option. |
| SessionsEnds.LadderEndsRight | src/session.mts:54-94 | Over every run, for the base, the probe and every request: when the ladder has ended, it has failed if and only if its last attempt was rejected (or none was made, the owner having aborted), and then the error was no unsupported option, or it was the third attempt, or the owner has aborted; and it has returned exactly the session its last attempt was fulfilled with. |
| SessionsEnds.ClonesEndRight | src/model.mts:56-64 | Where a session is cloned, it has failed only if the clone was rejected and has returned what the clone gave; where the base is shared, nothing fails. |
| SessionsEnds.RequestsEndRight | src/model.mts:94-137 | Over every run a request goes on only while every answer asks for another attempt, and has finished only when it was aborted or refused a session, its last answer asked for nothing more, or as many answers have come as attempts were asked for; while it is not aborted it prompts every session it takes. |
| SessionsEnds.NoPromptAfterAbort | src/model.mts:111-132 | Once a request has been aborted it prompts no session any more. |
| SessionsEnds.AbortsReach | src/model.mts:95-101 | A request has been aborted if and only if its own caller or the owner has; and the owner has if and only if it had before, did so during the run, or released the model. |
| SessionsEnds.DetectionComesFirst | src/model.mts:216-229 | An interactive model never probes; any other is handed out only after its one probe has settled. |
| SessionsEnds.BaseIsTheCreated | src/model.mts:207-235 | The base that is identified and handed out is the session the creation was fulfilled with, and there is none any more only after a refused creation, an aborted detection, or the release. |
| SessionsRuns.PendingMoves | src/model.mts:237-274 | Whatever still holds a session or waits has a step to take that does not come from outside and brings the model closer to rest. |
| SessionsRuns.ComesToRest | src/model.mts:187-229 | From every reachable state the model's own steps lead to rest, and there are no more of them than its weight. |
| SessionsRuns.OwnStepsAreBounded | src/model.mts:76-229 | Over every run the steps of promises, races, retries and timers are bounded by a fixed amount and the attempts that were asked for. |
| SessionsVariant.StepLowers | src/model.mts:187-274 | Every such step lowers the weight of the model. |
| SessionsVariant.OutsideWeighs | src/model.mts:76-229 | Of what comes from outside, only a new request raises it, by an amount its attempts bound. |
| SessionsRaces.RacesAreRuns | src/cancellation.mts:9-44 | In every reachable state every race, of an attempt or around an acquisition, is in the state `awaitCancellable` reaches by the aborts and settlements that race has heard in the run, and what it disposed of has been destroyed. |
| SessionsRaces.DisposedOnce | src/cancellation.mts:22-35 | A session a race disposed of is the one value delivered to it, came after its abort, was destroyed exactly once, and is held by nobody. |
| SessionsRaces.ArrivalDestroys | src/cancellation.mts:23-35 | When a session reaches a race, that very step destroys it if the race was already settled, and destroys nothing otherwise; the base is spared. |
| SessionsRaces.StepRuns | src/model.mts:76-229 | Every event extends what each race has heard by at most one event, and the race moves by the step of `awaitCancellable` for it. |
| SessionsLaws.StepBalances | src/model.mts:76-229 | Every event keeps the account of every session: held plus destroyed equals one if it came into being and zero otherwise. |
| SessionsLaws.SupplyConserves | src/session.mts:54-94 | Creating and falling back neither loses nor duplicates a session; one that arrives when its attempt no longer waits is destroyed by that very step, and no other step destroys one. |
| SessionsLaws.OuterConserves | src/model.mts:207-211 | The race around the creation or a clone passes its session on or destroys it. |
| SessionsLaws.RequestConserves | src/model.mts:108-137 | Every step of the retry loop accounts for its session, on every exit. |
| SessionsLaws.RequestPrompts | src/model.mts:111-132 | A session that was prompted is being prompted or has been destroyed. |
| SessionsLaws.ProbeConserves | src/model.mts:242-272 | Every callback of the identity probe accounts for its session. |
| SessionsLaws.AbortBalances | src/lifecycle.mts:54-62 | An abort itself neither destroys nor drops a session. |
| SessionsShape.StepKeeps | src/model.mts:187-229 | Every event keeps the shape: attempts one after the other and at most three, only the last acquisition undecided, prompts bounded by attempts, requests aborted with their owner. |
| SessionsShape.SupplyKeeps | src/session.mts:65-94 | Only the last attempt of the ladder is undecided, there are at most three, and a factory's session is never the base. |
| SessionsShape.RequestKeeps | src/model.mts:108-137 | The attempts of a request bound its acquisitions and prompts, and only a waiting request has an undecided race. |
| SessionsShape.RequestMoves | src/model.mts:108-137 | A request that is not finished, or still holds a session, has a step to take. |
| SessionsShape.OuterMoves | src/cancellation.mts:21-43 | A session on its way, or one a race waits for, has a step to take. |
| IdentityProbe.Detection.constructor | src/model.mts:242-257 | Detection starts unsettled with its timer running. |
| IdentityProbe.Detection.Finish | src/model.mts:245-255 | The first call settles the promise, stops the timer and destroys an arrived probe that is not the base; later calls do nothing. |
| IdentityProbe.Detection.OnTimer | src/model.mts:256 | The timeout resolves without a name. |
| IdentityProbe.Detection.OnSession | src/model.mts:257-266 | A session that arrives after settling is destroyed at once unless it is the base. |
| IdentityProbe.Detection.OnNoSession | src/model.mts:271 | A failed clone resolves without a name, once. |
| IdentityProbe.Detection.OnIdentity | src/model.mts:267-270 | The identity resolves the promise if nothing has before. |
| StructuredRequest.RetryLoop.constructor | src/model.mts:94-111 | A request starts with `retries` + 1 attempts, none if `retries` is negative, and no answer. |
| StructuredRequest.RetryLoop.Turn | src/model.mts:101-118 | An aborted request is rejected before any acquisition, and only then; with no attempt left the last failure is returned; otherwise a session is acquired. |
| StructuredRequest.RetryLoop.OnSession | src/model.mts:114-127 | The session that arrives is prompted unless the request is aborted. |
| StructuredRequest.RetryLoop.OnRefusal | src/model.mts:114-118 | A refused acquisition rejects the request. |
| StructuredRequest.RetryLoop.OnAnswer | src/model.mts:119-146 | The session is destroyed unless it is the base, on every exit; the request returns the first success under the model's name, goes on after a failure, and is rejected when the prompt throws. |
| StructuredRequest.StampFillsIn | src/model.mts:138-145 | The stamp fills in a missing model name and changes nothing else of a result. |
| Shim.ReachableIsConsistent | src/backends/apple-fm-shim.mts:305-423 | In every reachable state a request is unsettled iff it is pending iff its timer is armed, and after exit none is unsettled. |
| Shim.StepKeeps | src/backends/apple-fm-shim.mts:305-423 | Every event keeps that, keeps replies in request order, and changes no settlement. |
| Shim.SettledOnce | src/backends/apple-fm-shim.mts:382-421 | Over every run a settlement is final and an exited shim stays exited. |
| Shim.RejectedAfterExit | src/backends/apple-fm-shim.mts:387-390 | A request after exit is rejected and leaves nothing pending. |
| Shim.ChunksMerge | src/backends/apple-fm-shim.mts:333-355 | Two chunks have the effect of their concatenation, so only the output text counts. |
| Shim.PairsExactly | src/backends/apple-fm-shim.mts:333-355 | Over every run the k-th line settles the k-th request, for all lines, if and only if every line met a waiting request and no request was removed before a younger one was answered. |
| Shim.NextLinePairs | src/backends/apple-fm-shim.mts:333-355 | In every reachable state with a waiting request, the next line settles the request of its number if and only if every older request was answered by a line. |
| Shim.LinesHitTargets | src/backends/apple-fm-shim.mts:333-355 | Over every run the lines are those of the output whatever its chunks, each settles the request it meets, and these are answered in order. |
| Shim.LinesPairWithRequests | src/backends/apple-fm-shim.mts:333-355 | So in a run of requests and output alone, with no reply before its request, the k-th line settles the k-th request and the buffer is the newline-free tail. |
| Shim.LateReplyGoesToTheNextRequest | src/backends/apple-fm-shim.mts:394-401 | After a timeout the late reply settles the next request. |
| Shim.ReplySettles | src/backends/apple-fm-shim.mts:340-353 | In every reachable state a JSON value printed on a line settles the oldest waiting request with that value, and nothing else. |
| Shim.UnparseableSettles | src/backends/apple-fm-shim.mts:345-353 | A line that is no JSON settles it as unparseable. |
| Shim.EventSettles | src/backends/apple-fm-shim.mts:313-421 | In every reachable state: which requests a new request, a timeout, a write failure and an exit settle, and with what. |
| Shim.ShimHandle.FailAll | src/backends/apple-fm-shim.mts:313-318 | Every pending request is rejected, its timer cleared, and the queue emptied. |
| Shim.ShimHandle.MakeRequest | src/backends/apple-fm-shim.mts:382-421 | A request is queued with its timer, or rejected after exit or without stdin. |
| Shim.ShimHandle.Answer | src/backends/apple-fm-shim.mts:340-353 | A line settles the oldest pending request, by its parse or as unparseable. |
| Shim.ShimHandle.OnStdout | src/backends/apple-fm-shim.mts:333-355 | The loop over the buffer dispatches exactly the complete lines and keeps the rest. |
| Shim.ShimHandle.OnTimeout | src/backends/apple-fm-shim.mts:394-401 | A timeout removes and rejects its request and kills the process. |
| Shim.ShimHandle.OnWriteError | src/backends/apple-fm-shim.mts:410-419 | A write failure removes and rejects its request and clears its timer. |
| Shim.ShimHandle.OnExit | src/backends/apple-fm-shim.mts:364-374 | Exit rejects everything pending, and marks the handle. |
| Shim.ShimHandle.Dispose | src/backends/apple-fm-shim.mts:377-381 | Disposal settles nothing by itself and, like every event, never kills a process that has exited. |
| Shim.TimersStopAtExit | src/backends/apple-fm-shim.mts:364-374 | No timer is armed once the process has exited, so no timeout kills it. |
| Framing.Feed | src/backends/llama-server.mts:392-419 | Lines and remainder of a text fed in two parts are those of the whole. |
| Sse.StreamChat | src/backends/llama-server.mts:375-423 | For every split into chunks exactly the deltas of the body's lines before the first `[DONE]` are yielded, the unterminated last line included, or the first of them if the consumer stops; the reader is released once on every exit. |
| Sse.ReadBody | src/backends/llama-server.mts:392-419 | The nested loops yield the deltas of the whole text. |
| Sse.EndedEarly | src/backends/llama-server.mts:396-412 | What a prefix of the chunks ended, later chunks do not change. |
| Sse.NothingAfterDone | src/backends/llama-server.mts:298-318 | After a `[DONE]` line nothing is yielded. |
| Sse.ThrowsOnNull | src/backends/llama-server.mts:298-318 | Reading lines throws if and only if one has a `null` payload and no line before it is `[DONE]`. |
| Sse.BodyThrowsOnNull | src/backends/llama-server.mts:375-423 | The same for a whole body, its unterminated last line included. |
| Sse.NullPayload | src/backends/llama-server.mts:298-318 | The line `data: null` throws. |
| Sse.DeltasConcat | src/backends/llama-server.mts:396-419 | The deltas of two runs of lines are those of the first, and then those of the second unless the first ended the stream. |
| SseLaws.DeltaExactly | src/backends/llama-server.mts:298-318 | A line is a delta if and only if it is a `data:` line whose payload is a JSON value with that string at `choices`, first item, `delta`, `content`, in terms of the members of the parsed value. |
| SseLaws.PrintedChunk | src/backends/llama-server.mts:298-318 | The line of a printed chunk, in any white space, is the delta of its content, and an event without text if it has none. |
| SseLaws.BodyYieldsContents | src/backends/llama-server.mts:375-423 | A body of printed chunks yields exactly their contents in order, up to `[DONE]` whatever follows it, or to the end of the body, or to a read error, which throws. |
| SseLaws.LastLineCounts | src/backends/llama-server.mts:414-419 | So does a last chunk without a line break, unless the body fails before its end. |
| Stream.MergeChunks | src/stream.mts:144-150 | The loop computes the left fold of the chunk merge. |
| Stream.MergedGrows | src/stream.mts:152-156 | The text held after a prefix of the chunks is a prefix of all later text. |
| Stream.SnapshotsKeepTheLast | src/stream.mts:152-156 | Of strictly growing snapshots the last remains. |
| Stream.DeltasConcatenate | src/stream.mts:152-156 | The merge is the concatenation if and only if no chunk strictly extends the non-empty text before it. |
| Stream.MergedIsNoLonger | src/stream.mts:152-156 | The merge is never longer than the concatenation, and as long exactly when it is the concatenation. |
| Stream.PromptStream.ConsumeStream | src/stream.mts:86-112 | On every run that ends the reader is released once and cancelled once iff the stream was not read to its end; delivered chunks are a prefix of the source, none after an abort; false is returned only at an un-aborted end. |
| Stream.PromptStream.ReadTurns | src/stream.mts:44-108 | The loop over `next()` delivers in order and stops at the first abort, failure, end or throwing callback. |
| Stream.PromptStream.OnChunk | src/stream.mts:193-213 | The held text is the merge of the chunks delivered; the early-field callback gets the first text that matches, once. |
| Stream.MatchSnoc | src/stream.mts:193-213 | The first match stays the first when chunks follow. |
| ControlTokens.FormatControlTokens | src/control-tokens.mts:41-49 | The loop computes the printed template. |
| ControlTokens.ParseControlTokens | src/control-tokens.mts:58-88 | The loop with its `flush` closure computes the parse of the template. |
| ControlTokens.TemplateParser.FlushBlock | src/control-tokens.mts:62-71 | A non-blank block with a role becomes a message; the block is cleared in every case. |
| ControlTokens.TemplateParser.ReadLine | src/control-tokens.mts:73-85 | A role token opens a block, `$END` closes it, another line joins an open block. |
| ControlTokensLaws.ParseIsMeaning | src/control-tokens.mts:51-88 | For every template the one-pass parser gives what its lines mean: a role token opens a block that reaches to the next token of any kind or the end, blank blocks give no message, and other lines do not count. |
| ControlTokensLaws.PrintedLayout | src/control-tokens.mts:36-49 | The printed template, character by character, for a system, a user and a model message. |
| ControlTokensLaws.FormatParseRoundTrip | src/control-tokens.mts:41-88 | For messages that are non-empty, trimmed and free of token lines, parsing the print gives the messages back if and only if no content holds a `\r\n`. |
| ControlTokensLaws.FormatThenParse | src/control-tokens.mts:41-88 | Parsing the print normalises line ends and changes nothing else. |
| ControlTokensLaws.ParsedIsCarriable | src/control-tokens.mts:58-88 | Every parsed message can be printed and read back. |
| ControlTokensTemplates.StableTemplates | src/control-tokens.mts:58-88 | Parse, print, parse is parse if and only if no line within a block of the template keeps a carriage return between visible text. |
| ControlTokensTemplates.ContentKeepsCr | src/control-tokens.mts:62-71 | A block's content holds a `\r\n` exactly when one of its lines keeps a carriage return so. |
| ControlTokensLaws.ParseIsStable | src/control-tokens.mts:58-88 | In terms of what is parsed: if and only if no content holds a `\r\n`. |
| ControlTokensLaws.StableWithoutDoubleCr | src/control-tokens.mts:58-88 | That holds for every template without `\r\r\n`. |
| ControlTokensLaws.DoubleCrIsUnstable | src/control-tokens.mts:58-88 | A template with `\r\r\n` for which it fails. |
| Semver.CompareIsTotalPreorder | src/semver.mts:9-19 | The comparison is antisymmetric in sign, total and transitive, and zero exactly for equal core triples. |
| Semver.WrittenVersionParses | src/semver.mts:47-60 | A core triple in decimal, with any pre-release or build suffix, is read back as that triple. |
| Semver.WrittenOrder | src/semver.mts:9-19 | Written versions compare by their triples lexicographically, major before minor before patch, whatever their suffixes. |
| Semver.MissingPartsAreZero | src/semver.mts:47-60 | A version that leaves out its patch, or its minor and patch, reads as if they were 0. |
| Semver.UnreadablePartIsZero | src/semver.mts:47-60 | A part that starts with no number counts as 0. |
| Semver.SignedPart | src/semver.mts:47-60 | A sign in front of a number counts, as `parseInt` reads it. |
| Osv.IsVersionAffectedByRange | src/osv.mts:59-83 | The one-pass loop over `activeIntroduced` computes the walk. |
| Osv.PairIsInterval | src/osv.mts:59-83 | For a written introduced and fixed pair, in one event or two, a written version is affected if and only if its triple is at or above the first and below the second; without a fixed, if and only if it is at or above the introduced. |
| Osv.ZeroIsBelowAll | src/osv.mts:59-83 | `introduced: "0"` opens a window for every written version. |
| Osv.WalkIsUnionOfWindows | src/osv.mts:59-83 | For arbitrary event lists the walk is membership in the union of the half-open windows it forms. |
| Osv.WalkIsEvaluation | src/osv.mts:59-83 | On ascending events of a single kind each, the walk agrees with the Evaluation algorithm of the OSV Schema for every version if and only if no `introduced` directly follows an `introduced` of strictly lower version. |
| Osv.AlternatingNeverReopens | src/osv.mts:59-83 | Events that alternate meet that condition. |
| Osv.ReopeningForgets | src/osv.mts:59-83 | Where it fails, the version of the lower `introduced` is affected for the evaluation and not for the walk. |
| Osv.WalkFollowsEvaluation | src/osv.mts:59-83 | The agreement from any open window. |
| Osv.BoundariesDecide | src/osv.mts:59-83 | For events of a single kind in any order, the walk agrees with the evaluation of the sorted events for every version if and only if it does for the versions the events name. |
| Osv.SortedSorts | src/osv.mts:52-83 | The sorted events ascend and are the same events. |
| Osv.UnsortedEventsDiffer | src/osv.mts:52-83 | A `fixed` before the lower `introduced` it should close: every version at or above it is affected for the walk and not for the evaluation of the sorted events. |
| Osv.IsVersionAffectedByEntry | src/osv.mts:16-31 | The search finds a listed version or an affecting range, exactly. |
| Osv.VulnerableVersionsSelects | src/osv.mts:90-99 | Exactly the vulnerable versions are kept, as often as they were available. |
| Osv.ReportedExactly | src/osv.mts:16-99 | A version is reported if and only if it is available and an entry of the advisory lists it or has it in a window of one of its ranges. |
| Osv.VulnerableVersionsInOrder | src/osv.mts:90-99 | They are kept in their order. |

## Left out

- Session ownership is a transition system on values: the variables of `createWithFallback`, `createOdaiModel` and `withOdaiModel` are fields of its state rather than of objects, because an abort may change all of them at once; microtask order is nondeterministic, so the runs include every order the runtime could choose and some it could not.
- SessionsRuns.ExactlyOnce: a factory or a clone is taken to give a new session or, for a clone, the base; one that returns an older session again is not modelled.
- IdentityProbe.Detection.Finish: `destroy` is taken not to throw; one that throws would leave the detection unsettled, and an attempt's or a request's result replaced by its error.
- JsonText.ValueConcat: string and number tokens keep their spelling, so escape decoding, surrogates, double precision and keys equal only after decoding are not modelled.
- JsonRecovery.RecoveredExactly: without a synonym map, since renaming can make two values the same; with one, RecoveredUnlessAnotherValue covers the objects the clean-up leaves alone. An object with an overridden member that the clean-up changes is decided behind noise (RecoveredBehindNoise) and not at the very start of the body.
- JsonKeys.NormalizeIsIdempotent: lower-casing is a parameter, and JavaScript's `__proto__` and integer-like keys are not treated specially.
- Sse.ParseSseLine: starts at characters (byte decoding is not modelled) and gives content by its spelling.
- Stream.PromptStream.ConsumeStream: covers sessions that stream through a reader; the path through `prompt` is not modelled, and the early-field pattern is a parameter.
- Semver.WrittenVersionParses: integers are unbounded, so doubles beyond 2^53 are not modelled.
- `promptStructured` of `src/json.mts`, message building and schema validation: what the schema is given is modelled, what it does is not.
- Fetching, child processes, files, the clock, the microtask queue, stderr text and error messages.
- The options each attempt of the ladder is made with, which `create` only passes on.
- `createShimSession`, `ensureShimBinary`, request bodies, URL checks, the range check on `timeoutMs`: handling of processes and options.
- The other modules of the repository (registry, routing, availability, command line, benchmarks, changelog, conversation, tasks, lockfile and SBOM scans): thin or easy next to these.
