# Foto-Produk core, modelled in Dafny

Foto-Produk is a browser front end for product photography. The user uploads a photo,
writes a scene prompt and picks an output aspect ratio, and the app sends photo and prompt
to a multimodal image-generation model. This project models the three pieces of that app
that contain decision logic:

- **AspectRatio** (`aspect_ratio.dfy`): `getEffectiveAspectRatio` from App.tsx. A fixed
  selection (`1:1`, `16:9`, `9:16`) passes through unchanged. A custom width x height with
  a non-positive side falls back to `1:1`. Any other custom size goes to the nearest of the
  five supported ratios `1:1` (1.0), `3:4` (0.75), `4:3` (1.3333), `9:16` (0.5625) and
  `16:9` (1.7778). The choice is made by a seedless left-to-right `reduce` that replaces its
  accumulator only on a strictly smaller distance. The model keeps that fold as written and
  proves two things about it: the result is nearest, and every earlier entry is strictly
  farther, so ties go to the earliest entry. It also proves that these two properties pick
  out exactly one token.
- **GeminiService** (`gemini_service.dfy`): `generateProductImage` and the prefix strip
  of `fileToCreatePart`. The FileReader read and the network call become inputs
  (`ReadResult`, `Reply`). The method also returns the effects it would perform
  (`ReadFile`, then `CallModel` with the exact request). That is how the model states
  that a missing API key throws before either effect happens. Response parsing is a
  `while` loop proved equal to `Decode`, a function of "the last inline-data part" and
  "the last truthy text part". Lemmas characterise both independently.
- **AppModel** (`app.dfy`): the `useState` cells of App.tsx as fields of the class `App`, and
  `handleImageSelect` / `handleGenerate` as methods. `handleGenerate` has two halves,
  `StartGeneration` (the guard, then GENERATING) and `CompleteGeneration` (SUCCESS or
  ERROR, given the adapter's outcome). `HandleGenerate` runs both. Run one after another,
  every method preserves `Valid()`, which says: UPLOADING is never entered; an image is shown only in SUCCESS;
  an error is shown only in ERROR and is never empty.
- **Types** (`types.dfy`) holds the enums of types.ts. **Wrappers** (`wrappers.dfy`)
  holds `Option`.

JavaScript truthiness is written out explicitly:
- A missing API key is `None` or `Some("")`.
- A falsy `part.text` or `result.image` is `None` or `""`.
- A `JsError` whose message is `""` stands for a thrown value with no message.

`split(',')[1]` on a string with no comma is `undefined` in JavaScript. The model returns
`None` in that case, and the request's inline data then carries `None`.

Details of the code that the model keeps:
- A part that carries inline data never sets the text, and an empty text is ignored
  (services/geminiService.ts:70-73).
- `handleGenerate` tests only `!prompt` (App.tsx:56). A prompt made only of whitespace
  therefore passes, even though the generate button is disabled on `prompt.trim()`.
- A result without an image is thrown and caught inside `handleGenerate`, which shows
  "The model did not return an image. Try a different prompt." (App.tsx:70-77).
- A FileReader error rejects with the reader's event, which has no `message`
  (services/geminiService.ts:18). The app therefore shows "An unexpected error occurred."
  for it (App.tsx:77).

## Model

| member | source | states |
|---|---|---|
| AspectRatio.EffectiveAspectRatio | App.tsx:32-37 | a non-custom selection is returned unchanged; a custom selection with width <= 0 or height <= 0 gives `1:1` |
| AspectRatio.ReduceClosestIsFirstNearest | App.tsx:48-50 | the seedless reduce returns an entry at an index k that is nearest to the ratio, with every entry before k strictly farther |
| AspectRatio.ReduceSupportedIsFirstNearest | App.tsx:40-50 | for any ratio, reducing the five supported entries yields a token that is nearest and strictly nearer than every token listed before it |
| AspectRatio.CustomIsFirstNearest | App.tsx:39-52 | for positive width and height no token is strictly closer to width/height than the result, and every token listed before the result is strictly farther (ties go to the earliest) |
| AspectRatio.FirstNearestIsUnique | App.tsx:39-52 | conversely, any token that is nearest and strictly nearer than all earlier tokens is the result, so the two properties determine it |
| AspectRatio.ResolvesTo | App.tsx:40-50 | a token checked against the five constants as nearest, and strictly nearer than every earlier token, is the resolution |
| AspectRatio.Square1024 | App.tsx:39-52 | 1024 x 1024 resolves to `1:1` |
| AspectRatio.FullHdLandscape | App.tsx:39-52 | 1920 x 1080 resolves to `16:9` |
| AspectRatio.FullHdPortrait | App.tsx:39-52 | 1080 x 1920 resolves to `9:16` |
| AspectRatio.Portrait768 | App.tsx:39-52 | 768 x 1024 resolves to `3:4` |
| AspectRatio.TieGoesToEarliest | App.tsx:39-52 | 7 x 8 (0.875) is equally far from 1.0 and 0.75, and resolves to the earlier `1:1` |
| GeminiService.StripPrefix | services/geminiService.ts:12 | the result is undefined exactly when the string has no comma, and a defined result never holds a comma |
| GeminiService.StripPrefixIsSecondField | services/geminiService.ts:12 | when there is a comma, the result is the segment that starts just after the first comma and ends at the second comma or at the end of the string |
| GeminiService.StripPrefixOfDataUri | services/geminiService.ts:10-12 | stripping a `data:<mime>;base64,<data>` URL returns exactly `<data>` when neither part holds a comma |
| GeminiService.BuildRequest | services/geminiService.ts:38-59 | the request names the fixed model, has exactly two parts (the inline image with the file's MIME type and payload first, then the prompt text) and forwards the aspect ratio unchanged |
| GeminiService.EmptyResponseDecodesToNulls | services/geminiService.ts:62-68 | no candidates, an empty candidate list, or a first candidate without content or parts decodes to `{null, null}` |
| GeminiService.OnlyFirstCandidate | services/geminiService.ts:66-67 | two responses with the same first candidate decode to the same result |
| GeminiService.LastImageIsLastInlinePart | services/geminiService.ts:69-71 | the image is null exactly when no part has inline data; otherwise it is `data:<mime>;base64,<data>` built from one part's own fields, and no later part has inline data |
| GeminiService.LastTextIsLastTextPart | services/geminiService.ts:69-74 | the text is null exactly when no part is a text part (no inline data, non-empty text); otherwise it is the text of one such part, and no later part is one |
| GeminiService.ParseResponse | services/geminiService.ts:62-79 | the parsing loop over the first candidate's parts returns `Decode`: the last inline part's data URI and the last truthy text; no candidates, no content or no parts give `{null, null}` |
| GeminiService.GenerateProductImage | services/geminiService.ts:23-85 | a missing key throws "API Key is missing." with no read and no call; otherwise the file is read; a reader error is rethrown as a value without a message, and a non-string read throws "Failed to read file"; otherwise exactly one call is made with the built request, whose aspect ratio is the argument (`1:1` when it is omitted); a failed call is rethrown unchanged, and a reply is decoded |
| AppModel.ErrorText | App.tsx:77 | the shown message is never empty: the error's own message when it has one, otherwise "An unexpected error occurred." |
| AppModel.App.constructor | App.tsx:9-19 | the app starts in IDLE with no file, no result, no error, an empty prompt, `1:1` and 1024 x 1024 |
| AppModel.App.SetPrompt | App.tsx:11 | the prompt is replaced and nothing else changes |
| AppModel.App.SetDimensions | App.tsx:17-19 | the selection, width and height are replaced and nothing else changes |
| AppModel.App.HandleImageSelect | App.tsx:21-29 | selecting a file keeps it and its preview URL, clears result and error, returns to IDLE, and keeps the state invariant |
| AppModel.App.StartGeneration | App.tsx:55-62 | with no file or an empty prompt nothing changes and no call is made; otherwise the state is GENERATING with result and error cleared, and the call carries the file, the prompt and the effective ratio id |
| AppModel.App.CompleteGeneration | App.tsx:64-78 | a truthy image gives SUCCESS with that image; a result without one gives ERROR with "The model did not return an image. Try a different prompt."; a thrown error gives ERROR with its message or the fallback; the invariant is kept |
| AppModel.App.HandleGenerate | App.tsx:55-79 | the whole handler: either nothing changes and no call is made, or the call is made and the app ends in SUCCESS exactly when a truthy image came back, and in ERROR with the right message otherwise |

## Left out

- The FileReader read and its base64 encoding, the network call to the model, the
  `process.env` lookup, `URL.createObjectURL` and `console.error` are I/O. Their results
  are parameters: `ReadResult`, `Reply`, `apiKey` and the preview `url`.
- `new GoogleGenAI(...)` could itself throw. The model does not include that failure.
- JavaScript number semantics are not modelled: the ratio is an exact `real`.
  Floating-point rounding near a tie point is out of scope.
- The async scheduling and render batching of React are not modelled. The handler is
  sequential, with the adapter's outcome passed in.
- AppModel.App.CompleteGeneration: requires the state to be GENERATING, so a completion
  that arrives after a new image was selected mid-flight is not modelled. In the code
  that can happen: selecting an image returns to IDLE while a call is pending
  (App.tsx:21-28), and the generate button's only guard on the app state is GENERATING,
  so a second generation can start. Two orders are then left out:
  - The second call fails after the first has succeeded. The app ends in ERROR while
    `generatedImage` still holds the first image, because the catch at App.tsx:74-77
    does not clear it (the result panel shows the error, not the image).
  - The first call fails after the second has started, then the second succeeds. The
    app ends in SUCCESS with a stale `errorMessage`, and the result panel shows
    "Generation Failed".

  `Valid()` excludes both states, so it holds only when each generation completes
  before the next handler runs.
- A response's `mimeType` or `data` field that is undefined would be interpolated as
  `"undefined"`. The model treats both fields as strings.
- components/ImageUploader.tsx, components/ResultDisplay.tsx and
  components/PromptInput.tsx are presentation and DOM I/O. The preset catalogue, the
  download action and the `prompt.trim()` button guard are not part of this model.
  `parseInt(...) || 0` can feed zero or negative dimensions into the model. That is why
  width and height are `int`.
- `GenerationResult` in types.ts is never used, so it is not modelled. `UPLOADING` is
  declared but never entered, and `Valid()` excludes it.
