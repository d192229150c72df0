# Portfolio site logic, modelled in Dafny

This project models the parts of a personal portfolio website that carry
checkable logic:

- **The embedding script** (`create-embeddings.js`). It walks an ordered list
  of knowledge chunks and asks an embedding client for one vector per chunk.
  It takes the vector from `embedding.values`, falling back to
  `embedding.value`, and rejects anything that is not a non-empty array.
  Each success appends an `{id, text, embedding}` record to an accumulator.
  The accumulator is written to `vector-database.json` once, and only when
  every chunk succeeded. A missing API key ends the process with status 1
  before any request is made.
- **The page's UI rules** (`script.js`):
  - the theme toggle;
  - the auto-hiding header's scroll state machine;
  - the mobile menu toggle and the touch rule "first tap activates, second
    tap navigates";
  - contact-form validation and the honeypot gate;
  - starfield regeneration;
  - the chat widget's endpoint, blank-question and answer-fallback rules.
- **The ripple background** (`ripple-bg.js`). A bounded FIFO of ripples fed
  by throttled pointer moves and two-ripple pointer-down bursts. Each
  animation frame walks it backwards and splices out expired ripples.

Modules follow the source: `Embeddings`, `Theme` and `ThemeToggle`, `Nav`,
`Header`, `Contact`, `Starfield`, `Chat` and `Ripples`. `JsText` models
JavaScript's `trim`, the regex class `\s`, and `length`, which counts UTF-16
code units. `Wrappers` holds `Option` and
`Result`.

Code that changes state in place is modelled as classes whose methods state
the whole new state:

- the script's accumulator and process state;
- the header's `lastY`, `down` and `up` counters;
- the menu's item classes, `lastActive` and per-item `tappedOnce`;
- the starfield layers and the regeneration flag;
- the ripple buffer and its clocks.

Pure rules are functions. Lemmas relate them to the state machines.

The embedding run is specified by `RunPass`, a fail-fast fold over the
chunks. `CreateEmbeddings` is proved to leave exactly `RunPass`'s requests
and records, and to write the file exactly when `RunPass` reports no
failure. The lemmas about `RunPass` state the rest:

- one record per chunk, in order, when all succeed;
- nothing requested after the first failure;
- completion if and only if every chunk succeeds.

The embedding client, the clock, randomness and the DOM state the handlers
read are parameters: every handler that reads the time takes it as `now`.
Because `RunPass` is a function of the chunks and the client, two runs with
the same chunks and a deterministic client write the same database.

Three behaviours of the code are worth stating outright:

- Only a missing or empty vector raises an error naming the chunk id
  (create-embeddings.js:51-53). A rejected client call reports the
  client's own message.
- Once the loop has started, every error is caught and logged. The process
  does not exit with a failure status (create-embeddings.js:74-76).
- An empty `values` array is truthy. It therefore hides a usable `value`
  field, and the chunk fails (create-embeddings.js:50-51).

## Model

| member | source | states |
|---|---|---|
| `Embeddings.Extract` | create-embeddings.js:50 | `values`, or else `value`: `values` when it is truthy, `value` otherwise, and `undefined` for a response without `embedding`. |
| `Embeddings.Truthy` | create-embeddings.js:50 | JavaScript truthiness of the `values` field: an array is truthy even when empty, and `undefined` is falsy. |
| `Embeddings.EmptyValuesHidesValue` | create-embeddings.js:50-51 | An empty `values` array is truthy, so it is extracted even when `value` holds a vector, and the response yields no vector. |
| `Embeddings.VectorOf` | create-embeddings.js:50-53 | A vector is accepted only when non-empty. `values` decides whenever it is truthy, even as an empty array. Otherwise `value` decides. A response without `embedding` yields nothing. |
| `Embeddings.EitherFieldName` | create-embeddings.js:50 | A vector under `values` or under `value` is handled identically. |
| `Embeddings.EmbedChunk` | create-embeddings.js:47-60 | One loop step yields a record iff the call resolved with a usable vector. The record copies `id` and `text` from the chunk and holds exactly the extracted vector. A bad vector fails naming the chunk id; a rejected call fails with the client's message. |
| `Embeddings.RunPass` | create-embeddings.js:44-63 | The fail-fast fold. It never requests more texts than there are chunks, and it holds one record per request before the failing one. With no failure, every chunk was requested and recorded. |
| `Embeddings.FailureIsFinal` | create-embeddings.js:44-53 | After a failure, later chunks change nothing: no more requests and no more records. |
| `Embeddings.CompletePass` | create-embeddings.js:45-60 | If every chunk succeeds: every text is requested in order, and there is exactly one record per chunk, in chunk order. Each record's `id`/`text` equal the chunk's, and its embedding is the vector from that chunk's response. |
| `Embeddings.FailFast` | create-embeddings.js:44-76 | If chunk k fails first: exactly the texts of chunks 0..k are requested. The accumulator holds the k earlier records, and the failure is chunk k's error. |
| `Embeddings.RunPassStep` | create-embeddings.js:45-60 | While the pass has not failed, handling chunk i appends its text to the requests. A success appends its record; a failure records the error and keeps the accumulator. |
| `Embeddings.FailingStepEndsPass` | create-embeddings.js:47-62 | When the first failing chunk is chunk i, the pass ends there: its text is the last request, the accumulator is the one before it, and its error is the one reported. |
| `Embeddings.NoFailureMeansAllSucceeded` | create-embeddings.js:45-69 | A pass that reaches the write had every chunk succeed. |
| `Embeddings.CompleteIffAllSucceed` | create-embeddings.js:45-69 | The pass completes (and the file is written) iff every chunk succeeds. |
| `Embeddings.SingleChunkScenario` | create-embeddings.js:45-69 | Chunk `chunk-1`/`Hello` with a reply carrying `values` [0.1, 0.2, 0.3] yields exactly one record holding that vector. |
| `Embeddings.EmptyResponseScenario` | create-embeddings.js:50-53 | The same chunk with an empty response fails with the error naming `chunk-1` and yields no record. |
| `Embeddings.EmptyStore` | create-embeddings.js:45-69 | Zero chunks: no request, an empty database, no failure (so an empty array is written). |
| `Embeddings.EmbeddingScript.constructor` | create-embeddings.js:38 | The accumulator starts empty. The file holds whatever an earlier run left. |
| `Embeddings.EmbeddingScript.Start` | create-embeddings.js:26-30 | A missing or empty API key reports the error and exits with status 1. Nothing is requested or written. Otherwise the run is `CreateEmbeddings` and the exit status is untouched. |
| `Embeddings.EmbeddingScript.CreateEmbeddings` | create-embeddings.js:41-77 | Requests and accumulated records are exactly `RunPass`'s. The file is written, with the whole accumulator, iff the pass had no failure. Otherwise the old file is kept and the one failure is reported. |
| `JsText.IsWhitespace` | script.js:290-296 | Every code point that `trim` removes and `\s` matches lies in the Basic Multilingual Plane (below U+10000), so it is a single UTF-16 code unit. |
| `JsText.LeadingWhitespace` | script.js:290 | The count n of white-space characters the text starts with: the first n are all white space, and character n, if any, is not. |
| `JsText.TrailingWhitespace` | script.js:290 | The count n of white-space characters the text ends with: the last n are all white space, and the one before them, if any, is not. |
| `JsText.Trim` | script.js:290-296 | The result is the input with its leading and trailing white space removed: the infix that starts after the leading white space and is followed only by white space. It neither starts nor ends with white space, and it is empty iff the input is all white space. |
| `JsText.TrimKeepsText` | script.js:290-296 | A text that neither starts nor ends with white space is unchanged by trimming. |
| `JsText.Utf16Length` | script.js:290-296 | `length` in UTF-16 code units: between the number of code points and twice that, and equal to it when every code point is below U+10000. |
| `JsText.Utf16LengthOfConcat` | script.js:290-296 | Code-unit lengths add up over concatenation. |
| `Theme.CurrentTheme` | script.js:20 | A missing or empty `data-theme` reads as `dark`; any other value reads as itself. |
| `Theme.NextTheme` | script.js:21 | The result is `light` or `dark`, and it is `dark` iff the current theme is `light`. |
| `Theme.ToggleTwice` | script.js:20-21 | Toggling twice from `light` or `dark` restores it. |
| `Theme.FirstToggleFromDefault` | script.js:20-21 | With no attribute, the first toggle selects `light`. |
| `ThemeToggle.ThemeButton.constructor` | script.js:3-6 | A non-empty saved preference replaces the markup's theme. |
| `ThemeToggle.ThemeButton.Click` | script.js:19-39 | The attribute and local storage hold the next theme. Turning dark rebuilds every present star layer; turning light blanks them. The regeneration flag ends false. |
| `Nav.NavMenu.constructor` | script.js:67-73 | No item is active, no `tappedOnce` is set, and `lastActive` is null. |
| `Nav.NavMenu.ToggleClick` | script.js:55-58 | The menu flips, and `aria-expanded` equals its new open state. |
| `Nav.NavMenu.LinkClick` | script.js:59-64 | Any menu link closes the menu and sets `aria-expanded` to `"false"`. |
| `Nav.NavMenu.TouchItem` | script.js:74-86 | A first tap on an inactive item blocks navigation. It deactivates the previous item, leaves this one the only active item, and sets its `tappedOnce`. A tap on an active item navigates and clears `tappedOnce`. Validity ("active iff `lastActive`") is kept. |
| `Nav.NavMenu.TouchOutside` | script.js:89-94 | A touch outside the menu clears every item and `lastActive`. |
| `Nav.AtMostOneActive` | script.js:75-81 | In every valid menu state at most one item is active. |
| `Header.ClampOffset` | script.js:110 | `Math.max(0, offset)`: a negative offset (overscroll) becomes 0, and a non-negative one is kept. |
| `Header.AutoHideHeader.constructor` | script.js:104-105 | Starts from the clamped offset with both counters 0. |
| `Header.AutoHideHeader.OnScroll` | script.js:109-136 | `lastY` always becomes the clamped offset. At `y <= 8` the header shows and both counters reset. With the menu open it shows and the counters stay. Down-scroll adds to `down` and zeroes `up`; up-scroll the reverse; no movement changes nothing. At most one counter is ever non-zero. The header newly hides only when `down > 16`. Away from the top with the menu closed, it newly shows only when `up > 8`. |
| `Contact.EmailPatternCharacterised` | script.js:293 | `^[^\s@]+@[^\s@]+\.[^\s@]+$` matches iff: there is no white space; the only `@` is not first; and a `.` after it has a character on each side. |
| `Contact.MatchesEmailPattern` | script.js:293 | A string the pattern accepts is at least 5 characters long and contains both `@` and `.`. |
| `Contact.NoAtSignNoMatch` | script.js:293 | A string without `@` never matches the email pattern. |
| `JsText.BooleanString` | script.js:281-283 | The text a boolean attribute receives (`setInvalid` here, and `String(open)` for `aria-expanded` at script.js:57): `"true"` exactly for true, `"false"` otherwise. |
| `Contact.Validate` | script.js:284-299 | Valid iff the trimmed name is at least 2 UTF-16 code units long, the trimmed email matches the pattern, and the trimmed message is at least 10 code units long. Every field's `aria-invalid` is set from its own test alone, with no short-circuit. The explicit empty-value checks add nothing. |
| `Contact.HoneypotFilled` | script.js:306 | The honeypot counts as filled iff the input exists and its value is not all white space, i.e. its trimmed value is non-empty. |
| `Contact.SampleAddressMatches` | script.js:292-293 | `a@b.co` is unchanged by trimming and matches the pattern. |
| `Contact.EmojiNameAccepted` | script.js:290-296 | A name made of one emoji (U+1F600, two code units) meets the two-character minimum, so a form with a good address and a ten-character message is valid. |
| `Contact.Submit` | script.js:301-329 | A non-blank honeypot stops submission before validation. Otherwise failed validation stops it before any send. A valid form opens the mail app when `action` is missing or empty, and otherwise posts to `action`. |
| `Contact.StatusText` | script.js:303-326 | The status line left before any reply: `Sending...`, written first, remains exactly when the form is posted. It is never empty. |
| `Contact.StatusTextIdentifiesOutcome` | script.js:303-326 | Two submissions show the same status line iff they had the same outcome (spam, needs correction, mail app, post). |
| `Starfield.Distance` | script.js:391-392 | `Math.abs` of a difference. |
| `Starfield.NeedsRebuild` | script.js:378 | A requested regeneration always rebuilds. A layer is kept only when it is already generated and its `box-shadow` is not `none`. |
| `Starfield.Starfield.constructor` | script.js:353-357 | Three layers. The regeneration flag starts false, and the last size is the initial viewport. |
| `Starfield.Starfield.Apply` | script.js:366-384 | Outside dark mode, every present layer gets `none` and an empty `generated` flag. In dark mode, a present layer is rebuilt iff it is ungenerated, `none`, or regeneration was requested; otherwise it is kept. Missing layers are untouched, and the flag ends false. |
| `Starfield.Starfield.OnResize` | script.js:388-399 | A change of more than 200 px in width or height records the size and rebuilds all present layers. A smaller change leaves everything as it was. |
| `Chat.StripTrailingSlash` | script.js:479 | At most one trailing slash is removed, and one is removed exactly when the text ends with a slash. |
| `Chat.ApiBase` | script.js:478-482 | A configured, non-empty base is `StripTrailingSlash` of it: one trailing slash is removed. With nothing configured the base is empty, on the dev server as elsewhere. |
| `Chat.Endpoint` | script.js:535 | The endpoint is always the base followed by `/api/chat`, which is `/api/chat` itself for an empty base. |
| `Chat.ConfiguredEndpoint` | script.js:478-482 | A base configured with one trailing slash gives `base-without-slash/api/chat`, with no doubled slash. |
| `Chat.AnswerText` | script.js:544 | A missing or empty answer is replaced by the fixed fallback text, so the text shown is never empty. |
| `Chat.Submit` | script.js:527-553 | A question that is blank after trimming sends nothing. Otherwise the trimmed question goes to `Endpoint(base)`, and the reply shown is never empty. A reply's answer is shown through `AnswerText`. On failure, the "backend not reachable" guidance appears iff the base is empty and the page is not the local dev server; otherwise the "trouble connecting" apology appears. |
| `Ripples.Pushed` | ripple-bg.js:63-66 | The new ripple is last, and the survivors are the old buffer minus at most its head. The head goes only when the length exceeds 64. At most 65 entries stay at most 65. |
| `Ripples.Alive` | ripple-bg.js:116-117 | A ripple that starts at or after `now` is alive. |
| `Ripples.AliveEarlier` | ripple-bg.js:116-117 | A ripple alive at some time is alive at every earlier time, so expiry is permanent. |
| `Ripples.PushedAllKeepsNewest` | ripple-bg.js:53-66 | After any number of emissions from at most 65 entries, the buffer holds exactly the newest min(total, 65) ripples, oldest first. |
| `Ripples.PushedAllSnoc` | ripple-bg.js:85 | Emitting one more ripple after a sequence extends that sequence. |
| `Ripples.Survivors` | ripple-bg.js:114-117 | Every kept ripple has age at most 1400 ms. Every ripple with age at most 1400 ms is kept, and nothing else is kept. |
| `Ripples.SurvivorsOfConcat` | ripple-bg.js:114-117 | Pruning distributes over concatenation, so relative order is preserved. |
| `Ripples.SurvivorsOfLive` | ripple-bg.js:114-117 | With nothing expired, pruning changes nothing. |
| `Ripples.PruneStep` | ripple-bg.js:114-117 | One backward step: the entry at `i` is still in place, and splicing it when expired extends the pruned suffix. |
| `Ripples.PointerForce` | ripple-bg.js:79 | `Math.min` of the pressure (or 0.5) and 1: a pressure of 0 counts as 0.5, a pressure above 1 becomes 1, and any other pressure is kept. |
| `Ripples.FrameDelta` | ripple-bg.js:98 | The frame delta is at most 33 ms and equals the elapsed time when that is smaller. |
| `Ripples.ClampDpr` | ripple-bg.js:27-30 | `Math.min` of the device pixel ratio (or 1) and 2: a ratio of 0 counts as 1, a ratio above 2 becomes 2, and any other ratio is kept. |
| `Ripples.FadeFill` | ripple-bg.js:43-46 | The white fill is used exactly when the theme is `light`; a missing theme gives the dark fill. |
| `Ripples.RippleField.constructor` | ripple-bg.js:27-95 | Empty buffer, `lastEmit` 0, running, the clamped ratio, and the canvas sized to the viewport times that ratio, rounded down. |
| `Ripples.RippleField.Resize` | ripple-bg.js:29-38 | Re-clamps the ratio and resizes the canvas; the buffer and clocks are untouched. |
| `Ripples.RippleField.OnThemeToggled` | ripple-bg.js:47-50 | The fade colour is re-read from the theme. The viewport and canvas size are unchanged. |
| `Ripples.RippleField.Emit` | ripple-bg.js:63-66 | The buffer becomes `Pushed(old buffer, new ripple)`, and the bound of 65 is kept. The viewport and canvas size are unchanged. |
| `Ripples.RippleField.OnPointerMove` | ripple-bg.js:74-80 | It emits iff at least 35 ms passed since the last emitting move. `lastEmit` changes only then, and the emitted force is `PointerForce(pressure)`. The viewport and canvas size are unchanged. |
| `Ripples.RippleField.OnPointerDown` | ripple-bg.js:82-86 | Exactly two force-1 ripples are appended, each through `emit`. The viewport and canvas size are unchanged. |
| `Ripples.RippleField.OnVisibilityChange` | ripple-bg.js:89-93 | Running follows visibility. Becoming visible restarts the frame clock. The viewport and canvas size are unchanged. |
| `Ripples.RippleField.Tick` | ripple-bg.js:96-117 | While paused, nothing changes. Otherwise it returns the clamped delta, advances the clock, and leaves exactly the surviving ripples in their order. The emit clock, the viewport, the canvas size, the ratio and the fade colour are never touched. |

## Left out

- The Gemini SDK client (create-embeddings.js:1, 31-33, 47-49) is a total function from the text sent to a resolved response or a rejected call. Timeouts are part of "rejected".
- Vector elements are taken as numbers (`real`). `Array.isArray` does not check element types. A non-numeric element is not distinguished, and neither is floating-point arithmetic.
- `fs.writeFileSync` and `JSON.stringify` (create-embeddings.js:66-69) become the value stored in `artifact`. The byte format (two-space indentation) and write errors are not modelled.
- The fourteen chunk texts of the knowledge store (create-embeddings.js:7-22) are not reproduced. The pipeline is proved for every chunk list.
- Console output is not modelled beyond the reported `Failure` values, which name the chunk id for a missing vector. This covers the progress lines and the success message.
- The network calls are not modelled beyond the decision that leads to them and the reply's effect on what is shown: `loadProjects`, the resume probe, the form POST and the chat POST (script.js:163, 268, 332, 536). The form POST's three status messages (script.js:337-346) are out too.
- DOM rendering and templating are not modelled: project cards, Swiper, chat message elements, the chat popup's open/close handlers (script.js:484-513), icons and titles of the theme button, and the `mailto` URL encoding.
- `animations.js` is not modelled. It only drives a third-party animation library.
- Floating-point visual math is not modelled: ripple radius, alpha and shimmer (ripple-bg.js:119-134), the logo tilt (script.js:406-462), and canvas drawing.
- Randomness (the star pattern of `build`, script.js:358-364) is a parameter: the pattern each rebuild would draw.
- Timer scheduling is not modelled: `setTimeout` debounces and the 400 ms class removal, `requestAnimationFrame`, observers, and the reduced-motion early exit. Handlers are methods called in whatever order, and with whatever `now`, the caller chooses.
- `Header.AutoHideHeader.OnScroll`: scroll offsets are whole pixels. `pageYOffset || scrollY` is one input.
- `Ripples.RippleField.OnPointerMove`: the ripple's start time is the same `now` as the throttle check. The source reads the clock a second time inside `emit` (ripple-bg.js:65).
- `Ripples.RippleField`: times (`now`, `t0`, `last`, `lastEmit`) are whole milliseconds. `performance.now()` and the requestAnimationFrame timestamp are fractional, so the 35 ms throttle, the 33 ms clamp and the 1400 ms lifetime are compared on integers here.
- `Ripples.RippleField.OnPointerDown`: both ripples of the burst start at the one `now` passed in. The source reads `performance.now()` inside each `emit` call (ripple-bg.js:65, 85), so the two start times may differ by the time between the calls.
- `Contact.Submit`: `form.reset()` after the mail app opens (script.js:327) is not modelled. The form's fields are the handler's input, not state the model keeps.
- `Chat.Submit`: clearing the chat input (`input.value = ''`, script.js:532) and the typing indicator are not modelled. The input text is the handler's argument, not state the model keeps.
- `Chat.ApiBase`: a non-string `CHAT_API_BASE` (converted by `String`) is not modelled. Only strings are.
- `Chat.AnswerText`: a non-string truthy `answer` is not modelled.
- `Nav.NavMenu.TouchOutside`: the document-level listener also runs for touches inside the menu, where it does nothing. That case is simply not called.
