# Spot-Pitch.ai: the App component as a verified state machine

Spot-Pitch.ai is a one-page form. The user describes a business idea, the
page sends it to a hosted language model, and the structured pitch that comes
back is shown as cards. All local logic sits in the `App` component
(`App.tsx`). It is this model's subject and has two parts:

- **The placeholder typewriter.** A self-rescheduling `type` callback types
  and erases the five example ideas in the input's placeholder, one character
  per tick. It waits 100 ms between typed characters, 2000 ms once an example
  is fully typed, 50 ms between erased characters and 500 ms before the next
  example. The callback stops for good once the user edits the input or
  submits.
- **The request controller.** `handleIdeaChange` and `handleSubmit` own
  `idea`, `isLoading`, `error` and `pitchData`. At most one request is in
  flight. A blank idea is never sent. A failure shows one fixed message.

Files:

- `types.dfy` (module `Types`): the `PitchData` record of `types.ts`, and
  `Option` for the component's nullable state.
- `js_string.dfy` (module `JsString`): JavaScript's `trim`, used by the
  submit guard, and its `substring(0, end)`, used to render the placeholder.
- `typewriter.dfy` (module `Typewriter`): the typewriter as a pure machine.
  `Step` is one running tick, `Run` and `Trace` are many ticks, and the
  lemmas prove the bounds, the delay rule, the rendered text and the
  type-out/erase cycles.
- `app.dfy` (module `AppComponent`): class `App`. Its fields are the
  component's state, its refs (the example list among them) and the
  effect's closure variables. Its methods are
  `Tick` (the `type` callback), `Unmount` (the effect cleanup), `EditIdea`,
  and `BeginSubmit`/`Complete` (before and after the `await`). `Valid()` is
  the invariant every method keeps. `Tick` is proved equal to
  `Typewriter.Step`, so the lemmas about `Step` hold for the object. Two
  client methods, `DoubleSubmit` and `SubmitBeforeTyping`, derive user-level
  scenarios from these contracts alone.

The generation service (`generatePitch`) is an oracle. `BeginSubmit` returns
the idea it would send. The caller then passes `Complete` the outcome,
`Generated(data)` or `Failed`. A pending `setTimeout` is the `scheduled`
field: the delay of the pending tick, or `None`. `clearTimeout` sets it to
`None`.

Two handler details are reproduced exactly as the code has them:

- `EditIdea` resets the placeholder to the fallback text, but only when the
  animation was still running.
- `BeginSubmit` stops the animation and cancels the pending tick but leaves
  the placeholder as it was. A submit before any edit therefore leaves a
  partial example with its `|` glyph (`SubmitBeforeTyping`).

The component has no status field. It keeps `isLoading`, `error` and
`pitchData`, and `Valid()` relates them. Only `handleIdeaChange` resets the
placeholder to the fallback text (App.tsx:79).

## Model

| member | source | states |
|---|---|---|
| `JsString.TrimStart` | App.tsx:92 | the result is a suffix of the input that is empty or starts with a non-white-space character (ECMAScript white space and line terminators) |
| `JsString.TrimEnd` | App.tsx:92 | the result is a prefix of the input that is empty or ends with a non-white-space character |
| `JsString.Trim` | App.tsx:92 | `trim()` is no longer than its input and is empty or has no white space at either end |
| `JsString.TrimStartDropsWhiteSpace` | App.tsx:92 | everything the leading trim removes is white space |
| `JsString.TrimEndDropsWhiteSpace` | App.tsx:92 | everything the trailing trim removes is white space |
| `JsString.TrimIsSlice` | App.tsx:92 | `trim()` is a contiguous slice of the input with only white space cut off on either side |
| `JsString.IsBlank` | App.tsx:92 | `!idea.trim()` holds exactly when every character of the idea is white space, the empty idea included |
| `JsString.SubstringTo` | App.tsx:49 | `substring(0, end)` is a prefix of the string whose length is `end` clamped into `[0, length]` |
| `Typewriter.Step` | App.tsx:39-61 | one running tick starting from a valid example index leaves a valid example index |
| `Typewriter.IdeasUsable` | App.tsx:20-26 | the example list has five entries, none of them empty |
| `Typewriter.FallbackIsFirstIdea` | App.tsx:21 | the fallback placeholder (lines 35 and 79) is the first example |
| `Typewriter.StartInv` | App.tsx:29-31 | the effect's initial cursor (0, 0, typing) is within bounds |
| `Typewriter.StepPreservesInv` | App.tsx:42-59 | with non-empty examples, a tick keeps `ideaIndex < 5`; while typing `0 <= charIndex < len` and while deleting `0 < charIndex <= len` |
| `Typewriter.StepDelay` | App.tsx:40-58 | the scheduled delay is 100 while typing, 2000 on the tick that types the last character, 50 while deleting and 500 on the tick that erases the first character; nothing else is ever scheduled |
| `Typewriter.StepCursor` | App.tsx:42-58 | `charIndex` moves by one in the current direction; the direction flips exactly on reaching full length or 0; `ideaIndex` changes only on the tick that reaches 0, to `(ideaIndex + 1) % 5` |
| `Typewriter.StepText` | App.tsx:39-50 | a tick renders exactly the first `charIndex` characters of the current example plus `'|'`, using `charIndex` after the move and before any switch |
| `Typewriter.Run` | App.tsx:61 | any number of self-rescheduled ticks keeps a valid example index |
| `Typewriter.Trace` | App.tsx:61 | the trace of `n` ticks has `n` frames |
| `Typewriter.RunPreservesInv` | App.tsx:42-61 | every cursor reached by any number of ticks from a valid cursor is within bounds |
| `Typewriter.RunAdd` | App.tsx:61 | `a + b` ticks are `a` ticks followed by `b` ticks |
| `Typewriter.TypeOut` | App.tsx:45-54 | while typing, `len - charIndex` ticks reach full length and switch to deleting |
| `Typewriter.DeleteOut` | App.tsx:42-44 | while deleting, `charIndex` ticks reach 0, switch to typing and move to the next example |
| `Typewriter.TraceAdd` | App.tsx:61 | the frames of `a + b` ticks are the frames of `a` ticks followed by those of `b` ticks from the cursor the first `a` reached |
| `Typewriter.CycleTrace` | App.tsx:39-61 | from the start of example `i`, the `2 * len` frames are the typing frames (one more character each, delay 100 then 2000) followed by the erasing frames (one less each, delay 50 then 500) |
| `Typewriter.WordCycle` | App.tsx:42-59 | from the start of example `i`, `len` ticks type it out and `2 * len` ticks erase it and reach the next example |
| `Typewriter.FromStart` | App.tsx:29-59 | from (0, 0, typing) on any list of at least two examples: after `L0` ticks `charIndex = L0` and deleting; after `2 * L0` ticks example 1, `charIndex = 0`, typing |
| `Typewriter.FirstWordCycle` | App.tsx:20-59 | the same for the five examples of App.tsx |
| `Typewriter.TypingTrace` | App.tsx:40-54 | while typing, tick `j` renders the first `charIndex + j + 1` characters plus `'|'`, with delay 100 except 2000 on the last |
| `Typewriter.DeletingTrace` | App.tsx:42-58 | while deleting, tick `j` renders the first `charIndex - j - 1` characters plus `'|'`, with delay 50 except 500 on the last |
| `AppComponent.App.constructor` | App.tsx:11-31 | the mount state: empty idea, no result, no error, not loading, empty placeholder, animation running, nothing scheduled, the example list of lines 20-26, cursor at (0, 0, typing) |
| `AppComponent.App.Tick` | App.tsx:33-62 | while running, the cursor, placeholder and scheduled delay are exactly those of `Typewriter.Step`; once stopped, the placeholder is the fallback, the cursor is unchanged and nothing is scheduled; controller state and the running flag are untouched |
| `AppComponent.App.Unmount` | App.tsx:66-70 | the effect cleanup cancels the pending tick and changes nothing else |
| `AppComponent.App.EditIdea` | App.tsx:73-82 | whatever the new text: the animation is stopped and nothing is scheduled; the placeholder becomes the fallback if it was running and is otherwise unchanged; `idea` becomes the new value; the request state is unchanged |
| `AppComponent.App.BeginSubmit` | App.tsx:84-97 | the animation is stopped and nothing is scheduled, the placeholder unchanged; a request (the untrimmed idea) is sent if and only if the idea is not blank and nothing is loading; then loading is set and result and error are cleared, otherwise request state is unchanged; `idea` is never changed |
| `AppComponent.App.Complete` | App.tsx:98-106 | loading ends; success stores the pitch with no error; failure stores the fixed message with no pitch; so exactly one of them is shown; idea, placeholder and animation are unchanged |
| `AppComponent.DoubleSubmit` | App.tsx:84-107 | submitting a non-blank idea twice before the reply sends one request only; after completion the idea is kept, loading is off, and exactly the pitch or the fixed message is shown |
| `AppComponent.SubmitBeforeTyping` | App.tsx:84-92 | a submit right after mount with the input empty sends nothing and does not start loading; it stops the animation and leaves the placeholder at the first tick's `"A|"` |

## Left out

- `services/geminiService.ts` is not part of this model. It reads the API key
  from the environment, builds the prompt and calls the external
  `@google/genai` client, then runs `JSON.parse` on the reply. All of this is
  foreign I/O, so `generatePitch` is the `Outcome` handed to `Complete`.
  `Failed` stands for every error the service call throws, all of which
  reach the one `catch` (App.tsx:101-103): a transport error, a missing
  `response.text`, or a reply that is not valid JSON. The API key check at
  load time is left out.
- A reply that parses as JSON but does not conform to `PitchData` falls
  outside `Outcome`. Such a reply would be `null`, or an object missing a
  field. `services/geminiService.ts:73-76` returns the parsed value without
  checking it, and App.tsx:100 stores it as the pitch. For `null`, neither a
  pitch nor an error would then show, so `Complete`'s "exactly one of them"
  covers only results that are a `PitchData`.
- `components/PitchResult.tsx` and all JSX markup, styling, icons and the
  `Loader` are presentation only. The result is stored unchanged in
  `pitchData` and not rendered.
- `console.error` logging of the failure detail is left out. It is a
  diagnostic side effect.
- The `disabled` attributes on the input and the button (App.tsx:149, 154)
  are left out. The one on the input blocks edits while a request is
  loading. The one on the button repeats the submit guard in the UI. The
  model lets edits and submits happen at any time, which covers strictly
  more behaviours.
- Real time is left out. `setTimeout` and `clearTimeout` become the
  `scheduled` field, and any tick may fire at any moment.
- `AppComponent.App.Tick` does not require a pending tick, so the model also
  covers a tick firing after the animation has stopped. The source's
  cancellation makes that case unreachable (`Valid()` proves nothing is
  pending once stopped), but its branch (App.tsx:34-37) is modelled.
- React's rendering model is left out: batching of state updates, the
  `useCallback` closure that captures `idea` and `isLoading` from the last
  render, StrictMode's double-run of effects, and writes to state after
  unmount. Each method reads and writes the current state directly.
- `e.preventDefault()` is left out. It only stops the browser's form
  navigation.
- Strings are sequences of Unicode scalar values, whereas JavaScript strings
  are UTF-16 code units. Lengths and `substring` differ only outside the
  Basic Multilingual Plane. The five examples are ASCII.
