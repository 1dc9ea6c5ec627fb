# EcoShield session log and image check, modelled in Dafny

EcoShield is a browser front end that sends a photo or a product description
to a generative model for an environmental-impact analysis. Its only client
logic with state is in `src/lib/gemini.ts`:

- the **session log**, one record under the `localStorage` key
  `"gemini-session"`. It holds the messages of past analyses and the time of
  the last write. It is read with fallbacks (no window, no key, or text that
  does not parse all read as an empty session). Each write appends one message
  and keeps the newest ten. `clearSession` removes the key;
- the **image check** `isValidBase64Image`. It is a partial check of the
  `data:` URI syntax of section 3 of RFC 2397. It needs a `data:image/`
  prefix and a non-empty body after the first comma, and the estimated
  decoded size must be under 4 MiB;
- the two **analysis calls**, `analyzeImage` and `analyzePrompt`. On a model
  reply each appends a user message and then an assistant message. On any
  failure each appends nothing and returns an error text.

Files:

- `wrappers.dfy`: `Option`, standing in for `undefined` and optional fields.
- `image_validator.dfy` (module `ImageValidator`): JavaScript's one-character
  `split` and its inverse `join`, the body `split(",")[1]`, JavaScript's string
  length in UTF-16 code units, the size estimate (over reals, as JavaScript
  numbers compute it exactly at these sizes), and an exact characterisation of
  `isValidBase64Image` by comma positions.
- `session_log.dfy` (module `SessionLog`): the message and session records.
  Storage is a map from keys to what `JSON.parse` makes of the stored text
  (`Unparseable`, `Parsed(session)`, or `NotASession` for JSON with no
  `messages` list to spread, such as `null`, `42` or `{}`). It also holds the
  read functions, `KeepLast` (drop the oldest while more than ten) with its
  lemmas, the shared `SliceFromEnd` (JavaScript's `slice(-k)`), and the
  as-written read and write of the finding below.
- `gemini.dfy` (module `Gemini`): the class `Store`, which is the window flag
  plus the origin's `localStorage` as a mutable `map`. Its methods are
  `UpdateSessionData`, `ClearSession` and the two analysis calls. The model
  call is the parameter `generate: Request -> ModelReply`, an arbitrary total
  function, so every reply or failure is covered. The requests built for it
  (`ImageRequest`, `TextRequest`) are functions. Clock readings
  (`Date.now()`) are parameters.

## Model

| member | source | states |
|---|---|---|
| ImageValidator.StartsWith | src/lib/gemini.ts:59 | `startsWith` holds exactly when the prefix is no longer than the string and agrees with it at every position |
| ImageValidator.Split | src/lib/gemini.ts:63 | `split` yields at least one piece and no piece contains the separator |
| ImageValidator.JoinSplit | src/lib/gemini.ts:63 | joining the pieces with the separator gives back the original string |
| ImageValidator.SplitFirst | src/lib/gemini.ts:63 | the first piece is the separator-free prefix up to the first separator (or the end); the other pieces are those of the text after that separator |
| ImageValidator.SplitCount | src/lib/gemini.ts:63 | `split` yields more than one piece exactly when the separator occurs |
| ImageValidator.Base64Body | src/lib/gemini.ts:63 | `split(",")[1]` is defined exactly when the payload holds a comma, and it never contains a comma |
| ImageValidator.Utf16Length | src/lib/gemini.ts:68 | `base64.length` counts UTF-16 code units: between one and two per character |
| ImageValidator.Utf16LengthBmp | src/lib/gemini.ts:68 | for text in the Basic Multilingual Plane, as a base64 body is, that length is the character count |
| ImageValidator.AstralCountsTwice | src/lib/gemini.ts:68 | every character beyond U+FFFF, such as an emoji, counts as two units |
| ImageValidator.EstimatedBytes | src/lib/gemini.ts:68-69 | the estimate `(length * 3) / 4` is non-negative and is below 4 MiB exactly when `3 * length < 16777216` |
| ImageValidator.SizeBoundExact | src/lib/gemini.ts:68-69 | the size test passes exactly when the body has at most 5592405 UTF-16 units |
| ImageValidator.IsValidBase64Image | src/lib/gemini.ts:57-73 | an accepted payload starts with `data:image/`, holds a comma, and its body is non-empty with at most 5592405 UTF-16 units |
| ImageValidator.NoCommaRejected | src/lib/gemini.ts:63-66 | a payload without a comma has no body (`undefined`) and is refused |
| ImageValidator.ValidIff | src/lib/gemini.ts:57-73 | with the first comma at `i` and the next comma (or the end) at `j`, the body is `s[i+1..j]`, and the payload is accepted exactly when it starts with `data:image/`, the body is non-empty and `3 * L < 16777216` for the body's UTF-16 length `L` |
| SessionLog.KeepLast | src/lib/gemini.ts:50-52 | dropping the oldest message while more than `n` remain leaves `min(|s|, n)` messages |
| SessionLog.KeepLastIsSlice | src/lib/gemini.ts:50-51 | that drop-oldest rule keeps the same messages as `slice(-10)` applied only when the list is longer than ten |
| SessionLog.SliceFromEnd | src/lib/gemini.ts:51 | `slice(-k)` keeps the last `k` elements (the whole list when `k` is 0 or at least its length), in order |
| SessionLog.KeepLastIsSliceFromEnd | src/lib/gemini.ts:50-51 | for a positive `n`, the drop-oldest rule equals `slice(-n)` applied only when the list is longer than `n` |
| SessionLog.KeepLastAppend | src/lib/gemini.ts:45-52 | trimming, appending and trimming again equals appending everything and trimming once |
| SessionLog.AppendOne | src/lib/gemini.ts:45-52 | after one write the list has 1 to 10 messages, whatever was stored before; the new message is last, and the messages before it are the newest old ones in their original order |
| SessionLog.TwoWrites | src/lib/gemini.ts:97-108 | writing a user message and then an assistant message leaves exactly the last ten of `old ++ [user, assistant]` |
| SessionLog.EvictOldest | src/lib/gemini.ts:50-51 | writing an eleventh message evicts exactly the oldest one and keeps the order of the other ten |
| SessionLog.ReplayIsKeepLast | src/lib/gemini.ts:41-55 | any non-empty run of writes leaves the last `min(|old| + |written|, 10)` messages of everything written, in write order, so N successful analyses leave `min(|old| + 2N, 10)` |
| SessionLog.EmptySession | src/lib/gemini.ts:27-37 | the fallback session has no messages and carries the clock reading as `lastActive` |
| SessionLog.ReadSession | src/lib/gemini.ts:25-39 | the read never fails. It returns the stored session when there is a window and a parsed record; with no window, no key, or unparseable text it returns an empty session stamped with the clock reading |
| SessionLog.ReadHistory | src/lib/gemini.ts:150-152 | the history is the stored record's messages, and is empty with no window, no key, or a corrupt record |
| SessionLog.ReadAsWritten | src/lib/gemini.ts:25-39 | the read as written yields no session exactly when there is a window and the key holds a value without a `messages` list; otherwise it agrees with the corrected read |
| SessionLog.UpdateAsWritten | src/lib/gemini.ts:41-55 | the write as written throws exactly when there is a window and the key holds a value without a `messages` list; without a window it changes nothing |
| SessionLog.UpdateAsWrittenAgrees | src/lib/gemini.ts:41-55 | with a window and a record that is missing, unparseable or well-formed, the write as written stores the last ten of `history ++ [m]` |
| SessionLog.NotASessionBreaksLog | src/lib/gemini.ts:25-55 | a stored JSON value without a `messages` list gives no session from the read as written and makes the write as written throw; the corrected read sees an empty log |
| Gemini.ImageRequest | src/lib/gemini.ts:81-92 | an accepted image is sent with the fixed instruction and its non-empty base64 body as `image/jpeg` |
| Gemini.TextRequest | src/lib/gemini.ts:121-124 | a description is sent verbatim after the fixed instruction lead, with no image |
| Gemini.ErrorText | src/lib/gemini.ts:111-116 | the message of a thrown `Error` sits between `Error: ` and `. Please try again.`; any other thrown value gives the fixed fallback |
| Gemini.Store.History | src/lib/gemini.ts:150-152 | the history on the current storage is the stored record's messages, and empty without a window or a readable record |
| Gemini.Store.UpdateSessionData | src/lib/gemini.ts:41-55 | with a window the key now holds the last ten of `history ++ [m]` stamped `now`, and every other key is unchanged; without a window nothing changes |
| Gemini.Store.ClearSession | src/lib/gemini.ts:154-158 | with a window only the session key is removed, without one nothing changes; either way the history then reads empty |
| Gemini.Store.RecordExchange | src/lib/gemini.ts:97-108 | the two consecutive writes of a success leave the last ten of `history ++ [user, assistant]`, with the assistant's time as `lastActive` |
| Gemini.Store.AnalyzeImage | src/lib/gemini.ts:75-117 | an invalid payload returns `Error: Invalid image data. Please try again.` and a failed model call returns its error text, both leaving storage unchanged; on a reply it returns the reply text, and the log gains the placeholder user message with the image, then the assistant message |
| Gemini.Store.AnalyzePrompt | src/lib/gemini.ts:119-148 | a failed model call returns its error text and leaves storage unchanged; on a reply it returns the reply text, and the log gains the description as the user message, then the assistant message |

## Left out

- src/app/page.tsx and src/app/layout.tsx are not part of this model. They hold the UI: webcam capture, geolocation, the `fetch` to the search proxy, markdown rendering, and page metadata. The page's in-memory `messages` list is a separate copy for display, with no cap.
- backend/index.js (the search proxy, including its `!query` → 400 check) is not part of this model: it forwards a query to a search library that is not shown.
- The model SDK (`getGenerativeModel`, `generateContent`, `response.text()`), the API key set-up and the `console` logging are not modelled. The model call is the function parameter `generate`, and its reply or failure is whatever that function returns.
- JSON text and `JSON.stringify` are not modelled: storage holds what `JSON.parse` makes of the text. The empty string, which the source treats as a missing key, reads the same as `Unparseable`.
- Gemini.Store.AnalyzeImage: takes one clock reading per message, used for its `timestamp` and for the `lastActive` written with it; the source reads `Date.now()` separately for each.
- Gemini.Store.AnalyzePrompt: same one-reading-per-message clock model as AnalyzeImage.
- Gemini.Store.UpdateSessionData: assumes `localStorage.setItem` succeeds. In the source a quota error would throw into the analysis's `catch`, possibly after the user message was already written.
- Overlapping analyses that race on the read-modify-write are not modelled: every method runs to completion before the next.
- Stored JSON values of the wrong shape that still have a spreadable `messages` (a string, or an array of non-messages, such as `{"messages":"ab"}`) are not modelled. In the source the write then succeeds and stores their pieces as messages.
- Gemini.Store.History: reads through the corrected read, so a stored value without a `messages` list gives an empty history; as written, `getSessionHistory` throws or returns `undefined` there (see Findings).
- Gemini.Store.UpdateSessionData: reads through the corrected read, so with a stored value without a `messages` list it stores `[m]`; as written it throws (see Findings and `SessionLog.UpdateAsWritten`).
- Gemini.Store.RecordExchange: inherits the corrected read of UpdateSessionData; as written, the first write throws on a stored value without a `messages` list.
- Gemini.Store.AnalyzeImage: with a stored value without a `messages` list it records the exchange and returns the reply; as written, the write throws and the call returns an error text such as `Error: Cannot read properties of null (reading 'messages'). Please try again.`, storing nothing.
- Gemini.Store.AnalyzePrompt: same as AnalyzeImage for a stored value without a `messages` list.
- The `try`/`catch` of `isValidBase64Image` is not modelled: nothing in it can throw for a string argument.

## Findings

| source | as written | input that shows it | evidently intended | confidence | as-written member | corrected member |
|---|---|---|---|---|---|---|
| src/lib/gemini.ts:25-55 | `getSessionData` returns whatever `JSON.parse` produced. Only text that does not parse falls back to an empty session | `"gemini-session"` holds the text `null` (or `{}`, `42`), a value with no `messages` list. `getSessionHistory` then throws or returns `undefined`. `updateSessionData` throws on `[...currentSession.messages]`, so every later analysis returns an error text after a successful model call | a stored value without a `messages` list reads as an empty session, like unparseable text | medium, not executed | SessionLog.NotASessionBreaksLog | SessionLog.ReadSession |
