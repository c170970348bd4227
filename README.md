# Rate limiter and POST handlers of the express-practices intake service

This project models the core of a small HTTP intake service written in
TypeScript on Express. There are two parts:

- **`RateLimit`** (`rate_limit.dfy`) models the per-client rate limiter.
  It is a store from client key (the caller's address) to an entry
  `{count, lastRequest}`, plus the two constants `TimeLimit` = 900 000 ms and
  `TryLimit` = 16. Each call does exactly one thing to the caller's entry:
  it creates the entry, resets it, or increments its count and stamps it.
  It then answers admit or reject.
  - The pure function `Step` states what one call does.
  - The class `RateLimiter` holds the store as a `map` field. Its method
    `RateLimit` updates the store in place and is proved equal to `Step`.
  - `Run` feeds a sequence of request times from one client through the
    limiter. The lemmas about it prove the run behaviour: in an unbroken run,
    the first 16 requests are admitted and every later one is rejected.
- **`Handlers`** (`handlers.dfy`) models the decisions and call order of
  `POST /report`, `POST /report-upload` and `POST /upload`.
  - The storage provider and the messaging provider become reply values.
  - Each handler is a function from its inputs and those replies to the
    HTTP response and the ordered list of provider calls it made.
  - `HandleReport` connects `/report` to a live `RateLimiter`.

The clock is an integer parameter `now`, in milliseconds. In the source,
`+now - rateLimitData.lastRequest` turns the two `Date` values into
millisecond numbers, so the model uses integers.

The model follows the code in these points, where a reading of the
limiter as a fixed-window counter would differ:

- There is no fixed window start. The code overwrites `lastRequest` on every in-window request, including rejected
  ones (src/index.ts:42). A run is therefore reset only by an idle gap between
  two consecutive requests that is strictly longer than `TimeLimit`.
- The count keeps growing past the limit, because the increment runs before
  the check.
- Only `/report` consults the rate limiter. The upload routes do not.
- No locking is modelled. The code has none, and the store is a plain `Map`
  used by a single-threaded event loop.
- "Required" means JavaScript truthiness. A file name is accepted when it is
  present and not empty. A provider URL is accepted when it is present and
  not empty.
- `/upload` answers 409, not 400, when the file is missing.
- `/report-upload` streams `Buffer.from(fileContent.path)`. That is the
  file's path string, not the file's bytes. The modelled call records the
  path as the payload.

## Model

| member | source | states |
|---|---|---|
| RateLimit.Step | src/index.ts:30-51 | one call adds the caller's key if it is missing; every other key keeps its entry; no key is removed |
| RateLimit.RateLimiter.constructor | src/index.ts:26 | the limiter starts with an empty store and the invariant holds |
| RateLimit.RateLimiter.RateLimit | src/index.ts:30-51 | the in-place update leaves exactly the store `Step` describes; it keeps the invariant "count ≥ 1 and lastRequest ≤ latest clock seen"; it answers false exactly when the call throttles |
| RateLimit.StepNewKey | src/index.ts:34-35 | a key not in the store is admitted and stored with count 1 stamped `now` |
| RateLimit.StepReset | src/index.ts:37-39 | a gap strictly longer than 900 000 ms resets the entry to count 1 stamped `now` and admits; a gap of exactly 900 000 ms increments instead |
| RateLimit.StepIncrement | src/index.ts:40-47 | within the gap the count grows by exactly one and the entry is stamped `now`, whether or not the request is rejected; the request is admitted exactly when the new count is ≤ 16 |
| RateLimit.StepAdmitsUnlessThrottled | src/index.ts:34-50 | a call answers false if and only if the key is stored, the gap is ≤ 900 000 ms, and the incremented count exceeds 16 |
| RateLimit.StepTouchesOnlyCaller | src/index.ts:34-42 | every other key's presence and entry are unchanged; the store's keys only grow |
| RateLimit.StepDependsOnlyOnOwnEntry | src/index.ts:34-42 | the decision and the caller's new entry depend only on the caller's own entry, so clients never affect each other |
| RateLimit.StepPreservesInvariant | src/index.ts:35-42 | if every entry has count ≥ 1 and lastRequest ≤ clock, then after a call every entry has count ≥ 1 and lastRequest ≤ max(clock, now) |
| RateLimit.RunContinues | src/index.ts:38-47 | continuing an unbroken run from a stored count c, the i-th request is admitted exactly when c + i + 1 ≤ 16, and the count ends at c plus the number of requests |
| RateLimit.FreshRun | src/index.ts:27-50 | a run that starts with a new key or after an idle gap longer than 900 000 ms, and whose later gaps are all ≤ 900 000 ms, admits exactly its first 16 requests and rejects the 17th and every later one |
| Handlers.SecureUrl | src/index.ts:89-98 | the /report-upload callback yields a URL exactly when there is no error and `secure_url` is present and not empty |
| Handlers.PlainUrl | src/index.ts:133-141 | the /upload callback yields a URL exactly when there is no error and `url` is present and not empty |
| Handlers.Report | src/index.ts:59-67 | /report answers 429 exactly when the limiter rejects and 200 exactly when it admits |
| Handlers.HandleReport | src/index.ts:57-67 | against a live limiter, /report records the request as `Step` does and answers 429 exactly when the limiter's throttle rule holds |
| Handlers.ReportUpload | src/index.ts:76-119 | the status is 400, 200 or 500; it is 400 with no provider call exactly when the file or a non-empty name is missing; otherwise the first call is the raw upload under the given name; it is 200 exactly when the upload yields a secure URL and the message is sent, and the body then carries that URL |
| Handlers.ReportUploadSequencing | src/index.ts:86-109 | a message is sent only right after an upload, with the secure URL in its body; it is sent exactly once when a URL was obtained and never otherwise; at most one upload is made |
| Handlers.ReportUploadNoRollback | src/index.ts:103-117 | if the upload succeeds and the message fails, the answer is 500 and the upload stays among the calls made; nothing undoes it |
| Handlers.Upload | src/index.ts:121-153 | the status is 409, 200 or 500; it is 409 with no provider call exactly when the file is missing; otherwise exactly one upload from the file's path under its generated name is made; it is 200 exactly when a URL comes back, and the message then embeds that URL |
| Handlers.UploadNeverNotifies | src/index.ts:121-153 | /upload never calls the messaging provider and uploads at most once |

## Left out

- Express app construction, middleware, route registration, `GET /` and `app.listen` (src/index.ts:1-10, 53-55, 155-159). These are HTTP plumbing.
- Environment, credential loading and provider client setup (src/index.ts:12-24). These are configuration.
- The provider calls themselves (`upload_stream`, `upload`, `messages.create`). These are network calls into foreign libraries. Each is reduced to the reply it gives, and a provider that never replies is not modelled.
- File bytes and multer's disk storage. A file is only its path and its generated name.
- The wall clock `new Date()`. It becomes the parameter `now`.
- All `console.log` output.
- The 500 branch of `/report` (src/index.ts:68-72) is not modelled. `rateLimit` cannot throw, so the branch is unreachable.
- A `req.ip` that is `undefined` is not distinguished. That value would act as one more shared key, and the model treats keys as plain strings.
- A `fileName` form field that is not a string is not modelled. The model takes the field as an optional string.
- In-place update of an entry: the source mutates the stored entry object through `count++` and `lastRequest = now`. The model writes an updated entry value back into the map. The two are equivalent because the entry object never escapes the store.
- Concurrency, timeouts, retries and eviction are not modelled. None of them exists in the code.
