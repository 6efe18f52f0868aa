# Cached question answering: a Dafny model

This project models the core of a small Flask question-answering app (`app.py`).
A user posts a question. The app normalises it with `strip().lower()` and looks
it up in a MongoDB collection of `{question, answer}` records. On a hit it
returns the stored answer. On a miss it sends the Gemini generator a fixed
instruction followed by the question. A generator failure becomes one of three
fixed messages, or "❌ Error: " followed by the error text. The answer is
saved only when it is non-empty and does not start with one of the failure
markers ❌, ⏰ or ⚠️. Two diagnostic routes view the store (`view_db`) and clear it
(`clear_db`).

Layout:

- `pystr.dfy`
  - module `Options`: the optional value of a form field or lookup.
  - module `PyStr`: the Python `str` operations the flow uses. These are
    `isspace`, `strip`, `lower`, the `in` substring test, `startswith` and
    `str(int)`. It also proves what they promise.
- `gemini.dfy`, module `Gemini`: `query_gemini`. This covers the prompt, the
  stripping of a response and the classification of failures.
- `app.dfy`, module `App`: the `home` flow.
  - `Respond` is the reference function for one request.
  - The class `AnswerStore` holds the collection as a sequence of records.
    Its methods `Ask`, `Clear` and `View` update or read it in place. `Ask` is
    proved equal to `Respond`.
  - Lemmas relate several requests, for example that keys stay unique and
    that a saved answer is served from the cache.

External behaviour arrives as parameters of `Ask` (and fields of `Request`):

- `lookupFails`: `find_one` raised.
- `gen`: the generator's outcome, `Ok(text)` or `Err(detail)`, where `detail`
  is `str(e)`.
- `insertFails`: `insert_one` raised.

`Ask` also returns a `Path`, which records how the request was handled:

- `Unanswered`: the question was missing.
- `CacheHit`: the answer came from the store.
- `Generated(prompt, stored)`: the generator was called. `prompt` is the text
  it received and `stored` says whether the answer was saved.

A missing question is detected by `if not question` (app.py:78). That test
rejects only an absent or empty form field. A question of whitespace alone
passes it and is looked up and generated under the key `""`
(`App.WhitespaceQuestionKey`).

## Model

| member | source | states |
|---|---|---|
| PyStr.IsSpace | app.py:54 | Python's `str.isspace` set of code points, which `strip()` with no argument removes (also at app.py:81) |
| PyStr.LowerChar | app.py:81 | lowercasing keeps a character's whitespace status, never yields an upper-case ASCII letter, maps `A`-`Z` to `a`-`z` and leaves every other character alone |
| PyStr.Lower | app.py:81 | `lower()` keeps the length and lowercases every character in its place |
| PyStr.LowerIdempotent | app.py:81 | lowercasing a lowercased string changes nothing |
| PyStr.TrimStart | app.py:81 | `lstrip()` returns a suffix whose dropped prefix is all whitespace and which starts with a non-space or is empty |
| PyStr.TrimEnd | app.py:81 | `rstrip()` returns a prefix whose dropped suffix is all whitespace and which ends with a non-space or is empty |
| PyStr.Strip | app.py:81 | `strip()` as `lstrip()` followed by `rstrip()`; its properties are stated by PyStr.StripIsTrimmedSlice, PyStr.StripPadding, PyStr.StripLower and PyStr.StripIdempotent |
| PyStr.TrimmedTwice | app.py:81 | cutting leading whitespace and then trailing whitespace leaves a slice of the input with non-space ends, empty exactly when the input is all whitespace |
| PyStr.StripIsTrimmedSlice | app.py:81 | `strip()` returns a contiguous slice with whitespace only cut off on either side; the slice has non-space ends; it is empty exactly when the input is all whitespace |
| PyStr.TrimStartAllSpace | app.py:81 | `lstrip()` of an all-whitespace string is empty |
| PyStr.TrimStartPadding | app.py:81 | leading whitespace does not change `lstrip()` |
| PyStr.TrimStartKeepsTail | app.py:81 | once `lstrip()` meets a non-space, everything after it is kept |
| PyStr.TrimEndPadding | app.py:81 | trailing whitespace does not change `rstrip()` |
| PyStr.StripPadding | app.py:81 | surrounding whitespace does not change `strip()` |
| PyStr.TrimStartLower | app.py:81 | `lstrip()` commutes with `lower()` |
| PyStr.TrimEndLower | app.py:81 | `rstrip()` commutes with `lower()` |
| PyStr.StripLower | app.py:81 | `strip()` commutes with `lower()` |
| PyStr.StripFixesTrimmed | app.py:54 | a string with non-space ends is returned by `strip()` unchanged |
| PyStr.StripIdempotent | app.py:81 | stripping twice is stripping once |
| PyStr.Contains | app.py:62-66 | Python's `t in s`: `s` starts with `t` or `t` is in the rest of `s`; PyStr.ContainsAt states it as an occurrence at some offset |
| PyStr.StartsWith | app.py:97 | `s.startswith(p)`: `p` is no longer than `s` and equals its leading characters |
| PyStr.ContainsAt | app.py:62-66 | the `in` test holds exactly when the pattern occurs at some offset |
| PyStr.Decimal | app.py:165 | the deleted count is rendered as decimal digits with no leading zero |
| PyStr.DecimalRoundTrip | app.py:165 | reading the rendered count back gives the count |
| Gemini.Prompt | app.py:47 | the prompt is the fixed instruction followed by the question exactly as typed |
| Gemini.NamesBadKey | app.py:62 | the first test: "API_KEY_INVALID" or "401" occurs in the error text |
| Gemini.NamesRateLimit | app.py:64 | the second test: "quota" occurs in the lowercased error text, or "429" in the error text |
| Gemini.NamesSafety | app.py:66 | the third test: "SAFETY" occurs in the error text, case-sensitively |
| Gemini.Categorize | app.py:62-68 | the `if`/`elif` chain as a category: invalid key, rate limit, safety, or unclassified with the detail; its order is stated by Gemini.ClassifyOrder |
| Gemini.Message | app.py:63-69 | the fixed message of each category, and "❌ Error: " + detail for an unclassified one; Gemini.Classify and Gemini.ClassifyOrder state that each carries a marker and that the four are distinct |
| Gemini.HasFailureMarker | app.py:97 | the three `startswith` tests of the save condition: the text starts with ❌, ⏰ or ⚠️ |
| Gemini.Classify | app.py:62-69 | every failure message starts with one of the markers ❌, ⏰, ⚠️ |
| Gemini.ClassifyOrder | app.py:62-69 | the invalid-key message appears exactly when "API_KEY_INVALID" or "401" occurs. The rate-limit message appears exactly when neither occurs but "quota" (case-insensitive) or "429" does. The safety message appears exactly when none of those occur but "SAFETY" does. The generic "❌ Error: " + detail appears exactly when none match |
| Gemini.Query | app.py:54-69 | a generator failure yields a marked message; a successful response yields the response with surrounding whitespace trimmed |
| App.Missing | app.py:78 | `not question`: the field is absent or empty; a whitespace-only question is not missing (App.WhitespaceQuestionKey) |
| App.Normalize | app.py:81 | the cache key `strip().lower()` has no whitespace at either end, no upper-case ASCII letter and is no longer than the question; App.SameKey and App.NormalizeIdempotent state its invariance |
| App.SameKey | app.py:81-85 | questions that differ only in letter case and surrounding whitespace get the same cache key |
| App.WhitespaceQuestionKey | app.py:78-81 | a non-empty question of whitespace only is not rejected, and its key is empty |
| App.NormalizeIdempotent | app.py:81 | a cache key normalises to itself |
| App.Cacheable | app.py:97 | the save condition: a non-empty answer that starts with none of ❌, ⏰, ⚠️; App.CacheableByLeadingChars restates it in code points |
| App.CacheableByLeadingChars | app.py:97 | an answer passes the save condition exactly when it is non-empty and starts with neither U+274C, nor U+23F0, nor the pair U+26A0 U+FE0F |
| App.Find | app.py:85-87 | the lookup finds nothing exactly when no record has the key; otherwise it returns the answer of the first record with the key |
| App.FindAppended | app.py:99-102 | a record saved under a key the store lacked is what the next lookup of that key returns |
| App.Respond | app.py:73-105 | a missing or empty question gets "Please ask a question." and leaves the store unchanged. A hit needs a successful lookup, returns the stored answer and changes nothing. A successful lookup that finds the key is always a hit. Otherwise the generator gets the prompt and the answer is its result. The answer is saved exactly when it is cacheable and the insert succeeds. The store afterwards is the old store plus that one record under the normalised key when it is saved, and the old store otherwise. A generator failure never changes the store |
| App.CacheHitServesStored | app.py:85-89 | on a hit the stored answer is returned verbatim, no generator is called and the store is unchanged |
| App.RespondKeepsKeysUnique | app.py:85-102 | a request whose lookup succeeds never adds a second record for a key |
| App.RunKeepsKeysUnique | app.py:85-102 | any sequence of asks and clears whose lookups all succeed keeps at most one record per question |
| App.SavedAnswerIsServed | app.py:81-102 | after an answer is saved, the same question asked again is served from the cache with that answer and no generator call. This holds for any variant with the same lowercase form and any surrounding whitespace |
| App.FailedLookupSaves | app.py:90-102 | when `find_one` raises, a cacheable response is appended under the normalised key whatever the store holds |
| App.LookupFailureDuplicates | app.py:90-102 | when lookups raise, asking one question twice appends two identical records to any store, so uniqueness depends on lookups succeeding |
| App.AnswerStore.Ask | app.py:73-107 | the imperative flow returns the answer and path, and leaves the store exactly as `Respond` says |
| App.AnswerStore.Clear | app.py:158-166 | the store is emptied; the reported count is the previous store size; the message is "Deleted N records" |
| App.AnswerStore.View | app.py:146-154 | total is the store size; data is a prefix of the store of at most 50 records, and fewer only when the store holds fewer |

## Left out

- PyStr.LowerChar: maps only the ASCII letters. Python's full Unicode case mapping is not modelled, including one-to-many mappings such as U+0130. The lemmas rely only on lowercasing keeping whitespace status and being idempotent.
- Flask routing, form parsing and `render_template`. `Ask` returns the rendered answer string. A GET request renders no answer and is not modelled.
- MongoDB client setup, TLS options, the start-up ping and its failure handling. These are driver calls. The collection is an abstract sequence of records.
- App.Find: assumes `find_one` without a sort returns the first matching record in insertion order. With unique keys the choice does not matter.
- App.AnswerStore.View: makes the same assumption. `find({}).limit(50)` has no sort, and the model takes the first 50 records in insertion order.
- The exception branches of `view_db` and `clear_db`. They depend on the driver. A failed `delete_many` may have deleted some records, which the driver does not report.
- An `insert_one` that raises after the record was written is not modelled. The model treats a raised insert as not written.
- The `test_mongo`, `test_api` and `list_models` routes. They are direct calls to the driver or the generator SDK.
- The Gemini SDK itself (`configure`, `GenerativeModel`, `generate_content`). Its outcome is the `gen` parameter. A `response.text` that raises is an `Err`.
- Sampling temperature and output-token limit. These are floating-point settings of the external service.
- Environment loading and all `print` logging. These are I/O.
- Concurrent requests racing on one key. This depends on the web server and the database.
- `static/script.js`: DOM updates, `fetch` and the typing animation. These are user-interface code with asynchronous I/O.
