# recht-api: the `/map` request handler in Dafny

recht-api is a small HTTP front end for the `recht` command-line tool, which
looks up German statutes. Its one endpoint, `GET /map?q=<query>`, does three
things:

1. It reads the query parameter `q` and trims it.
2. It rejects an empty result with `400 { error: 'Parameter q fehlt' }`.
3. Otherwise it runs `recht get <word> <word> …`, with one argument per
   whitespace-separated word of `q`. Any error reported to the `execFile`
   callback gives `500 { error: 'Nicht gefunden oder recht-Fehler' }`. Success gives
   `{ url: <trimmed stdout> }` with the default status 200.

The model is pure and has two modules:

- `JsText` (`js_text.dfy`) models the JavaScript string operations the
  handler uses. `IsWhitespace` is the single ECMAScript whitespace class
  (WhiteSpace and LineTerminator). `String.prototype.trim` and `split(/\s+/)`
  both use it. `Trim` is `TrimEnd ∘ TrimStart`. `SplitWs` follows JavaScript
  exactly, including the empty first and last pieces a split leaves when the
  string starts or ends with whitespace. Independent reference definitions
  let the lemmas say what the pieces mean:
  - `RemoveWs` deletes every whitespace character;
  - `Collapse` turns each whitespace run into one space;
  - `WordCount` counts words with a one-pass scanner;
  - `JoinSpace` and `Concat` are `join(" ")` and `join("")`.
- `MapHandler` (`map_handler.dfy`) models the handler:
  - `QueryText` is `req.query.q || ''`;
  - `PrepareRequest` is lines 11-15: it returns a 400 response or the
    argument list;
  - `ShapeOutcome` is lines 17-22: it maps the `execFile` callback to the
    response;
  - `Handle` composes the two, with the external tool passed in as a
    function from argument list to outcome.

`test/index.test.js` asserts a richer API than `index.js` has: a
`normalizeQuery` that upper-cases law codes, strips leading zeros and builds a
cache key, and a `lookupLaw` that parses a URL from the first output line and
reports a missing binary (`ENOENT`) with its own message. `index.js` defines neither
function, so those tests have nothing to check against. `index.js` only trims,
splits on whitespace, and maps any error to one fixed 500 message. The model
follows `index.js`.

## Model

| member | source | states |
|---|---|---|
| `JsText.IsWhitespace` | index.js:11-15 | the one whitespace class shared by `trim` and `\s`: ECMAScript WhiteSpace and LineTerminator; its contract states that every member lies in the Basic Multilingual Plane, so UTF-16 code units and scalar values classify alike |
| `JsText.Trim` | index.js:11 | the result is empty exactly when the input is all whitespace; otherwise it starts and ends with non-whitespace |
| `JsText.TrimOfPadded` | index.js:11 | `trim` removes exactly the surrounding whitespace: padding any trimmed (or empty) string with whitespace on both sides and trimming gives that string back |
| `JsText.TrimUnderPadding` | index.js:11 | adding whitespace on either side of any string leaves its trimmed value unchanged |
| `JsText.TrimIdempotent` | index.js:11 | trimming twice is the same as trimming once |
| `JsText.RemoveWsTrim` | index.js:11 | trimming removes only whitespace: the non-whitespace characters, in order, are unchanged |
| `JsText.WordCountTrim` | index.js:11 | trimming does not change the number of words |
| `JsText.SplitWs` | index.js:15 | `q.split(/\s+/)` with JavaScript's edge cases (`""` gives `[""]`, leading or trailing whitespace gives an empty first or last piece); its own contract says only that the result is never empty, and what the pieces are is stated by `ConcatSplit`, `JoinSplit`, `SplitTrimmedWords`, `SplitTrimmedCount` and `SplitJoin` |
| `JsText.ConcatSplit` | index.js:15 | concatenating the pieces of `split(/\s+/)` gives the input with all whitespace deleted, so the pieces are the input's characters, verbatim and in order |
| `JsText.JoinSplit` | index.js:15 | joining the pieces with single spaces gives the input with every whitespace run collapsed to one space |
| `JsText.SplitTrimmedWords` | index.js:11-15 | on a trimmed string every piece is non-empty and contains no whitespace |
| `JsText.SplitTrimmedCount` | index.js:11-15 | on a trimmed string there is exactly one piece per word |
| `JsText.SplitJoin` | index.js:15 | for a non-empty list of non-empty whitespace-free words, splitting their single-space join gives the list back (split is the inverse of join) |
| `MapHandler.QueryText` | index.js:11 | a present `q` is read as is; a missing `q` is read as the empty string |
| `MapHandler.PrepareRequest` | index.js:11-15 | the request is rejected exactly when `q` is missing or all whitespace, and then with 400 and `'Parameter q fehlt'`; otherwise the argument list starts with `get` and has at least one word after it |
| `MapHandler.ShapeOutcome` | index.js:17-22 | status 200 exactly on success; any error, whatever its diagnostic text, gives 500 with `'Nicht gefunden oder recht-Fehler'`; success gives a body whose only field is `url`, a trimmed string |
| `MapHandler.Handle` | index.js:10-23 | the status is always 200, 400 or 500, and it is 400 exactly when `q` is missing or all whitespace |
| `MapHandler.RejectedWithoutTool` | index.js:11-12 | a missing or whitespace-only `q` gives 400 with the fixed message whatever the tool would do, so the tool is never consulted |
| `MapHandler.AcceptedDependsOnOutcome` | index.js:15-22 | for an accepted `q`, two tools that give the same outcome on the prepared argument list give the same response; the status is 500 exactly when that outcome is an error and 200 exactly when it is a success |
| `MapHandler.AcceptedArgsShape` | index.js:11-15 | the argument list is `get` followed by exactly `WordCount(q)` arguments, each non-empty and whitespace-free |
| `MapHandler.AcceptedArgsVerbatim` | index.js:15 | the arguments after `get`, concatenated, are `q` without its whitespace: no case folding, no zero stripping, no reordering |
| `MapHandler.AcceptedArgsCollapsed` | index.js:11-15 | the arguments after `get`, joined with single spaces, are the trimmed `q` with each whitespace run collapsed to one space |
| `MapHandler.AcceptedArgsCanonical` | index.js:11-15 | resubmitting the words joined by single spaces as `q` gives the same argument list |
| `MapHandler.PaddingIrrelevant` | index.js:11 | for every `q`, whitespace added around it does not change how the request is prepared (rejection included) |
| `MapHandler.SuccessBodyIsTrimmedOutput` | index.js:22 | on success the response is 200 with `url` equal to the standard output minus its surrounding whitespace, with no further parsing |

## Left out

- Express setup, routing, the `res.status().json()` plumbing, static file serving and `APP.listen` (index.js:1-7, 10, 27, 30): framework I/O. The response is a value `Response(status, body)`; `res.json` without a status is written as 200.
- `execFile` process spawning, stderr capture and `console.error` logging (index.js:17, 19): operating-system calls. Only their result is modelled, as the input `ToolOutcome`; the `Err` diagnostic text is kept only to show that it never reaches the response.
- MapHandler.Handle and MapHandler.AcceptedDependsOnOutcome: a synchronous throw from `execFile` itself (index.js:17) is not modelled. For example, Node.js rejects an argument that contains U+0000, as `?q=a%00b` gives. In that case the tool never starts and the callback never runs, and Express answers with its own default 500 page instead of the JSON body. The model sends such an argument list to the tool like any other, so its "500 exactly on `Err`, 200 exactly on `Ok`" holds only for requests where `execFile` reaches its callback. Node's argument validation is not part of this model.
- `stdout.toString()` (index.js:22): byte decoding is not modelled; standard output is taken as an already-decoded string.
- Query values that are not strings: Express can deliver an array or an object for `q` (for example, when `q` is repeated). `req.query.q || ''` then yields a non-string, whose `.trim` does not exist. `Option<string>` covers only an absent or a string `q`.
- Strings are sequences of Unicode scalar values, while JavaScript strings are UTF-16 code units. Every whitespace character is in the Basic Multilingual Plane, so trimming and splitting agree. Lengths of strings with astral characters differ, but the handler uses no lengths.
- Concurrency of simultaneous requests and the asynchronous callback: they do not affect the shaping logic.
- The law-code upper-casing, leading-zero stripping, cache key, URL-first-line parsing, ENOENT classification and the `Vorschrift` message asserted in test/index.test.js:5-56: `lookupLaw` and `normalizeQuery` are not defined in `index.js`. Their implementation is not part of this model.
