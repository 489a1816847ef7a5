# Chat backend and chat page, modelled in Dafny

This project models a minimal chat web application. The backend keeps the
whole conversation in one in-memory, append-only list of messages
(`{id, role, content, createdAt}`). A submission is validated, stored as a
user message, forwarded with the whole conversation to a completion service,
and answered with an assistant message. The reply is the service's text, a
placeholder when the service answered without text, or a fallback sentence
quoting the user when the call failed. The page holds a copy of the list,
the textarea's text and an in-flight flag. It guards and performs sends and
derives counters, a four-message timeline and truncated previews from the
list.

Modules:

- `Text` (`text.dfy`, modelling the `trim` call of `server.js` and `frontend/src/App.jsx`): JavaScript's `trim`, over the ECMAScript whitespace
  and line-terminator code points, with the fact that it yields `""`
  exactly on blank strings.
- `Chat` (`chat.dfy`, modelling the message record of `server.js`): the message record, roles, and the "completed
  exchanges" invariant `Paired`: user message with non-blank content, then
  a non-empty assistant reply whose id is one more.
- `Server` (`server.dfy`, modelling `server.js`): validation, reply selection, the outbound
  request, and the class `MessageStore` whose `messages` field the submit
  handler appends to twice. Its object invariant is `Paired`.
- `Client` (`client.dfy`, modelling `frontend/src/App.jsx`): the class `ChatClient` with the
  `messages`/`input`/`loading` state and its transitions, plus the pure
  views.

The completion service call is an `Outcome` parameter (`Failed` or
`Replied(text)`), and `Date.now()` and the ISO time strings are parameters
of `Submit`. Each request to the backend seen from the page is a
`RoundTrip` parameter (`Received(list)` or `RequestFailed`). The page's
`handleSend` is split at its `await`: `HandleSend` is the guard and the
`loading := true` step and returns what is posted, and `FinishSend` is the
continuation with its `finally`.

`Server.EndToEndExample` walks through one conversation using only these
contracts: an empty store, "hello" submitted while the completion service
is down, and the resulting list holding the user message and the fallback
that quotes it.

## Model

| member | source | states |
|---|---|---|
| Text.SkipLeading | server.js:34 | the position reached from i is the first non-whitespace position at or after i (or the end), with only whitespace skipped |
| Text.SkipTrailing | server.js:34 | the position reached from j is just after the last non-whitespace character above lo (or lo), with only whitespace skipped |
| Text.Trim | server.js:34 | the trimmed string is the part of the input between its blank prefix and a blank suffix, starts and ends with non-whitespace, and is empty exactly when the input is blank |
| Chat.PairedAppend | server.js:46-76 | appending a user message and its reply keeps the history a sequence of completed exchanges, exactly when the pair is a well-formed exchange |
| Chat.PairedAt | server.js:40-76 | in a paired history the k-th exchange is at positions 2k and 2k+1: a user message followed by an assistant reply with id one more |
| Server.Validate | server.js:32-36 | content is accepted exactly when present and not blank; accepted content is kept verbatim, untrimmed |
| Server.FallbackText | server.js:67 | the fallback is the fixed prefix, the user's content verbatim, then a closing quote |
| Server.ReplyText | server.js:60-67 | the reply is never empty: the service's non-empty text, else the placeholder when it answered without text, else the fallback when the call failed |
| Server.Entries | server.js:56 | one prompt line per stored message, same order, reduced to role and content |
| Server.BuildRequest | server.js:52-57 | the request names the model and holds the system instruction followed by every stored message in order |
| Server.MessageStore.constructor | server.js:13 | the store starts with an empty list |
| Server.MessageStore.List | server.js:26-28 | the read returns the stored list, changes nothing, and the list is a sequence of completed exchanges |
| Server.KeepsPaired | server.js:40-76 | the user message and the reply of an accepted submission, appended to a paired history, leave it paired |
| Server.MessageStore.Submit | server.js:31-80 | invalid content: 400 with the fixed error, nothing sent, list unchanged; valid content: exactly the user message (id now, content verbatim) then the assistant message (id now+1, chosen reply) appended to the unchanged prefix, the request built from the list including the new user message, and 200 with the whole list; the invariant is kept |
| Client.SendDisabled | frontend/src/App.jsx:162 | the send button is disabled exactly when a send is in flight or the input is blank |
| Client.GuardMatchesValidation | frontend/src/App.jsx:35 | with no send in flight, the page posts an input exactly when the backend's validation accepts that input |
| Client.Filter | frontend/src/App.jsx:188 | the filtered list holds every message of the given role with its multiplicity in the list, and no message of another role |
| Client.CountRole | frontend/src/App.jsx:183-194 | a role counter is at most the total, is zero exactly when no message has the role, and is the total exactly when every message has it |
| Client.CountRoleExtremes | frontend/src/App.jsx:188 | filtering by a role keeps nothing exactly when no message has the role, and keeps everything exactly when every message has it |
| Client.FilterAppend | frontend/src/App.jsx:188 | filtering a concatenation is the concatenation of the filtered parts |
| Client.RoleCountsPartition | frontend/src/App.jsx:183-194 | the user-turn and AI-reply counters add up to the total |
| Client.PairedCounts | frontend/src/App.jsx:186-194 | on a history of completed exchanges both counters are half the total |
| Client.ExchangeCounts | frontend/src/App.jsx:186-194 | appending a user message and an assistant message, as one accepted submission does, raises each counter by exactly one |
| Client.Reverse | frontend/src/App.jsx:210 | the reversal has the same length and holds element i at position length-1-i |
| Client.Timeline | frontend/src/App.jsx:208-210 | the timeline holds min(4, total) messages, the newest first |
| Client.Preview | frontend/src/App.jsx:223-225 | content of at most 60 characters is shown as is; longer content becomes its first 60 characters and an ellipsis, so a preview has at most 61 |
| Client.ChatClient.constructor | frontend/src/App.jsx:8-10 | the page starts with no messages, empty input and nothing in flight |
| Client.ChatClient.LoadHistory | frontend/src/App.jsx:14-24 | the loaded list replaces the local one on success; on error the local list is kept |
| Client.ChatClient.Edit | frontend/src/App.jsx:155 | the input becomes the textarea's text |
| Client.ChatClient.HandleSend | frontend/src/App.jsx:33-41 | nothing is posted and nothing changes exactly when the button would be disabled; otherwise the untrimmed input is posted and a send is in flight |
| Client.ChatClient.FinishSend | frontend/src/App.jsx:42-49 | success replaces the list wholesale with the server's and clears the input; failure keeps both; no send is in flight afterwards |
| Client.ChatClient.HandleKeyDown | frontend/src/App.jsx:52-57 | Enter without Shift prevents the newline and acts as a send; any other key changes nothing and posts nothing |

## Left out

- The completion client and the network call (server.js:16-18, 52-58): a foreign library, replaced by the `Outcome` parameter. The model does not relate the outcome to the request it was given.
- Logging of the service error (server.js:65) and of client errors, and the client's `alert` (frontend/src/App.jsx:45-46): console and UI output.
- The Express plumbing: routing, CORS, JSON body parsing, `listen`, environment configuration and the liveness route (server.js:1-10, 21-23, 82-84).
- `Date.now()` and `toISOString()` (server.js:38, 44, 74): clock reads, taken as parameters of `Submit`.
- Interleaving of concurrent requests during the `await` at server.js:52: every submission is atomic here. `Paired` holds only under that assumption, and the model does not claim that ids are unique.
- Non-string request content, which would throw at `.trim()` in JavaScript: content is `Option<string>`.
- Server.MessageStore.Submit: ids are unbounded integers; JavaScript numbers are doubles, exact for millisecond timestamps (far below 2^53).
- Client.Preview: lengths count Dafny characters (Unicode scalar values), while JavaScript counts UTF-16 code units. The two agree except for characters outside the Basic Multilingual Plane.
- Text.Trim: works on Unicode scalar values; lone surrogate code units cannot occur in a Dafny string.
- Rendering of the page: markup, CSS, the role labels, `toLocaleTimeString`, the empty-state hints and auto-scrolling (frontend/src/App.jsx:27-31, 59-252).
- `axios`: the backend round trips seen from the page are `RoundTrip` parameters. A send's continuation (`FinishSend`) is a separate step, so other events may occur while a send is in flight.
