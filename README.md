# Chat session relay — Dafny model

This project models the serverless chat endpoint `api/chat.js`. The endpoint
keeps a process-wide map from session id to session. Each session has an id,
an append-only list of messages and a creation time. For each request the
handler:

1. answers `OPTIONS` with 200 and no body, and any other non-POST verb with 405;
2. rejects a missing or empty `message` with 400;
3. gets the session stored under `sessionId`, or creates one named
   `sessionId || uuidv4()` and stores it;
4. appends the user's message;
5. sends the whole history, each entry reduced to role and content, to the
   completion service;
6. on success appends the assistant's reply, stores the session again, and
   answers `{response, sessionId, citations || []}`;
7. on failure answers 401 or 429 with their fixed messages, and 500 for
   anything else. The user message is not rolled back.

`chat.dfy` (module `Chat`) holds the data model. `Chat.Step` is the effect of
one request as a function of the store: the new store, the response, and the
history sent upstream when a call is made. The class `Chat.ChatSessions`
holds the store as a mutable `map` field. Its `Handle` method follows the
handler statement by statement: the `set` at line 37, the two `push`es, and
the second `set` at line 77. It is proved to produce exactly what `Step`
describes. `chat_properties.dfy` (module `ChatProperties`) proves what a
request does in terms of `Step`. It also proves what a sequence of requests
does, in terms of `Run`.

Inputs that the handler takes from its environment are parameters of the
model:
- the id that `uuidv4()` would generate (`freshId`);
- the three `new Date()` readings (`Clock`, as opaque ticks);
- what the completion service did (`Upstream`): it answered with a list of
  completion texts and optional citations, it failed with an HTTP status, or
  it failed with no HTTP response.

Some behaviour of the handler is easy to miss:
- A supplied but empty `sessionId` is falsy, so it gets a generated id,
  unless `""` is already a key. `chatSessions.get("")` then finds and reuses
  that stored session.
- A request with no body throws while destructuring inside the `try`, so it
  answers 500.
- An answer whose `choices` list is empty throws a `TypeError` at line 67.
  That error has no `response`, so it answers 500 and keeps the user message.
- The 400 text is `Message is required`.

## Model

| member | source | states |
|---|---|---|
| Chat.Step | api/chat.js:13-102 | every request keeps the invariant that each session is stored under its own id |
| Chat.ChatSessions.constructor | api/chat.js:5 | the store starts empty and well keyed |
| Chat.ChatSessions.Handle | api/chat.js:7-104 | the handler's in-place updates leave exactly the store, response and upstream payload that `Step` describes, and keep the store well keyed; since `Step` stores the answered session once, this equality also shows that the repeated `set` at line 77, after the push has already stored the session, changes nothing |
| Chat.Project | api/chat.js:50-53 | the payload has one entry per message, in order, each the message's role and content |
| ChatProperties.ProjectAppend | api/chat.js:50-53 | projecting a concatenation is the concatenation of the projections |
| ChatProperties.MethodGate | api/chat.js:13-20 | OPTIONS gives 200 with no body, any other non-POST verb gives 405 "Method not allowed"; the store is unchanged and nothing is sent |
| ChatProperties.MessageIsRequired | api/chat.js:25-27 | a POST with a missing or empty message gives 400 "Message is required", the store is unchanged and nothing is sent |
| ChatProperties.CalledExactlyWhenAccepted | api/chat.js:13-65 | upstream is called if and only if the request is a POST with a body and a truthy message; without a call the store is unchanged |
| ChatProperties.UnknownIdCreatesSession | api/chat.js:30-38 | an unknown or absent id creates an empty session stamped with the creation tick; it is named by the id when that is truthy (then it is a new key), otherwise by the generated id; it is in the store afterwards |
| ChatProperties.KnownIdReusesSession | api/chat.js:30-45 | a known id reuses the stored session; its id and creation time stay, and its old history is a proper prefix of the new one |
| ChatProperties.SentIsWholeHistory | api/chat.js:41-53 | the payload is the projection of the prior history followed by the new user turn, one entry longer than the prior history |
| ChatProperties.SuccessAppendsTwo | api/chat.js:67-83 | on success the stored entry is the addressed session with its id and creation time unchanged and exactly the user message then the reply appended, so the history grows by 2; the answer is 200 with the first completion, the session's id and the citations or `[]` |
| ChatProperties.FailureKeepsUserMessage | api/chat.js:85-102 | status 401 and 429 give their fixed messages and every other failure gives 500; the session, new or not, is stored with the user message appended and no reply |
| ChatProperties.OnlyAddressedEntryChanges | api/chat.js:30-77 | the store's keys become the old keys plus the addressed id, and every other entry is unchanged |
| ChatProperties.ReturnedIdContinuesSession | api/chat.js:30-81 | the id a success returns is a key of the new store; a later request carrying it continues that session; it is non-empty when the generated id is and no "" key was stored |
| ChatProperties.FirstQuestion | api/chat.js:30-83 | "What is 2+2?" with no session id and the answer "4" citing "src1" returns ("4", generated id, ["src1"]) and stores a new session holding exactly those two messages |
| ChatProperties.EmptyMessageCreatesNothing | api/chat.js:25-27 | an empty message under id "abc" gives 400 and "abc" is a key afterwards only if it was before |
| ChatProperties.TwoExchanges | api/chat.js:30-77 | "hello" then "how are you" on one id leave user, assistant, user, assistant with exactly the sent and received contents after the prior history |
| ChatProperties.Run | api/chat.js:5 | a sequence of requests over the one shared store keeps it well keyed |
| ChatProperties.StepAppendOnly | api/chat.js:30-77 | when the generated id is not a key, no session is lost, no creation time changes, and every old history is a prefix of the new one |
| ChatProperties.RunAppendOnly | api/chat.js:5-77 | over any run whose generated ids are unused, every session survives with its creation time, and its history only grows at the end |
| ChatProperties.RunKeepsKeys | api/chat.js:37-77 | no sequence of requests ever removes a key |

## Left out

- CORS headers (api/chat.js:9-11) and `console.error` logging: response plumbing with no effect on the store or on the status and body.
- The HTTP client call, its bearer header and the API key read from the process environment (api/chat.js:48-65): a foreign call. Its result is the `Upstream` input.
- The fixed model name and sampling settings sent upstream (`max_tokens`, `temperature`, `top_p`, citation flag, filters): constants that are passed through without logic. The model gives only the message list of the payload.
- UUID generation and `Date` values: supplied as `freshId` and `Clock`.
- The suspension at `await` and the race between concurrent requests on one session: each request is one atomic step.
- Object identity: a session is a value written back into the map after each `push`. Nothing else holds a reference to it, so this does not change what is stored.
- JSON values that are not strings in `message`, `sessionId`, the completion list or `citations` (numbers, objects, a completion without `message.content`): only strings, absent values and nulls are modelled.
- StepAppendOnly: assumes the generated id is not already a key. With a collision, the source's `set` replaces that session with a new empty one; the model does the same, and `RunKeepsKeys` still holds.
- RunAppendOnly: assumes the same of every request in the run, for the same reason.
- ReturnedIdContinuesSession: claims a non-empty id only when no "" key is stored. Such a key exists only if an earlier generated id was empty, and it would be reused.
- fix-pwa.js and deploy.js: file-system and build tooling, not part of this model.
