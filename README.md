# Chat client decision logic, modelled in Dafny

The chat client is a single-page React application. It keeps a list of
conversations, sends prompts to a model API through a chain of fallback
relays, and renders assistant replies with their `<think>…</think>`
reasoning set apart. This project models four pieces of its logic and
proves what they promise:

- **The think-tag segmenter** (`Segmenter`, with worked inputs in
  `SegmenterExamples`). It splits an assistant message into text parts and
  thought parts. The regular expression is case-insensitive, non-greedy and
  global; it is modelled by `NextMatch`, the leftmost opening tag closed by
  the first closing tag after it. `ScanParts` is the scanning loop and
  `ProcessContent` is the whole memoised computation, including the
  escaped-tag branch.
- **The request path** (`ChatService`, with `UriComponent`).
  - `FetchWithFallback` tries the direct URL, then two relays, and stops at
    the first `ok` response.
  - `SendMessageToApi` builds the URL, checks the body and rewraps every
    error.
  - `fetch` is an oracle `net: Request -> Outcome`: each attempt resolves
    `ok`, resolves not-ok, or throws.
  - `encodeURIComponent` is UTF-8 percent-encoding with upper-case hex,
    leaving the unreserved characters of section 2.3 of RFC 3986 plus
    `! ~ * ' ( )` as they are. It is proved invertible.
- **The session state** (`App`). The list transitions (create, delete,
  retitle, append a message, look up the open conversation) are pure
  functions over `seq<ChatSession>`. The `ChatApp` class holds `sessions`,
  `currentSessionId`, `input`, `isLoading` and `currentModel`; its methods
  apply those functions in the order the handlers call their setters.
  `handleSendMessage` is split at its `await` into `BeginSend` and
  `FinishSend`, and `HandleSendMessage` composes them around
  `ChatService.SendMessageToApi`.
- **The sidebar list** (`Sidebar`). It keeps the sessions whose lower-cased
  title contains the lower-cased search term, and stably sorts them newest
  first.

Shared pieces:
- `Types` mirrors the records of types.ts.
- `Text` holds the string helpers: ASCII lower-casing, `includes`,
  `startsWith`, `trim` and a literal global replace.
- `Seqs` holds `filter` and its laws.
- `Common` holds `Option` and `Result`.

## Model

| member | source | states |
|---|---|---|
| Segmenter.FindTagFirst | components/MessageBubble.tsx:16 | the tag search returns the first case-insensitive occurrence at or after the start index, and none exactly when there is none |
| Segmenter.NextMatch | components/MessageBubble.tsx:16-21 | a match found from an index starts at or after it, and its opening tag ends before its closing tag, which lies inside the content |
| Segmenter.NextMatchIsPair | components/MessageBubble.tsx:16 | a regex match is an opening tag and a closing tag with no opening tag before it (leftmost) and no closing tag between them (non-greedy) |
| Segmenter.NextMatchNone | components/MessageBubble.tsx:16 | the regex finds nothing exactly when no opening tag from the index on has a closing tag after it |
| Segmenter.NextMatchLeftmostShortest | components/MessageBubble.tsx:16-21 | both directions together: a match is the leftmost opening tag with its nearest closing tag, and no match means no pair |
| Segmenter.NextMatchAt | components/MessageBubble.tsx:16 | conversely, a leftmost pair with no closing tag inside it is the match |
| Segmenter.MatchIsPair | components/MessageBubble.tsx:16 | a match starts with `<think>` and is closed by `</think>`, compared case-insensitively |
| Segmenter.ScanParts | components/MessageBubble.tsx:17-33 | the loop over regex matches advancing the last index yields exactly the scan specification's parts |
| Segmenter.ProcessContent | components/MessageBubble.tsx:12-45 | the memoised result: null for user messages, otherwise the parts, the escaped-tag fallback, or the whole content as one text part |
| Segmenter.UserMessagesNotSegmented | components/MessageBubble.tsx:10-13 | the result is null exactly for user messages |
| Segmenter.SegmentsEmptyIff | components/MessageBubble.tsx:31-33 | the scan yields no parts exactly when the content is empty |
| Segmenter.EscapeBranchUnreachable | components/MessageBubble.tsx:36-44 | an empty part list means empty content, which holds no escaped tag, so an assistant message gets its parts, or one empty text part for empty content |
| Segmenter.SegmentsHaveThinkIff | components/MessageBubble.tsx:21-27 | some part is a thought exactly when the regex matches somewhere |
| Segmenter.NoPairYieldsWholeText | components/MessageBubble.tsx:31-44 | an assistant message yields exactly one text part equal to its content iff it holds no case-insensitive tag pair, empty content included |
| Segmenter.MatchedTagsAreTags | components/MessageBubble.tsx:16 | every consumed tag pair is `<think>` and `</think>` in some letter case |
| Segmenter.Reconstruct | components/MessageBubble.tsx:21-32 | the text parts, with each thought wrapped again in the tags it was matched with, reproduce the content exactly and in order |
| Segmenter.SegmentsTidy | components/MessageBubble.tsx:23-31 | no text part is empty, and a text part is followed by a thought unless it is the last part, so adjacent matches give consecutive thoughts |
| Segmenter.ThinkHasNoCloseTag | components/MessageBubble.tsx:16-27 | matching does not nest: no thought contains `</think>` in any letter case |
| Segmenter.InnerUnclosed | components/MessageBubble.tsx:16-27 | the captured group of one match holds no closing tag |
| SegmenterExamples.PlainPair | components/MessageBubble.tsx:21-32 | `A<think>B</think>C` gives text A, thought B, text C |
| SegmenterExamples.NestedTags | components/MessageBubble.tsx:16-32 | `<think>a<think>b</think>c</think>` gives thought `a<think>b`, then text `c</think>` |
| SegmenterExamples.AdjacentPairs | components/MessageBubble.tsx:23-27 | `<think>a</think><think>b</think>` gives two thoughts with no text between them |
| SegmenterExamples.MixedCaseTags | components/MessageBubble.tsx:16 | `<THINK>x</Think>` is one thought |
| SegmenterExamples.UnclosedTag | components/MessageBubble.tsx:31-32 | `a<think>b`, an opening tag with no closing tag, is one text part holding the whole content verbatim |
| UriComponent.Encode | services/chatService.ts:23-43 | the encoded text holds only unreserved characters and `%`, so never `&`, `=`, `?` or `#` |
| UriComponent.EncodeUnreserved | services/chatService.ts:43 | text made of unreserved characters is left unchanged |
| UriComponent.DecodeEncode | services/chatService.ts:23-43 | percent-decoding and then UTF-8 decoding the encoding gives back the original text |
| UriComponent.EncodeInjective | services/chatService.ts:43 | two texts have the same encoding iff they are equal |
| ChatService.FirstOk | services/chatService.ts:11-37 | the index of the first request whose response is `ok`; every earlier one failed, and with none, all failed |
| ChatService.FirstOkSelected | services/chatService.ts:9-40 | the first `ok` response is returned and exactly the requests up to it are issued; with none, all are issued and the "multiple attempts" error is thrown |
| ChatService.NotOkLikeThrows | services/chatService.ts:16-34 | a non-ok response falls through exactly like a thrown error: the result and the requests issued do not depend on which it was |
| ChatService.FetchWithFallback | services/chatService.ts:9-40 | the three attempts with early returns compute the selection rule and issue its requests |
| ChatService.StrategiesCarryTarget | services/chatService.ts:11-32 | the direct request alone carries the 3000 ms abort; each relay URL is its fixed prefix followed by text that decodes back to the target URL |
| ChatService.TargetUrl | services/chatService.ts:43 | the target URL starts with the API base and `?prompt=`, and ends with `&model=` and the model name |
| ChatService.TargetUrlInjective | services/chatService.ts:43 | the target URL determines the prompt and the model, because the encoded prompt cannot contain `&` |
| ChatService.AvailableModelsNeedNoEncoding | services/chatService.ts:43 | every offered model name would come out of `encodeURIComponent` unchanged, so leaving it unencoded is harmless |
| ChatService.InnerMessage | services/chatService.ts:57 | the inner message is never empty and is the error's own message when that is non-empty |
| ChatService.SendMessageToApi | services/chatService.ts:42-63 | the request path: target URL, fallback fetch, body check and rewrapped error, with the requests issued |
| ChatService.ReplyIsFirstOkResponse | services/chatService.ts:46-50 | the call succeeds iff some attempt is `ok` and its `response` field is a non-empty string, and then returns that string |
| ChatService.EmptyResponseNoFallback | services/chatService.ts:49-53 | a falsy `response` gives the "Empty response from model" failure and no request after the `ok` one is issued |
| ChatService.AllFailedError | services/chatService.ts:39-61 | when every attempt fails, the error wraps the "multiple attempts" message and all three requests were issued |
| ChatService.ConnectionErrorShape | services/chatService.ts:57-60 | every error is the failure prefix, the inner message or "Unknown error", and a full stop, then the Mixed Content note iff the protocol is `https:` |
| Sidebar.SortByRecency | components/Sidebar.tsx:27 | the sort is a permutation of its input |
| Sidebar.SortNewestFirst | components/Sidebar.tsx:27 | the sorted list is ordered by `lastModified`, newest first |
| Sidebar.SortStable | components/Sidebar.tsx:27 | sessions with the same `lastModified` keep their relative order |
| Sidebar.InsertStable | components/Sidebar.tsx:27 | insertion places a session ahead of those it ties with and keeps each instant's order |
| Sidebar.SortKeepsSorted | components/Sidebar.tsx:27 | a list already newest first is returned unchanged |
| Sidebar.FilteredSessions | components/Sidebar.tsx:25-27 | every listed session is stored (no more often than it is stored) and its title matches the term |
| Sidebar.ListedIffMatches | components/Sidebar.tsx:25-26 | a session is listed iff it is stored and its lower-cased title contains the lower-cased term |
| Sidebar.FilteredSessionsSpec | components/Sidebar.tsx:25-27 | the list is a permutation of the matching sessions (nothing added or duplicated), newest first, with ties in stored order |
| Sidebar.EmptyTermListsAll | components/Sidebar.tsx:25-26 | an empty search term lists every session, newest first |
| Sidebar.OwnTitleFindsSession | components/Sidebar.tsx:25-26 | searching for a session's own title, in any letter case, lists it |
| App.FindSessionSpec | App.tsx:56 | the lookup finds the first session with the current id, and nothing exactly when no session has it or there is no current id |
| App.VisibleMessagesSpec | App.tsx:56-57 | the messages on screen are those of the first session whose id is the current id |
| App.VisibleMessagesNone | App.tsx:56-57 | with no session matching the current id, or no current id, no message is on screen |
| App.WithoutSession | App.tsx:77 | no session with the deleted id is left, and every remaining session was stored (no more often than it was stored) |
| App.WithoutSessionMember | App.tsx:77 | deleting keeps exactly the sessions whose id differs |
| App.WithoutAbsentId | App.tsx:77 | deleting an id no session has changes nothing |
| App.WithoutSessionInOrder | App.tsx:77 | deletion works piecewise, so the kept sessions stay in their order |
| App.WithoutSessionUnique | App.tsx:77 | deleting keeps the ids distinct |
| App.Title | App.tsx:91 | a title has at most 33 characters and starts with the first 30 characters of the message, or all of it when shorter |
| App.TitleSpec | App.tsx:91 | a title is at most 33 characters; a message of at most 30 is its own title, a longer one is its first 30 characters and `...` |
| App.TitleKeepsMessageIff | App.tsx:91 | the message is its own title iff it has at most 30 characters or is 30 characters followed by `...` |
| App.UpdateWhereAt | App.tsx:87-96 | mapping over the list changes the sessions with the id and leaves every other position as it was |
| App.AppendMessageSpec | App.tsx:117-122 | appending changes only the session with the id: its messages grow by exactly the message at the end, and `lastModified` takes the stamp if one is given; the list keeps its length and order |
| App.RetitleSessionSpec | App.tsx:86-97 | retitling changes only the session with the id: new title and `lastModified`, same messages |
| App.UpdateWhereUnique | App.tsx:87-96 | a map that keeps ids keeps them distinct |
| App.Submitted | App.tsx:102-131 | a send adds one session when no conversation is open and keeps the number of sessions otherwise |
| App.SubmittedNewChat | App.tsx:103-131 | the first send with no open conversation puts one at the front holding just the user's message, titled after it, with nothing else changed |
| App.SubmittedExistingChat | App.tsx:117-131 | a send into an open conversation appends the message and stamps it, and retitles it iff it had no messages; the other sessions are unchanged |
| App.NewChatUnique | App.tsx:60-73 | opening a conversation under an id no session has keeps the ids distinct |
| App.SubmittedUnique | App.tsx:102-131 | a send keeps the ids distinct when the conversation it opens, if any, has a fresh id |
| App.FallbackErrorUnreachable | App.tsx:158-165 | every failure reaching the handler starts with the connection-failure prefix, so "Something went wrong." never shows; a reply is flagged as an error iff the request failed |
| App.RepliedSpec | App.tsx:150-170 | the reply is appended to the active conversation only; `lastModified` moves on success and stays on failure |
| App.ChatApp.constructor | App.tsx:13-17 | no conversations, none open, an empty input, not loading, the first model |
| App.ChatApp.CreateNewChat | App.tsx:60-73 | a "New Chat" session with no messages and the current model goes to the front and becomes current; the ids stay distinct when the new id is fresh; nothing else changes |
| App.ChatApp.DeleteSession | App.tsx:75-84 | the list loses exactly that id's sessions and its ids stay distinct; the current id is cleared iff it was that id |
| App.ChatApp.UpdateSessionTitle | App.tsx:86-97 | the list is retitled and nothing else changes |
| App.CanSendIff | App.tsx:100 | a send goes ahead iff the input holds a non-whitespace character and no reply is pending |
| App.ChatApp.Submit | App.tsx:102-131 | a conversation is opened when none is (null or empty id), the user's message is appended with the send's stamp, and the title is set iff the conversation was absent or empty in the list as it was when the handler started |
| App.ChatApp.BeginSend | App.tsx:99-138 | nothing changes when the input is blank or a reply is pending; otherwise the message is submitted, the input is cleared and loading is set before the request |
| App.ChatApp.FinishSend | App.tsx:140-173 | the reply or error is appended and loading is cleared on both paths |
| App.ChatApp.HandleSendMessage | App.tsx:99-174 | the whole handler: the guard, the submission, the request with its issued fetches, the reply, the input cleared and loading cleared |

## Left out

- Rendering, styling, scrolling, textarea resizing, the model dropdown and
  the sidebar open/close toggles (including the `window.innerWidth` check in
  `createNewChat`) are user interface with no decision logic.
- Loading and saving the sessions in `localStorage`, with JSON parsing, is
  browser storage.
- The Markdown rendering of text parts is a foreign library; parts are
  opaque strings here.
- The real `fetch`, the `AbortController` timer and `response.json()` are
  network I/O. Each attempt is an abstract outcome, and the parsed body is
  an abstract `Body`. The 3000 ms abort is recorded on the direct request,
  not timed.
- ChatService.SendResult: a `response` field that is a truthy non-string
  (a number or an object) is not modelled. Such a value would be returned
  as is; the model only has string or absent values.
- Console logging is left out.
- Ids and clock readings are parameters. Every clock reading within one
  synchronous step of a handler is one instant.
- App.ChatApp.HandleSendMessage: the `await` is one atomic step. Other
  handlers running while the request is pending, and React's batching of
  state updates, are not modelled. The stale read of `sessions` for the
  title decision is kept, as a snapshot taken at the start of the handler.
- Selecting a session and editing the input are plain field assignments
  with nothing to prove.
- Text.Lower: lower-casing is ASCII-only. Full Unicode case mapping is not
  modelled.
- App.Title: lengths count Unicode scalar values, not UTF-16 code units, so
  a message with characters outside the Basic Multilingual Plane is cut at
  a different place than `substring(0, 30)` would cut it.
- UriComponent.Encode: Dafny strings hold scalar values only, so the
  `URIError` that `encodeURIComponent` throws on a lone surrogate cannot
  occur.
- components/ThinkingBlock.tsx is only an expand/collapse flag and is not
  part of this model.
