# ScriptShare chat relay and AI completion parser, in Dafny

ScriptShare is a collaborative coding site. Each project has a chat room. The backend keeps
the room's messages in a MongoDB `messages` collection and relays new messages to every
socket in the room over socket.io. A chat message that mentions `@ai` is also sent to a
language model. The model's reply is cut into an explanation and code files, stored as a
message of the assistant, and broadcast to the room.

This project models that core and proves what it does.

- **The `Message` record** (`ChatsModel`). The stored message has a required project and
  sender name, and a sender-type enum (`user`, `ai`, `system`, default `user`).
  `Message.create` is a function. It either names every failing path or stores the document
  with its defaults filled in.
- **The completion parser** (`Patterns`, `AiResults`, `ParserFacts`, `RoundTrip`).
  - The two regexes of `generateResult`, the filename tag and the fenced code block, are
    anchored matchers with their backtracking worked out. So is the `@ai` marker of the relay.
  - A generic scan gives the leftmost, non-overlapping matches of a global regex. It is what
    both `String.prototype.replace` and a `RegExp.prototype.exec` loop see. The `exec` loop
    is proved to report exactly those matches.
  - The two `while` loops of `generateResult` are methods with loop invariants. They are
    proved equal to the parser written as a function. The lemmas about that function state
    the pairing of blocks with names, the fallback names, the removal of tags and blocks, and
    the never-empty explanation.
  - A round trip proves that a reply assembled from snippets parses back into exactly those
    files and that prose. The code of a snippet may hold brackets and backticks. It must not
    hold `[filename:`, which the source would read as a tag, and must not close its block
    early with three backticks. The prose must hold no tag and no complete block. A fence
    opened in the prose and never closed adds no file and stays in the explanation.
- **`loadHistory`** (`History`). It filters a project's messages, sorts them newest first
  (an insertion sort), limits them, and reverses them. Over a store kept in insertion order,
  it returns the newest messages of the project, as many as the limit lets through, oldest
  first.
- **The `@ai` trigger** (`AiTrigger`). The relay asks the assistant when the lower-cased
  text contains `@ai`. With lower-casing as modelled (ASCII letters only), that is exactly
  when the marker regex matches; see "Left out" for the one character where the source
  differs. The prompt is the text with every marker removed in one pass, then trimmed.
- **One `message` event as a value** (`Relay`). `MessageEffect` gives the messages stored,
  the events emitted (in order) and the prompt the assistant is asked. It is built from one
  function per nesting level of the handler. The lemmas give every path in closed form and
  prove the shape every path shares:
  - the stored messages are well formed, numbered on from the store's size, and in the
    project;
  - each is broadcast to the room in storage order;
  - the only other event is one error to the sender, sent last.
- **The socket server** (`Server.ChatServer`). This class holds the message store
  (`log`), the socket.io rooms, the connected sockets with the fields the relay sets on them,
  and the trace of emitted events.
  - `JoinRoom`, `OnMessage` and `Disconnect` update that state step by step, in the order
    the handlers take.
  - Each is proved against the functions above, and each keeps the class invariant. The
    invariant:
    - the store is numbered in insertion order;
    - rooms are non-empty and hold connected sockets only;
    - a socket with a project is in that project's room.

The model follows the code where the code and the system's intended behaviour differ:

- There is no `leave` handler. `joinRoom` only adds the socket to a room, so a socket that
  joins a second project stays in the first room too.
- The `disconnect` handler only logs. Socket.io itself takes the socket out of its rooms.
  `Disconnect` models that.
- `generateResult` catches every exception itself and resolves to `AI error occurred.`
  That text is then stored and broadcast as an ordinary `ai` message. The system notice
  `AI generation failed.` appears only when storing the assistant's answer fails.
- When loading the history fails after the socket has joined, the socket stays joined. It
  gets the `Could not join room` error instead of any history.
- A `null` message payload throws a `TypeError` at the first field the handler reads from
  it. That is `msg.projectId` when the socket has joined no project. Otherwise
  `socket.projectId || msg.projectId` stops at the socket's project, and the throw comes
  from `msg.senderId` or `msg.text`. Either way nothing is stored and the sender gets only
  `Could not process message`.
- An empty code block gives an attachment without `code`, because `f.code || f.content`
  is `undefined`.
- `"No response"` is never stored, because the parsed text is never empty
  (`Relay.NeverNoResponse`).

What the model takes as parameters:

- The model service's answer to a prompt is the parameter `reply`: a response whose
  `text` may be absent, or an exception.
- Which of the four inserts the store rejects is the parameter `rejects`.
- Whether loading the history throws is the parameter `historyFails`.
- The creation time of a message is its position in the store.

## Model

| member | source | states |
|---|---|---|
| Strings.Trim | backend/utils/AiResults.js:56 | the trimmed text is empty exactly when the text is all whitespace, and otherwise neither starts nor ends with whitespace |
| Strings.Or | backend/server.js:66 | JavaScript's `or` of two optional strings is truthy iff either is; it is `a` when `a` is truthy and `b` otherwise |
| Strings.OrElse | backend/server.js:51 | `a` or a string fallback is `a` when truthy, else the fallback, and never empty with a non-empty fallback |
| Strings.LowerChar | backend/server.js:92 | the definition of lowering one character; `AiTrigger.LowerCharIs` states that a lower-case letter comes from that letter and its capital only |
| Strings.Lower | backend/server.js:92 | the definition of `toLowerCase`; `AiTrigger.MarkerAtLower` states that the lowered text holds `@ai` exactly where the case-insensitive regex matches, and `AiTrigger.TriggerIffMarker` that the trigger test is the regex's |
| Strings.NatToString | backend/utils/AiResults.js:47 | `${n}` is a non-empty run of decimal digits without a leading zero |
| Strings.DecimalRoundTrip | backend/utils/AiResults.js:47 | the rendered block number reads back as that number |
| Strings.NatToStringInjective | backend/utils/AiResults.js:47 | different block numbers render differently, so fallback snippet names of different blocks differ in their number |
| Patterns.TagAt | backend/utils/AiResults.js:30 | the filename regex matches at the start exactly when `[filename:` is followed by at least one character before the first `]`; the capture is non-empty, holds no `]`, and follows the whitespace `\s*` takes |
| Patterns.FenceAt | backend/utils/AiResults.js:31 | the block regex matches exactly when the opening fence, the longest alphanumeric run and a newline are followed by a closing fence; the body holds no fence before the first closing one |
| Patterns.MarkerAt | backend/server.js:94 | the definition of `/@ai/i` at one position; `AiTrigger.MarkerAtLower` proves that it matches exactly where the lower-cased text holds `@ai`, and `AiTrigger.TriggerIffMarker` that it finds a match exactly when the assistant is asked |
| Patterns.Segment | backend/utils/AiResults.js:38-40 | the leftmost, non-overlapping scan of a global regex; `SegmentCovers`, `SegmentIsLeftmost` and `LeftmostScanUnique` prove it loses nothing and is the only such scan |
| Patterns.Replace | backend/utils/AiResults.js:53-55 | `replace(re, "")` keeps what the scan does not match; `ReplaceChangesIffMatch`, `ScanSkip` and `ScanHit` state what it removes |
| Patterns.Matches | backend/utils/AiResults.js:38-40 | the groups of every match of the scan, left to right; `MatchWitness` and `SomeMatchIffHits` state which matches they are |
| Patterns.Exec | backend/utils/AiResults.js:38 | `re.exec(s)` from `lastIndex` returns a match that starts at or after `lastIndex`, is non-empty and ends inside the text; `ExecFinds` adds that no position before it matches |
| Patterns.SegmentCovers | backend/utils/AiResults.js:53-55 | the scan loses nothing: its pieces put back together are the text |
| Patterns.SegmentIsLeftmost | backend/utils/AiResults.js:38-40 | the scan takes, at each position, the match the regex finds there, and resumes after it |
| Patterns.LeftmostScanUnique | backend/utils/AiResults.js:38-40 | any leftmost, non-overlapping scan of a text is the one the model computes |
| Patterns.ExecAllMatches | backend/utils/AiResults.js:38-51 | a `while ((m = re.exec(s)) !== null)` loop started at `lastIndex` reports exactly the matches of the scan of the rest |
| Patterns.SomeMatchIffHits | backend/server.js:92-94 | the scan reports a match iff the regex matches at some position of the text |
| Patterns.ReplaceChangesIffMatch | backend/utils/AiResults.js:53-55 | `replace(re, "")` changes the text iff there is a match, and never lengthens it |
| Patterns.MatchWitness | backend/utils/AiResults.js:38-40 | every reported match is what the regex finds at some position of the text |
| Patterns.ScanSkip | backend/utils/AiResults.js:53-55 | text where no match starts is kept by `replace` and adds no match |
| Patterns.ScanHit | backend/utils/AiResults.js:53-55 | a match at the start is removed whole and is the first match reported |
| AiResults.CollectFilenames | backend/utils/AiResults.js:36-40 | the tag loop pushes capture 1 of every tag match, left to right |
| AiResults.CollectFiles | backend/utils/AiResults.js:42-51 | the block loop builds the `i`-th file of the `i`-th block match, named by `filenames[i]` or the numbered fallback |
| AiResults.GenerateResult | backend/utils/AiResults.js:27-61 | `generateResult` returns the parse of the response text (empty when absent), or `{text: "AI error occurred.", files: []}` when the call throws; its text is never empty |
| AiResults.Lang | backend/utils/AiResults.js:45 | `codeMatch[1]`, or `text` when it is empty; `FileOfBlock` states that an empty tag becomes `text` |
| AiResults.SnippetName | backend/utils/AiResults.js:47 | the fallback name `snippet{n}.{lang}`; `NatToStringInjective` keeps the names of different blocks apart |
| AiResults.FileName | backend/utils/AiResults.js:47 | the `i`-th filename, or `snippet{i+1}.{lang}` when it is absent or empty; `FileOfBlock`, `NameNonEmpty` and `ExtraNamesUnused` state when the fallback applies |
| AiResults.Stripped | backend/utils/AiResults.js:53-55 | the reply with its tags removed, then its blocks; `UntaggedStripped` and `StrippedAssembled` give it for an assembled reply |
| AiResults.Explanation | backend/utils/AiResults.js:53-58 | the trimmed leftover or the fallback; `ExplanationNonEmpty` proves it never empty |
| AiResults.Parse | backend/utils/AiResults.js:27-58 | the result object of a response text; `GenerateResult` returns it, and `ParseAssembled` inverts it on assembled replies |
| AiResults.Outcome | backend/utils/AiResults.js:27-61 | the result for an answer of the model service; `GenerateResult` computes it and `OutcomeOfReply` gives its error cases |
| AiResults.TextOrFallback | backend/utils/AiResults.js:56-58 | the explanation is the trimmed leftover, or `No explanation provided.` when only whitespace is left |
| ParserFacts.FilenameIsTagged | backend/utils/AiResults.js:30-40 | every collected filename sits in a `[filename:` tag of the reply after whitespace; it is non-empty, holds no `]`, and starts with whitespace only when the tag holds nothing else |
| ParserFacts.BlockIsFenced | backend/utils/AiResults.js:31-46 | every collected block is a complete fence of the reply, with an alphanumeric language tag, a newline, and a body ending at the first closing fence |
| ParserFacts.FileOfBlock | backend/utils/AiResults.js:44-50 | one file per complete block; file `i` holds block `i`'s body verbatim and is named by the `i`-th tag, else `snippet{i+1}.{lang}` with `lang` defaulting to `text` |
| ParserFacts.PairFromAt | backend/utils/AiResults.js:44-50 | the `j`-th file is made of the `j`-th block, numbered `i + j` |
| ParserFacts.NameNonEmpty | backend/utils/AiResults.js:47 | a collected filename is never empty, so it never falls back |
| ParserFacts.ExtraNamesUnused | backend/utils/AiResults.js:47 | filenames beyond the number of blocks are never used: dropping them changes no file |
| ParserFacts.ExplanationNonEmpty | backend/utils/AiResults.js:53-58 | the returned text is never empty, and is trimmed when it is not the fallback |
| ParserFacts.OutcomeOfReply | backend/utils/AiResults.js:27-61 | a thrown call gives exactly the error result; a response without text gives no files and the fallback text |
| RoundTrip.ParseAssembled | backend/utils/AiResults.js:30-58 | a reply of tagged or untagged snippets, then prose, parses into one file per snippet in order (the `i`-th tag's name or the fallback, and the snippet's code), and the prose trimmed or the fallback; the code may hold brackets and backticks, as long as it holds no `[filename:` and no three backticks that would close its block early, and the prose holds no tag and no complete block |
| RoundTrip.StrippedAssembled | backend/utils/AiResults.js:53-55 | removing the tags, then the blocks, of such a reply leaves only the whitespace between snippets, then the prose |
| RoundTrip.BracketedCodeFits | backend/utils/AiResults.js:30-31 | code such as `print(xs[0])` under the name `main.py` is inside the round trip's domain |
| RoundTrip.ParseAllNamed | backend/utils/AiResults.js:36-50 | when every snippet of such a reply is tagged, every file carries its own snippet's name and code |
| RoundTrip.FilesAssembled | backend/utils/AiResults.js:36-51 | the files of such a reply are the snippets' files, one per snippet, in order |
| RoundTrip.ExplainAssembled | backend/utils/AiResults.js:53-58 | the explanation of such a reply is its prose, trimmed, or the fallback |
| RoundTrip.AssembleTags | backend/utils/AiResults.js:36-54 | the tags of an assembled reply are the snippets' names in order, and removing them leaves the blocks and the prose |
| RoundTrip.AssembleBlocks | backend/utils/AiResults.js:42-51 | the block matches of an assembled reply are the snippets' blocks in order |
| RoundTrip.UntaggedStripped | backend/utils/AiResults.js:53-55 | removing the blocks once the tags are gone leaves whitespace, then the prose |
| RoundTrip.UnclosedFence | backend/utils/AiResults.js:31-56 | snippets followed by prose in which three backticks open a fence that is never closed give the snippets' files and no more, and the fence stays, backticks included, in the text the explanation is made of |
| RoundTrip.UnclosedPlain | backend/utils/AiResults.js:30-31 | text around a fence that is never closed holds no tag and no complete block |
| RoundTrip.UnclosedNoTag | backend/utils/AiResults.js:30 | text around a fence that is never closed holds no `[filename:` |
| RoundTrip.UnclosedNoBlock | backend/utils/AiResults.js:44-55 | three backticks that open a fence never closed, with no other fence around them, start no block and are not removed |
| RoundTrip.NoTags | backend/utils/AiResults.js:38-54 | text without `[filename:` yields no filenames and loses nothing to the tag removal |
| ChatsModel.SenderTypeOf | backend/models/chats.models.js:20-24 | a stored string names an enum value exactly when it is `user`, `ai` or `system` |
| ChatsModel.SenderTypeRoundTrip | backend/models/chats.models.js:20-24 | every sender type is stored under one of the three enum names, which reads back as it |
| ChatsModel.Create | backend/models/chats.models.js:4-47 | `Message.create` as a function; `CreateRefuses`, `CreateDefaults` and `CreateDraftOf` state when it refuses and what it stores |
| ChatsModel.CreateRefuses | backend/models/chats.models.js:5-24 | `create` refuses a document iff `projectId` or `senderName` is missing or empty or `senderType` is outside the enum, and names exactly those paths |
| ChatsModel.CreateDefaults | backend/models/chats.models.js:5-43 | a stored message keeps the given fields and takes the defaults: `user`, `""`, no attachments, neither edited nor deleted |
| ChatsModel.CreateDraftOf | backend/models/chats.models.js:4-47 | storing the document that spells out a message gives it back iff it is well formed and neither edited nor deleted |
| History.LoadHistory | backend/server.js:23-30 | `loadHistory(p, limit)` with `limit` 100 by default; `HistoryIsSuffix` and `LoadHistoryNewest` state which messages it returns and in which order |
| History.Limit | backend/server.js:27 | `.limit(n)` keeps the first `n` messages, all of them when `n` is 0 or there are no more than `n` |
| History.ForProject | backend/server.js:25 | `find({ projectId })` keeps exactly the messages of the project |
| History.InsertNewest | backend/server.js:26 | inserting into a newest-first sequence keeps it newest first and adds exactly that message |
| History.SortNewestFirst | backend/server.js:26 | `sort({ createdAt: -1 })` gives a newest-first permutation |
| History.Reverse | backend/server.js:29 | the definition of `reverse`; `ReverseCons` moves the first element last, `ReverseLimit` shows that limiting the newest-first order and reversing back keeps the last messages, and `HistoryIsSuffix` that `loadHistory` returns them oldest first |
| History.ForProjectChronological | backend/server.js:25 | keeping one project's messages keeps the store's creation order |
| History.SortChronological | backend/server.js:26 | sorting messages stored in creation order reverses them |
| History.ReverseLimit | backend/server.js:26-29 | limiting the reversed messages and reversing back gives the last ones the limit lets through |
| History.HistoryIsSuffix | backend/server.js:23-30 | `loadHistory` returns the last `min(limit, count)` messages of the project |
| History.SuffixNewest | backend/server.js:23-30 | those last messages are in order and newer than every message left out |
| History.LoadHistoryNewest | backend/server.js:23-30 | over a store in creation order, `loadHistory(p, limit)` returns `min(limit, count)` messages of `p`, oldest first, and every message of `p` it leaves out is older than all it returns |
| AiTrigger.IsAiTrigger | backend/server.js:92 | `text.toLowerCase().includes("@ai")`; `TriggerIffMarker` ties it to the marker regex |
| AiTrigger.Prompt | backend/server.js:94 | `text.replace(/@ai/ig, "").trim()`; `PromptWithoutMarker`, `PromptOneMarker`, `PromptKeepsInnerSpaces` and `PromptAfterLoneAt` state what it asks |
| AiTrigger.MarkerAtLower | backend/server.js:92-94 | the lower-cased text holds `@ai` at a position exactly when the case-insensitive regex matches there |
| AiTrigger.TriggerIffMarker | backend/server.js:92-94 | the assistant is asked iff the marker regex finds a match, iff removing the markers changes the text |
| AiTrigger.PromptWithoutMarker | backend/server.js:94 | a text without a marker is only trimmed |
| AiTrigger.SkipUnmarked | backend/server.js:94 | a stretch without `@` is kept and adds no marker match |
| AiTrigger.OneMarker | backend/server.js:94 | one marker between stretches without `@` is removed and is the only match |
| AiTrigger.PromptOneMarker | backend/server.js:92-94 | such a text triggers the assistant and asks it the two stretches joined and trimmed |
| AiTrigger.PromptKeepsInnerSpaces | backend/server.js:92-94 | `please @AI help` triggers and asks `please  help`, both spaces kept |
| AiTrigger.PromptAfterLoneAt | backend/server.js:92-94 | an `@` just before a marker survives the single removal pass, so `@@aiai` yields the new marker `@ai` |
| Relay.MessageEffect | backend/server.js:64-143 | one `message` event as the messages stored, the events emitted and the prompt asked; `NoProjectEffect` and `EffectShape` state its cases and shape |
| Relay.PostEffect | backend/server.js:72-94 | storing and broadcasting the user's message, then the `@ai` branch; `UserMessageEffect` gives it in closed form |
| Relay.FollowEffect | backend/server.js:91-94 | nothing more unless the text triggers the assistant; `UserMessageEffect` gives it in closed form |
| Relay.AskEffect | backend/server.js:94-137 | the placeholder, then the answer; `PlaceholderOutcome`, `AskOutcome` and `AskShape` give it in closed form |
| Relay.AnswerEffect | backend/server.js:105-137 | the answer, else the notice, else an error; `AnswerOutcome` gives it in closed form |
| Relay.SenderName | backend/server.js:76 | the socket's name, else `msg.senderName`, else `msg.sender.name`, else `Unknown`; `SenderNameFallback` proves the order and that it is never empty |
| Relay.UserDraft | backend/server.js:72-80 | the user's document; `StoreUser` proves it passes validation |
| Relay.PlaceholderDraft | backend/server.js:96-102 | the placeholder's document; `StorePlaceholder` states what is stored |
| Relay.AnswerDraft | backend/server.js:109-120 | the answer's document; `StoreAnswer` and `NeverNoResponse` state what is stored |
| Relay.NoticeDraft | backend/server.js:129-135 | the notice's document; `StoreNotice` states what is stored |
| Relay.FileAttachment | backend/server.js:114-118 | the attachment of one parsed file; `AnswerAttachments` states its fields |
| Relay.Store | backend/server.js:84 | `await Message.create(d)`: the message `Create` stores, or nothing when the insert is rejected; the `Store*` lemmas give it for each document |
| Relay.FileAttachments | backend/server.js:114-118 | the definition of `files.map(...)`; `AnswerAttachments` states that each attachment carries its file's non-empty name, no url, `text/plain`, and the code unless it is empty |
| Relay.StoreUser | backend/server.js:73-84 | the user's document always passes validation; the store holds exactly the user message with its fallbacks unless the insert is rejected |
| Relay.StorePlaceholder | backend/server.js:96-102 | the placeholder is stored as the `ai` message `AI is generating response...` unless rejected |
| Relay.StoreAnswer | backend/server.js:109-120 | the answer is stored as an `ai` message with the result's text (or `No response`) and its attachments unless rejected |
| Relay.StoreNotice | backend/server.js:129-135 | the notice is stored as the `system` message `AI generation failed.` unless rejected |
| Relay.SenderNameFallback | backend/server.js:76 | the sender name is the socket's name, else `msg.senderName`, else `msg.sender.name`, else `Unknown`, and never empty |
| Relay.NoProjectEffect | backend/server.js:66-70 | a `null` payload, or no project from the socket or the payload, stores nothing and sends one error to the sender alone |
| Relay.UserMessageEffect | backend/server.js:72-94 | with a project, a rejected user message gives one error; otherwise it is stored and broadcast first, and is all there is unless its text triggers the assistant |
| Relay.PlaceholderOutcome | backend/server.js:94-107 | a rejected placeholder gives one error and no prompt; otherwise it is stored and broadcast first and the assistant is asked the prompt |
| Relay.AnswerOutcome | backend/server.js:105-137 | the answer is stored and broadcast; when it is rejected the notice is; when both are, the sender gets one error |
| Relay.AskOutcome | backend/server.js:92-137 | the `@ai` branch in closed form: after the placeholder exactly one of the answer, the notice, or an error follows |
| Relay.NeverNoResponse | backend/server.js:113 | the answer's text is the parsed text, which is never empty |
| Relay.EffectShape | backend/server.js:64-143 | every `message` event stores well-formed messages of its project numbered on from the store's size, broadcasts each to the room in storage order, and adds at most one error to the sender, last |
| Relay.AskShape | backend/server.js:92-137 | the `@ai` branch after a stored user message keeps that shape |
| Relay.SenderHearsItself | backend/server.js:87-136 | a socket in the room it sends to receives its own message and everything stored after it |
| Relay.AnswerAttachments | backend/server.js:114-118 | each attachment carries its file's non-empty name, no url, `text/plain`, and the code unless the code is empty |
| Relay.FileNamed | backend/utils/AiResults.js:47 | every parsed file has a name |
| Server.NumberedChronological | backend/models/chats.models.js:37-41 | a store numbered in insertion order is in creation order |
| Server.NumberedAppend | backend/server.js:84-136 | appending well-formed messages numbered on from the store's size keeps it numbered |
| Server.LeaveAll | backend/server.js:145-147 | after a disconnect the socket is in no room, every room loses just that socket, and rooms left empty are gone |
| Server.JoinedHistory | backend/server.js:54-55 | the joiner gets the newest `min(200, count)` messages of its project, oldest first, and every message of the project it does not get is older than those it gets |
| Server.ShapedReachesConnected | backend/server.js:87-141 | every event of a shaped effect goes to connected sockets only |
| Server.ChatServer.constructor | backend/server.js:32 | the server starts with an empty store, no rooms, nobody connected and nothing emitted |
| Server.ChatServer.Connect | backend/server.js:32-33 | a new socket is in no room and has no fields; nothing else changes |
| Server.ChatServer.JoinRoom | backend/server.js:36-61 | without a project nothing changes; otherwise the socket joins the room, its fields become the project, user id and name or `Unknown`, and it alone gets the history or `Could not join room` |
| Server.ChatServer.OnMessage | backend/server.js:64-143 | the store gains exactly the messages and the trace exactly the events of `MessageEffect`, the prompt returned is the one the assistant is asked, rooms and sockets are unchanged, every event reaches connected sockets only, and the invariant holds |
| Server.ChatServer.Handle | backend/server.js:64-143 | the handler's steps, in order, amount to `MessageEffect` |
| Server.ChatServer.Post | backend/server.js:72-94 | storing and broadcasting the user's message, then the `@ai` branch, amounts to `PostEffect` |
| Server.ChatServer.Follow | backend/server.js:91-94 | the trigger test and prompt amount to `FollowEffect` |
| Server.ChatServer.Ask | backend/server.js:94-137 | the placeholder and the inner `try` amount to `AskEffect` |
| Server.ChatServer.Answer | backend/server.js:105-137 | asking the assistant and storing its answer or the notice amounts to `AnswerEffect` |
| Server.ChatServer.Disconnect | backend/server.js:145-147 | the socket is gone and out of every room; store and trace are unchanged; the invariant holds |
| Server.ChatServer.Save | backend/server.js:84 | `Message.create` appends exactly the stored message, or nothing when it fails |
| Server.ChatServer.Emit | backend/server.js:68 | `socket.emit` appends one event and changes nothing else |
| Server.ChatServer.Broadcast | backend/server.js:87 | `io.to(p).emit` appends one event to the room's current members |

## Left out

- The Gemini call and its system prompt (backend/utils/AiResults.js:3-25) are a foreign
  network call. They are the parameter `reply`.
- The socket.io and HTTP wiring, CORS, `server.listen` and console logging are left out.
  So are `_id` values and the `timestamps` option.
- Concurrency is left out. Each handler is atomic, and its awaits are sequential steps. Two
  sockets' handlers never interleave in the model.
- MongoDB is modelled coarsely:
  - an insert that fails for a reason other than validation is the parameter `rejects`;
  - a failing history query is `historyFails`;
  - `createdAt` is the position in the store, not a `Date`.
- Nothing casts a string to an `ObjectId`. A project id is any non-empty string (an invalid
  id shows up as a rejected insert or a failing history query). Mongoose casting of
  `attachments` that are not an array is also left out.
- The commented-out membership check (backend/server.js:41-46) is not behaviour.
- Strings are sequences of Unicode scalar values, while JavaScript strings are sequences of
  UTF-16 code units. For well-formed text, the regexes, `trim` and `includes` used here give
  the same results under either view. A reply or a `msg.text` holding a lone surrogate
  cannot be represented in the model at all.
- Strings.Lower: lower-cases ASCII letters only. `toLowerCase` also maps other scripts.
  One such character matters here: `İ` (U+0130) lower-cases to two characters, `i` and a
  combining dot, so `"@aİ"` contains `@ai` once lower-cased.
- AiTrigger.TriggerIffMarker: holds of the model's ASCII lower-casing. In the source, a text
  holding `@a` or `@A` followed by `İ` (U+0130) asks the assistant although `/@ai/ig`, which
  has no `u` flag, does not match there. For such a text the prompt keeps those characters.
- RoundTrip.ParseAssembled: the round trip, like `FilesAssembled`, `ExplainAssembled`,
  `StrippedAssembled`, `ParseAllNamed` and `UnclosedFence`, holds for snippets whose code has
  no `[filename:` and no three backticks that close the block early, whose names are non-empty,
  do not start with whitespace and hold no `]` and no three backticks, and whose language tag
  is alphanumeric; the prose holds no tag and no complete block. Outside that domain the
  reply does not determine the snippets: the source reads such code as a tag or closes the
  block early.
- Strings.Trim: its contract says the result is empty iff the text is all whitespace, and
  that a non-empty result has no edge whitespace. That it drops exactly the edge whitespace
  is stated by `TrimStart` and `TrimEnd`.
- AiResults.CollectFiles: reads the counter `fileIndex` as the number of files pushed so
  far, which it always equals.
- History.SortNewestFirst: does not model MongoDB's order among equal `createdAt` values.
  In the model, creation times are unique (insertion counter), so no ties arise.
- Server.ChatServer.Disconnect: models socket.io leaving every room. The handler's
  own body, a log line, is left out.
- There is no `leave` operation, because the code has none.
