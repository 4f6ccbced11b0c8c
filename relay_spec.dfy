/**
 * What one `message` event of the chat relay does, as a value: the messages it stores, in
 * order, the events it emits, in order, and the prompt it hands to the assistant. The
 * `Server.ChatServer` class performs these steps on its state; the lemmas here say what the
 * steps amount to.
 */
module Relay {
  import opened Wrappers
  import opened Strings
  import opened AiResults
  import opened ChatsModel
  import opened AiTrigger
  import opened ParserFacts

  /** A socket id. */
  type ConnId = nat

  /** The fields the relay keeps on a socket (`socket.projectId`, `socket.userId`, `socket.userName`). */
  datatype Conn = Conn(projectId: Option<string>, userId: Option<string>, userName: Option<string>)

  /** A socket that has just connected and not joined any room. */
  const NewConn: Conn := Conn(None, None, None)

  /** The fields `joinRoom` reads from its payload. */
  datatype JoinArgs = JoinArgs(projectId: Option<string>, userId: Option<string>, userName: Option<string>)

  /** `msg.sender`, of which only `name` is read. */
  datatype SenderRef = SenderRef(name: Option<string>)

  /** The fields the `message` handler reads from its payload. */
  datatype MessageArgs = MessageArgs(
    projectId: Option<string>,
    senderId: Option<string>,
    senderName: Option<string>,
    sender: Option<SenderRef>,
    text: Option<string>,
    attachments: Option<seq<Attachment>>)

  /** `socket.emit` reaches one socket; `io.to(room).emit` reaches the members the room has then. */
  datatype Target = ToSocket(conn: ConnId) | ToRoom(room: string, members: set<ConnId>)

  /** The `history`, `message` and `error` events, with their payloads. */
  datatype Payload = HistoryEvent(messages: seq<Message>) | MessageEvent(message: Message) | ErrorEvent(reason: string)

  datatype Event = Event(target: Target, payload: Payload)

  function Recipients(t: Target): set<ConnId> {
    match t
    case ToSocket(c) => {c}
    case ToRoom(_, members) => members
  }

  /** The four `Message.create` calls of the handler, named so that any of them can be made to fail. */
  datatype Insert = UserInsert | PlaceholderInsert | AiInsert | SystemInsert

  /** The messages stored, the events emitted, and the prompt given to the assistant, if any. */
  datatype Effect = Effect(added: seq<Message>, events: seq<Event>, asked: Option<string>)

  const UnknownName: string := "Unknown"
  const MissingProjectId: string := "Missing projectId"
  const ProcessFailed: string := "Could not process message"
  const JoinFailed: string := "Could not join room"
  const AiName: string := "AI Assistant"
  const PlaceholderText: string := "AI is generating response..."
  const NoResponse: string := "No response"
  const SystemName: string := "System"
  const AiFailedText: string := "AI generation failed."
  const DefaultMimeType: string := "text/plain"

  /** The sockets in a room; a room nobody is in does not exist. */
  function Members(rooms: map<string, set<ConnId>>, p: string): set<ConnId> {
    if p in rooms then rooms[p] else {}
  }

  /** `msg.sender && msg.sender.name`. */
  function SenderRefName(sender: Option<SenderRef>): Option<string> {
    if sender.Some? then sender.value.name else None
  }

  /** `socket.userName || msg.senderName || (msg.sender && msg.sender.name) || "Unknown"`. */
  function SenderName(conn: Conn, msg: MessageArgs): string {
    OrElse(Or(Or(conn.userName, msg.senderName), SenderRefName(msg.sender)), UnknownName)
  }

  /** The document of the user's message. */
  function UserDraft(conn: Conn, msg: MessageArgs, p: string): Draft {
    Draft(Some(p), Or(conn.userId, msg.senderId), Some(SenderName(conn, msg)), Some("user"),
      Some(OrElse(msg.text, "")), Some(msg.attachments.GetOr([])))
  }

  /** The document of the placeholder shown while the assistant works. */
  function PlaceholderDraft(p: string): Draft {
    Draft(Some(p), None, Some(AiName), Some("ai"), Some(PlaceholderText), None)
  }

  /**
   * The attachment made of a parsed file: `f.filename || f.name`, `f.code || f.content` and
   * `f.mimeType || "text/plain"`, where a parsed file has no `name`, `content` or `mimeType`.
   */
  function FileAttachment(f: FileRecord): Attachment {
    Attachment(Or(Some(f.filename), None), None, Some(DefaultMimeType), Or(Some(f.code), None))
  }

  function FileAttachments(files: seq<FileRecord>): (r: seq<Attachment>)
    ensures |r| == |files| && forall i :: 0 <= i < |files| ==> r[i] == FileAttachment(files[i])
  {
    seq(|files|, i requires 0 <= i < |files| => FileAttachment(files[i]))
  }

  /** The document of the assistant's answer. */
  function AnswerDraft(p: string, result: AiResult): Draft {
    Draft(Some(p), None, Some(AiName), Some("ai"), Some(OrElse(Some(result.text), NoResponse)),
      Some(FileAttachments(result.files)))
  }

  /** The document of the notice stored when the answer could not be stored. */
  function NoticeDraft(p: string): Draft {
    Draft(Some(p), None, Some(SystemName), Some("system"), Some(AiFailedText), None)
  }

  /** `await Message.create(d)` as message number `stamp`: nothing when the store rejects it. */
  function Store(stamp: nat, d: Draft, rejected: bool): Option<Message> {
    if rejected then None
    else
      match Create(d, stamp)
      case Success(m) => Some(m)
      case Failure(_) => None
  }

  /** The event that reports a failed message to its sender. */
  function Failed(c: ConnId): Event {
    Event(ToSocket(c), ErrorEvent(ProcessFailed))
  }

  /**
   * The `message` event from socket `c`, whose fields are `conn`, with the payload `msg`
   * (`None` for `null`), when the store holds `stamp` messages, rejects the inserts in
   * `rejects`, and `generateResult` resolves to `result`.
   */
  function MessageEffect(stamp: nat, rooms: map<string, set<ConnId>>, conn: Conn, c: ConnId,
    msg: Option<MessageArgs>, rejects: set<Insert>, result: AiResult): Effect
  {
    if msg.None? then
      Effect([], [Failed(c)], None)
    else
      var projectId := Or(conn.projectId, msg.value.projectId);
      if !Truthy(projectId) then
        Effect([], [Event(ToSocket(c), ErrorEvent(MissingProjectId))], None)
      else
        var p := projectId.value;
        PostEffect(stamp, ToRoom(p, Members(rooms, p)), c, UserDraft(conn, msg.value, p), rejects, result)
  }

  /**
   * Once the project is known: the user's document `d` is stored and the stored message is
   * broadcast to `room`; when its text asks the assistant, the `@ai` branch follows.
   */
  function PostEffect(stamp: nat, room: Target, c: ConnId, d: Draft, rejects: set<Insert>, result: AiResult): Effect
    requires room.ToRoom?
  {
    match Store(stamp, d, UserInsert in rejects)
    case None => Effect([], [Failed(c)], None)
    case Some(saved) => Prepend(room, saved, FollowEffect(stamp + 1, room, c, saved.text, rejects, result))
  }

  /** After the user's message with text `text`: nothing more, unless the text asks the assistant. */
  function FollowEffect(stamp: nat, room: Target, c: ConnId, text: string, rejects: set<Insert>, result: AiResult): Effect
    requires room.ToRoom?
  {
    if IsAiTrigger(text) then AskEffect(stamp, room, c, Prompt(text), rejects, result) else Effect([], [], None)
  }

  /**
   * The `@ai` branch, once the user's message is stored and broadcast to `room` and `prompt`
   * is made of its text: what is stored and emitted after it, and whether the assistant is
   * asked `prompt`.
   */
  function AskEffect(stamp: nat, room: Target, c: ConnId, prompt: string, rejects: set<Insert>, result: AiResult): Effect
    requires room.ToRoom?
  {
    match Store(stamp, PlaceholderDraft(room.room), PlaceholderInsert in rejects)
    case None => Effect([], [Failed(c)], None)
    case Some(placeholder) =>
      var rest := AnswerEffect(stamp + 1, room, c, rejects, result);
      Effect([placeholder] + rest.added, [Event(room, MessageEvent(placeholder))] + rest.events, Some(prompt))
  }

  /**
   * The inner `try`, once the assistant answered with `result`: the answer is stored and
   * broadcast, or, when the store rejects it, the system notice is.
   */
  function AnswerEffect(stamp: nat, room: Target, c: ConnId, rejects: set<Insert>, result: AiResult): Effect
    requires room.ToRoom?
  {
    var p := room.room;
    match Store(stamp, AnswerDraft(p, result), AiInsert in rejects)
    case Some(answer) => Effect([answer], [Event(room, MessageEvent(answer))], None)
    case None =>
      match Store(stamp, NoticeDraft(p), SystemInsert in rejects)
      case Some(notice) => Effect([notice], [Event(room, MessageEvent(notice))], None)
      case None => Effect([], [Failed(c)], None)
  }

  /** The message `saved`, stored and broadcast to `room`, before the effect `rest`. */
  function Prepend(room: Target, saved: Message, rest: Effect): Effect {
    Effect([saved] + rest.added, [Event(room, MessageEvent(saved))] + rest.events, rest.asked)
  }

  // ---------------------------------------------------------------- what the handler amounts to

  /** The stored user message, message number `stamp` of the store. */
  function UserMessage(conn: Conn, msg: MessageArgs, p: string, stamp: nat): Message {
    Message(p, Or(conn.userId, msg.senderId), SenderName(conn, msg), UserSender,
      OrElse(msg.text, ""), msg.attachments.GetOr([]), stamp, false, false)
  }

  function PlaceholderMessage(p: string, stamp: nat): Message {
    Message(p, None, AiName, AiSender, PlaceholderText, [], stamp, false, false)
  }

  function AnswerMessage(p: string, result: AiResult, stamp: nat): Message {
    Message(p, None, AiName, AiSender, if result.text != "" then result.text else NoResponse,
      FileAttachments(result.files), stamp, false, false)
  }

  function NoticeMessage(p: string, stamp: nat): Message {
    Message(p, None, SystemName, SystemSender, AiFailedText, [], stamp, false, false)
  }

  /**
   * Every document the handler builds passes validation, so an insert fails only when the
   * store rejects it; what is stored is well formed, has the fields the document gives, and
   * the defaults for the rest.
   */
  lemma StoreUser(stamp: nat, conn: Conn, msg: MessageArgs, p: string, rejected: bool)
    requires p != ""
    ensures Store(stamp, UserDraft(conn, msg, p), rejected) == if rejected then None else Some(UserMessage(conn, msg, p, stamp))
    ensures WellFormed(UserMessage(conn, msg, p, stamp))
  {
    CreateDefaults(UserDraft(conn, msg, p), stamp);
  }

  lemma StorePlaceholder(stamp: nat, p: string, rejected: bool)
    requires p != ""
    ensures Store(stamp, PlaceholderDraft(p), rejected) == if rejected then None else Some(PlaceholderMessage(p, stamp))
    ensures WellFormed(PlaceholderMessage(p, stamp))
  {
    CreateDefaults(PlaceholderDraft(p), stamp);
  }

  lemma StoreAnswer(stamp: nat, p: string, result: AiResult, rejected: bool)
    requires p != ""
    ensures Store(stamp, AnswerDraft(p, result), rejected) == if rejected then None else Some(AnswerMessage(p, result, stamp))
    ensures WellFormed(AnswerMessage(p, result, stamp))
  {
    CreateDefaults(AnswerDraft(p, result), stamp);
  }

  lemma StoreNotice(stamp: nat, p: string, rejected: bool)
    requires p != ""
    ensures Store(stamp, NoticeDraft(p), rejected) == if rejected then None else Some(NoticeMessage(p, stamp))
    ensures WellFormed(NoticeMessage(p, stamp))
  {
    CreateDefaults(NoticeDraft(p), stamp);
  }

  /** The name stored for the user: the first of the socket's name, `msg.senderName` and `msg.sender.name` that is not empty. */
  lemma SenderNameFallback(conn: Conn, msg: MessageArgs)
    ensures SenderName(conn, msg) != ""
    ensures Truthy(conn.userName) ==> SenderName(conn, msg) == conn.userName.value
    ensures !Truthy(conn.userName) && Truthy(msg.senderName) ==> SenderName(conn, msg) == msg.senderName.value
    ensures !Truthy(conn.userName) && !Truthy(msg.senderName) && msg.sender.Some? && Truthy(msg.sender.value.name)
      ==> SenderName(conn, msg) == msg.sender.value.name.value
    ensures !Truthy(conn.userName) && !Truthy(msg.senderName) && !(msg.sender.Some? && Truthy(msg.sender.value.name))
      ==> SenderName(conn, msg) == UnknownName
  {
  }

  /**
   * A `null` payload, or one without a project when the socket has none either, stores
   * nothing and sends one error to the sender alone.
   */
  lemma NoProjectEffect(stamp: nat, rooms: map<string, set<ConnId>>, conn: Conn, c: ConnId,
    msg: Option<MessageArgs>, rejects: set<Insert>, result: AiResult)
    requires msg.None? || !Truthy(Or(conn.projectId, msg.value.projectId))
    ensures var e := MessageEffect(stamp, rooms, conn, c, msg, rejects, result);
      && e.added == [] && e.asked == None
      && e.events == [Event(ToSocket(c), ErrorEvent(if msg.None? then ProcessFailed else MissingProjectId))]
  {
  }

  /**
   * Once there is a project `p`: when the store rejects the user's message, nothing is stored
   * and the sender gets one error; otherwise that message is stored and broadcast to the room
   * first, and is the only thing stored and sent unless its text asks the assistant.
   */
  lemma UserMessageEffect(stamp: nat, rooms: map<string, set<ConnId>>, conn: Conn, c: ConnId,
    msg: MessageArgs, rejects: set<Insert>, result: AiResult)
    requires Truthy(Or(conn.projectId, msg.projectId))
    ensures var e := MessageEffect(stamp, rooms, conn, c, Some(msg), rejects, result);
      var p := Or(conn.projectId, msg.projectId).value;
      var saved := UserMessage(conn, msg, p, stamp);
      var room := ToRoom(p, Members(rooms, p));
      && (UserInsert in rejects ==> e == Effect([], [Failed(c)], None))
      && (UserInsert !in rejects && !IsAiTrigger(saved.text) ==> e == Effect([saved], [Event(room, MessageEvent(saved))], None))
      && (UserInsert !in rejects && IsAiTrigger(saved.text) ==>
           e == Prepend(room, saved, AskEffect(stamp + 1, room, c, Prompt(saved.text), rejects, result)))
  {
    StoreUser(stamp, conn, msg, Or(conn.projectId, msg.projectId).value, UserInsert in rejects);
  }

  /**
   * The inner `try`: the answer is stored and broadcast; when the store rejects it the system
   * notice is stored and broadcast instead; when it rejects both, the sender gets one error.
   */
  lemma AnswerOutcome(stamp: nat, p: string, members: set<ConnId>, c: ConnId, rejects: set<Insert>, result: AiResult)
    requires p != ""
    ensures var room := ToRoom(p, members);
      var e := AnswerEffect(stamp, room, c, rejects, result);
      var answer, notice := AnswerMessage(p, result, stamp), NoticeMessage(p, stamp);
      && (AiInsert !in rejects ==> e == Effect([answer], [Event(room, MessageEvent(answer))], None))
      && (AiInsert in rejects && SystemInsert !in rejects ==> e == Effect([notice], [Event(room, MessageEvent(notice))], None))
      && (AiInsert in rejects && SystemInsert in rejects ==> e == Effect([], [Failed(c)], None))
  {
    StoreAnswer(stamp, p, result, AiInsert in rejects);
    StoreNotice(stamp, p, SystemInsert in rejects);
  }

  /**
   * The `@ai` branch: when the store rejects the placeholder the sender gets one error and the
   * assistant is not asked; otherwise the placeholder is stored and broadcast first, the
   * assistant is asked the prompt, and the inner `try` follows.
   */
  lemma PlaceholderOutcome(stamp: nat, p: string, members: set<ConnId>, c: ConnId, prompt: string, rejects: set<Insert>, result: AiResult)
    requires p != ""
    ensures var room := ToRoom(p, members);
      var e := AskEffect(stamp, room, c, prompt, rejects, result);
      var placeholder := PlaceholderMessage(p, stamp);
      var rest := AnswerEffect(stamp + 1, room, c, rejects, result);
      && (PlaceholderInsert in rejects ==> e == Effect([], [Failed(c)], None))
      && (PlaceholderInsert !in rejects ==>
           e == Effect([placeholder] + rest.added, [Event(room, MessageEvent(placeholder))] + rest.events, Some(prompt)))
  {
    StorePlaceholder(stamp, p, PlaceholderInsert in rejects);
  }

  /**
   * The whole `@ai` branch: after the placeholder, exactly one more message is stored and
   * broadcast, the answer or else the notice, unless the store rejects both, when the sender
   * gets one error; the assistant is asked the prompt once the placeholder is stored.
   */
  lemma AskOutcome(stamp: nat, p: string, members: set<ConnId>, c: ConnId, prompt: string, rejects: set<Insert>, result: AiResult)
    requires p != ""
    ensures var room := ToRoom(p, members);
      var e := AskEffect(stamp, room, c, prompt, rejects, result);
      var placeholder := PlaceholderMessage(p, stamp);
      var shown := [Event(room, MessageEvent(placeholder))];
      && (PlaceholderInsert in rejects ==> e == Effect([], [Failed(c)], None))
      && (PlaceholderInsert !in rejects && AiInsert !in rejects ==>
           var answer := AnswerMessage(p, result, stamp + 1);
           e == Effect([placeholder] + [answer], shown + [Event(room, MessageEvent(answer))], Some(prompt)))
      && (PlaceholderInsert !in rejects && AiInsert in rejects && SystemInsert !in rejects ==>
           var notice := NoticeMessage(p, stamp + 1);
           e == Effect([placeholder] + [notice], shown + [Event(room, MessageEvent(notice))], Some(prompt)))
      && (PlaceholderInsert !in rejects && AiInsert in rejects && SystemInsert in rejects ==>
           e == Effect([placeholder] + [], shown + [Failed(c)], Some(prompt)))
  {
    PlaceholderOutcome(stamp, p, members, c, prompt, rejects, result);
    AnswerOutcome(stamp + 1, p, members, c, rejects, result);
  }

  /** The answer's text is the parsed text: it is never empty, so `"No response"` is never stored. */
  lemma NeverNoResponse(reply: Reply, p: string, stamp: nat)
    ensures AnswerMessage(p, Outcome(reply), stamp).text == Outcome(reply).text != ""
  {
    match reply
    case Threw =>
    case Responded(text) => ExplanationNonEmpty(Stripped(OrElse(text, "")));
  }

  /** The project a `message` event resolves to, or `""` when it resolves to none. */
  function ResolvedProject(conn: Conn, msg: Option<MessageArgs>): string {
    if msg.Some? then Or(conn.projectId, msg.value.projectId).GetOr("") else ""
  }

  /**
   * The messages of `e` are well formed, belong to project `p` and are numbered on from
   * `stamp`; they are broadcast to the room of `p` in the order they are stored, and the only
   * other event is one error to the sender `c`, sent last.
   */
  predicate Shaped(e: Effect, stamp: nat, rooms: map<string, set<ConnId>>, c: ConnId, p: string) {
    && (forall i :: 0 <= i < |e.added| ==>
         WellFormed(e.added[i]) && e.added[i].createdAt == stamp + i && e.added[i].projectId == p)
    && |e.added| <= |e.events| <= |e.added| + 1
    && (forall i :: 0 <= i < |e.added| ==> e.events[i] == Event(ToRoom(p, Members(rooms, p)), MessageEvent(e.added[i])))
    && (|e.events| > |e.added| ==> e.events[|e.added|].target == ToSocket(c) && e.events[|e.added|].payload.ErrorEvent?)
  }

  /** Every `message` event has that shape, for the project it resolves to. */
  lemma EffectShape(stamp: nat, rooms: map<string, set<ConnId>>, conn: Conn, c: ConnId,
    msg: Option<MessageArgs>, rejects: set<Insert>, result: AiResult)
    ensures Shaped(MessageEffect(stamp, rooms, conn, c, msg, rejects, result), stamp, rooms, c, ResolvedProject(conn, msg))
  {
    if msg.Some? && Truthy(Or(conn.projectId, msg.value.projectId)) {
      var p := Or(conn.projectId, msg.value.projectId).value;
      var saved := UserMessage(conn, msg.value, p, stamp);
      UserMessageEffect(stamp, rooms, conn, c, msg.value, rejects, result);
      StoreUser(stamp, conn, msg.value, p, false);
      if UserInsert !in rejects && IsAiTrigger(saved.text) {
        AskShape(stamp, rooms, p, c, saved, rejects, result);
      }
    }
  }

  /** The `@ai` branch keeps the shape, after the user's message `saved`, numbered `stamp`. */
  lemma AskShape(stamp: nat, rooms: map<string, set<ConnId>>, p: string, c: ConnId, saved: Message, rejects: set<Insert>, result: AiResult)
    requires p != "" && WellFormed(saved) && saved.createdAt == stamp && saved.projectId == p
    ensures var room := ToRoom(p, Members(rooms, p));
      Shaped(Prepend(room, saved, AskEffect(stamp + 1, room, c, Prompt(saved.text), rejects, result)), stamp, rooms, c, p)
  {
    var room := ToRoom(p, Members(rooms, p));
    var e := Prepend(room, saved, AskEffect(stamp + 1, room, c, Prompt(saved.text), rejects, result));
    AskOutcome(stamp + 1, p, Members(rooms, p), c, Prompt(saved.text), rejects, result);
    StorePlaceholder(stamp + 1, p, false);
    StoreAnswer(stamp + 2, p, result, false);
    StoreNotice(stamp + 2, p, false);
    var placeholder := PlaceholderMessage(p, stamp + 1);
    if PlaceholderInsert in rejects {
      ShapedOneFailed(e, stamp, rooms, c, p, saved);
    } else if AiInsert !in rejects {
      ShapedThree(e, stamp, rooms, c, p, saved, placeholder, AnswerMessage(p, result, stamp + 2));
    } else if SystemInsert !in rejects {
      ShapedThree(e, stamp, rooms, c, p, saved, placeholder, NoticeMessage(p, stamp + 2));
    } else {
      ShapedTwoFailed(e, stamp, rooms, c, p, saved, placeholder);
    }
  }

  /** A message of `p` numbered `stamp`, broadcast to the room, then an error to the sender. */
  lemma ShapedOneFailed(e: Effect, stamp: nat, rooms: map<string, set<ConnId>>, c: ConnId, p: string, m0: Message)
    requires WellFormed(m0) && m0.createdAt == stamp && m0.projectId == p
    requires var room := ToRoom(p, Members(rooms, p));
      e.added == [m0] + [] && e.events == [Event(room, MessageEvent(m0))] + [Failed(c)]
    ensures Shaped(e, stamp, rooms, c, p)
  {
  }

  /** Two messages of `p` numbered on from `stamp`, broadcast in order, then an error to the sender. */
  lemma ShapedTwoFailed(e: Effect, stamp: nat, rooms: map<string, set<ConnId>>, c: ConnId, p: string, m0: Message, m1: Message)
    requires WellFormed(m0) && m0.createdAt == stamp && m0.projectId == p
    requires WellFormed(m1) && m1.createdAt == stamp + 1 && m1.projectId == p
    requires var room := ToRoom(p, Members(rooms, p));
      e.added == [m0] + ([m1] + []) && e.events == [Event(room, MessageEvent(m0))] + ([Event(room, MessageEvent(m1))] + [Failed(c)])
    ensures Shaped(e, stamp, rooms, c, p)
  {
  }

  /** Three messages of `p` numbered on from `stamp`, broadcast in order. */
  lemma ShapedThree(e: Effect, stamp: nat, rooms: map<string, set<ConnId>>, c: ConnId, p: string, m0: Message, m1: Message, m2: Message)
    requires WellFormed(m0) && m0.createdAt == stamp && m0.projectId == p
    requires WellFormed(m1) && m1.createdAt == stamp + 1 && m1.projectId == p
    requires WellFormed(m2) && m2.createdAt == stamp + 2 && m2.projectId == p
    requires var room := ToRoom(p, Members(rooms, p));
      && e.added == [m0] + ([m1] + [m2])
      && e.events == [Event(room, MessageEvent(m0))] + ([Event(room, MessageEvent(m1))] + [Event(room, MessageEvent(m2))])
    ensures Shaped(e, stamp, rooms, c, p)
  {
  }

  /**
   * A socket that has joined the project it sends to is among the receivers of its own
   * message and of everything stored after it.
   */
  lemma SenderHearsItself(stamp: nat, rooms: map<string, set<ConnId>>, conn: Conn, c: ConnId,
    msg: Option<MessageArgs>, rejects: set<Insert>, result: AiResult)
    requires Truthy(conn.projectId) && c in Members(rooms, conn.projectId.value)
    ensures var e := MessageEffect(stamp, rooms, conn, c, msg, rejects, result);
      |e.added| <= |e.events| && forall i :: 0 <= i < |e.added| ==> c in Recipients(e.events[i].target)
  {
    EffectShape(stamp, rooms, conn, c, msg, rejects, result);
    if msg.Some? {
      assert ResolvedProject(conn, msg) == conn.projectId.value;
    }
  }

  /**
   * The attachments of the answer: one per file, in order, named after the file (names are
   * never empty), typed `text/plain`, without a `url`, and holding the code unless the code
   * is empty, in which case the attachment has no `code`.
   */
  lemma AnswerAttachments(reply: Reply)
    ensures var files := Outcome(reply).files; var atts := FileAttachments(files);
      && |atts| == |files|
      && forall i :: 0 <= i < |files| ==>
        && atts[i].filename == Some(files[i].filename)
        && atts[i].url == None && atts[i].mimeType == Some(DefaultMimeType)
        && atts[i].code == (if files[i].code == "" then None else Some(files[i].code))
  {
    OutcomeNamed(reply);
    NamedAttachments(Outcome(reply).files);
  }

  /** Every file of a result has a name. */
  lemma OutcomeNamed(reply: Reply)
    ensures forall i :: 0 <= i < |Outcome(reply).files| ==> Outcome(reply).files[i].filename != ""
  {
    match reply
    case Threw =>
    case Responded(text) =>
      var raw := OrElse(text, "");
      forall i | 0 <= i < |Files(raw)| ensures Files(raw)[i].filename != "" {
        FileNamed(raw, i);
      }
  }

  /** The attachments of files that all have a name. */
  lemma NamedAttachments(files: seq<FileRecord>)
    requires forall i :: 0 <= i < |files| ==> files[i].filename != ""
    ensures var atts := FileAttachments(files);
      && |atts| == |files|
      && forall i :: 0 <= i < |files| ==>
        && atts[i].filename == Some(files[i].filename)
        && atts[i].url == None && atts[i].mimeType == Some(DefaultMimeType)
        && atts[i].code == (if files[i].code == "" then None else Some(files[i].code))
  {
  }

  /** A parsed file always has a name: the tag's, or the fallback snippet name. */
  lemma FileNamed(raw: string, i: nat)
    requires i < |Files(raw)|
    ensures Files(raw)[i].filename != ""
  {
    PairFromAt(Blocks(raw), Filenames(raw), 0, i);
  }
}
