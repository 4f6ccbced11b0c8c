/**
 * The socket server: the message store, the socket.io rooms, the connected sockets with
 * the fields the relay sets on them, and every event emitted so far. The `joinRoom`,
 * `message` and `disconnect` handlers are methods that update that state step by step.
 */
module Server {
  import opened Wrappers
  import opened Strings
  import opened AiResults
  import opened ChatsModel
  import opened History
  import opened AiTrigger
  import opened Relay

  /** Message number `i` of the store was created `i`-th and passed validation. */
  predicate Numbered(log: seq<Message>) {
    forall i :: 0 <= i < |log| ==> log[i].createdAt == i && WellFormed(log[i])
  }

  /** A store whose messages are numbered in insertion order is in creation order. */
  lemma NumberedChronological(log: seq<Message>)
    requires Numbered(log)
    ensures Chronological(log)
  {
    forall i, j | 0 <= i < j < |log| ensures log[i].createdAt < log[j].createdAt {
      assert log[i].createdAt == i && log[j].createdAt == j;
    }
  }

  /** Messages numbered on from the size of the store keep it numbered once appended. */
  lemma NumberedAppend(log: seq<Message>, added: seq<Message>)
    requires Numbered(log)
    requires forall i :: 0 <= i < |added| ==> WellFormed(added[i]) && added[i].createdAt == |log| + i
    ensures Numbered(log + added)
  {
    forall i | 0 <= i < |log + added| ensures (log + added)[i].createdAt == i && WellFormed((log + added)[i]) {
      if i >= |log| {
        assert (log + added)[i] == added[i - |log|];
      }
    }
  }

  /** The rooms with `c` taken out of each, and the rooms it leaves empty gone. */
  function LeaveAll(rooms: map<string, set<ConnId>>, c: ConnId): (r: map<string, set<ConnId>>)
    ensures forall p :: c !in Members(r, p)
    ensures forall p :: Members(r, p) == Members(rooms, p) - {c}
    ensures forall p :: p in r <==> p in rooms && rooms[p] - {c} != {}
  {
    map p | p in rooms && rooms[p] - {c} != {} :: rooms[p] - {c}
  }

  class ChatServer {
    /** The messages collection, in insertion order. */
    var log: seq<Message>
    /** The socket.io rooms: each project id with the sockets that joined it. */
    var rooms: map<string, set<ConnId>>
    /** The connected sockets, with `socket.projectId`, `socket.userId` and `socket.userName`. */
    var sockets: map<ConnId, Conn>
    /** Every event emitted so far, in order. */
    var trace: seq<Event>

    /**
     * The store is numbered in insertion order; a room is never empty and holds connected
     * sockets only; a socket that has a project is in that project's room.
     */
    ghost predicate Valid()
      reads this
    {
      && Numbered(log)
      && (forall p :: p in rooms ==> rooms[p] != {} && rooms[p] <= sockets.Keys)
      && (forall c :: c in sockets && Truthy(sockets[c].projectId) ==> c in Members(rooms, sockets[c].projectId.value))
    }

    /** A server with an empty store and nobody connected. */
    constructor ()
      ensures Valid()
      ensures log == [] && rooms == map[] && sockets == map[] && trace == []
    {
      log, rooms, sockets, trace := [], map[], map[], [];
    }

    /** `io.on("connection")`: a new socket, in no room and with no fields set. */
    method Connect(c: ConnId)
      requires Valid() && c !in sockets
      modifies this
      ensures Valid()
      ensures sockets == old(sockets)[c := NewConn]
      ensures log == old(log) && rooms == old(rooms) && trace == old(trace)
    {
      sockets := sockets[c := NewConn];
    }

    /**
     * `joinRoom` from socket `c` with `payload` (`None` for a missing payload); `historyFails`
     * says whether loading the history throws. Without a project nothing happens. Otherwise
     * the socket joins the room, its fields are set, and it alone gets the newest 200
     * messages of the project, oldest first, or the error when they cannot be loaded.
     */
    method JoinRoom(c: ConnId, payload: Option<JoinArgs>, historyFails: bool)
      requires Valid() && c in sockets
      modifies this
      ensures Valid()
      ensures var args := payload.GetOr(JoinArgs(None, None, None));
        if !Truthy(args.projectId) then
          log == old(log) && rooms == old(rooms) && sockets == old(sockets) && trace == old(trace)
        else
          var p := args.projectId.value;
          && log == old(log)
          && rooms == old(rooms)[p := Members(old(rooms), p) + {c}]
          && sockets == old(sockets)[c := Conn(Some(p), args.userId, Some(OrElse(args.userName, UnknownName)))]
          && trace == old(trace) + [Event(ToSocket(c),
               if historyFails then ErrorEvent(JoinFailed) else HistoryEvent(LoadHistory(log, p, JoinLimit)))]
    {
      var args := payload.GetOr(JoinArgs(None, None, None));
      if !Truthy(args.projectId) {
        return;
      }
      var p := args.projectId.value;
      rooms := rooms[p := Members(rooms, p) + {c}];
      sockets := sockets[c := Conn(Some(p), args.userId, Some(OrElse(args.userName, UnknownName)))];
      if historyFails {
        Emit(Event(ToSocket(c), ErrorEvent(JoinFailed)));
      } else {
        var history := LoadHistory(log, p, JoinLimit);
        Emit(Event(ToSocket(c), HistoryEvent(history)));
      }
    }

    /**
     * `message` from socket `c` with payload `msg` (`None` for `null`), where the store
     * rejects the inserts in `rejects` and the model answers the prompt with `reply`. It
     * returns the prompt the model was asked, if any. Only the store and the events change,
     * as `MessageEffect` says, and every event reaches connected sockets only.
     */
    method OnMessage(c: ConnId, msg: Option<MessageArgs>, rejects: set<Insert>, reply: Reply) returns (asked: Option<string>)
      requires Valid() && c in sockets
      modifies this
      ensures Valid()
      ensures var e := MessageEffect(|old(log)|, old(rooms), old(sockets)[c], c, msg, rejects, Outcome(reply));
        log == old(log) + e.added && trace == old(trace) + e.events && asked == e.asked
      ensures rooms == old(rooms) && sockets == old(sockets)
      ensures forall i :: |old(trace)| <= i < |trace| ==> Recipients(trace[i].target) <= sockets.Keys
    {
      ghost var e := MessageEffect(|log|, rooms, sockets[c], c, msg, rejects, Outcome(reply));
      EffectShape(|log|, rooms, sockets[c], c, msg, rejects, Outcome(reply));
      ShapedReachesConnected(e, |log|, rooms, c, ResolvedProject(sockets[c], msg), sockets.Keys);
      asked := Handle(c, msg, rejects, reply);
      NumberedAppend(old(log), e.added);
      forall i | |old(trace)| <= i < |trace| ensures Recipients(trace[i].target) <= sockets.Keys {
        assert trace[i] == e.events[i - |old(trace)|];
      }
    }

    /** The steps of the `message` handler, in the order the source takes them. */
    method Handle(c: ConnId, msg: Option<MessageArgs>, rejects: set<Insert>, reply: Reply) returns (asked: Option<string>)
      requires c in sockets
      modifies this
      ensures var e := MessageEffect(|old(log)|, old(rooms), old(sockets)[c], c, msg, rejects, Outcome(reply));
        log == old(log) + e.added && trace == old(trace) + e.events && asked == e.asked
      ensures rooms == old(rooms) && sockets == old(sockets)
    {
      var conn := sockets[c];
      if msg.None? {
        NoProjectEffect(|log|, rooms, conn, c, msg, rejects, Outcome(reply));
        Emit(Failed(c));
        asked := None;
      } else {
        var projectId := Or(conn.projectId, msg.value.projectId);
        if !Truthy(projectId) {
          NoProjectEffect(|log|, rooms, conn, c, msg, rejects, Outcome(reply));
          Emit(Event(ToSocket(c), ErrorEvent(MissingProjectId)));
          asked := None;
        } else {
          asked := Post(c, conn, msg.value, projectId.value, rejects, reply);
        }
      }
    }

    /** The user's message for project `p`: store it, broadcast it, and ask the assistant if it says so. */
    method Post(c: ConnId, conn: Conn, msg: MessageArgs, p: string, rejects: set<Insert>, reply: Reply) returns (asked: Option<string>)
      requires p != ""
      modifies this
      ensures var e := PostEffect(|old(log)|, ToRoom(p, Members(old(rooms), p)), c, UserDraft(conn, msg, p), rejects, Outcome(reply));
        log == old(log) + e.added && trace == old(trace) + e.events && asked == e.asked
      ensures rooms == old(rooms) && sockets == old(sockets)
    {
      StoreUser(|log|, conn, msg, p, UserInsert in rejects);
      var saved := Save(UserDraft(conn, msg, p), UserInsert in rejects);
      asked := None;
      if saved.None? {
        Emit(Failed(c));
        AppendNothing(old(log));
      } else {
        var sent := Event(ToRoom(p, Members(rooms, p)), MessageEvent(saved.value));
        Broadcast(p, saved.value);
        ghost var rest := FollowEffect(|log|, ToRoom(p, Members(rooms, p)), c, saved.value.text, rejects, Outcome(reply));
        asked := Follow(c, p, saved.value.text, rejects, reply);
        AppendAssoc(old(log), [saved.value], rest.added);
        AppendAssoc(old(trace), [sent], rest.events);
      }
    }

    /** Once the user's message with text `text` is stored and broadcast: ask the assistant if the text says so. */
    method Follow(c: ConnId, p: string, text: string, rejects: set<Insert>, reply: Reply) returns (asked: Option<string>)
      requires p != ""
      modifies this
      ensures var e := FollowEffect(|old(log)|, ToRoom(p, Members(old(rooms), p)), c, text, rejects, Outcome(reply));
        log == old(log) + e.added && trace == old(trace) + e.events && asked == e.asked
      ensures rooms == old(rooms) && sockets == old(sockets)
    {
      if IsAiTrigger(text) {
        var prompt := Prompt(text);
        asked := Ask(c, p, prompt, rejects, reply);
      } else {
        asked := None;
        AppendNothing(log);
        AppendNothing(trace);
      }
    }

    /** The `@ai` branch, once the user's message is stored and broadcast and `prompt` made of it. */
    method Ask(c: ConnId, p: string, prompt: string, rejects: set<Insert>, reply: Reply) returns (asked: Option<string>)
      requires p != ""
      modifies this
      ensures var e := AskEffect(|old(log)|, ToRoom(p, Members(old(rooms), p)), c, prompt, rejects, Outcome(reply));
        log == old(log) + e.added && trace == old(trace) + e.events && asked == e.asked
      ensures rooms == old(rooms) && sockets == old(sockets)
    {
      PlaceholderOutcome(|log|, p, Members(rooms, p), c, prompt, rejects, Outcome(reply));
      StorePlaceholder(|log|, p, PlaceholderInsert in rejects);
      var placeholder := Save(PlaceholderDraft(p), PlaceholderInsert in rejects);
      if placeholder.None? {
        Emit(Failed(c));
        return None;
      }
      var shown := Event(ToRoom(p, Members(rooms, p)), MessageEvent(placeholder.value));
      Broadcast(p, placeholder.value);
      ghost var rest := AnswerEffect(|log|, ToRoom(p, Members(rooms, p)), c, rejects, Outcome(reply));
      Answer(c, p, rejects, reply);
      AppendAssoc(old(log), [placeholder.value], rest.added);
      AppendAssoc(old(trace), [shown], rest.events);
      asked := Some(prompt);
    }

    /** The inner `try`: ask the assistant, then store and broadcast its answer, or the notice. */
    method Answer(c: ConnId, p: string, rejects: set<Insert>, reply: Reply)
      requires p != ""
      modifies this
      ensures var e := AnswerEffect(|old(log)|, ToRoom(p, Members(old(rooms), p)), c, rejects, Outcome(reply));
        log == old(log) + e.added && trace == old(trace) + e.events
      ensures rooms == old(rooms) && sockets == old(sockets)
    {
      var aiResponse := GenerateResult(reply);
      AnswerOutcome(|log|, p, Members(rooms, p), c, rejects, aiResponse);
      StoreAnswer(|log|, p, aiResponse, AiInsert in rejects);
      var aiSaved := Save(AnswerDraft(p, aiResponse), AiInsert in rejects);
      if aiSaved.Some? {
        Broadcast(p, aiSaved.value);
        return;
      }
      StoreNotice(|log|, p, SystemInsert in rejects);
      var errMsg := Save(NoticeDraft(p), SystemInsert in rejects);
      if errMsg.None? {
        Emit(Failed(c));
        return;
      }
      Broadcast(p, errMsg.value);
    }

    /**
     * `disconnect`: socket.io takes the socket out of every room, dropping the rooms it
     * leaves empty; the handler itself only logs.
     */
    method Disconnect(c: ConnId)
      requires Valid() && c in sockets
      modifies this
      ensures Valid()
      ensures sockets == old(sockets) - {c} && rooms == LeaveAll(old(rooms), c)
      ensures log == old(log) && trace == old(trace)
    {
      rooms := LeaveAll(rooms, c);
      sockets := sockets - {c};
    }

    /** `await Message.create(d)`: the stored message, appended to the store, or nothing. */
    method Save(d: Draft, rejected: bool) returns (saved: Option<Message>)
      modifies this
      ensures saved == Store(|old(log)|, d, rejected)
      ensures saved.Some? ==> log == old(log) + [saved.value]
      ensures saved.None? ==> log == old(log)
      ensures rooms == old(rooms) && sockets == old(sockets) && trace == old(trace)
    {
      saved := Store(|log|, d, rejected);
      if saved.Some? {
        log := log + [saved.value];
      }
    }

    /** `socket.emit` or `io.to(room).emit`: one more event. */
    method Emit(ev: Event)
      modifies this
      ensures trace == old(trace) + [ev]
      ensures log == old(log) && rooms == old(rooms) && sockets == old(sockets)
    {
      trace := trace + [ev];
    }

    /** `io.to(p).emit("message", m)`: to the sockets in the room of `p` now. */
    method Broadcast(p: string, m: Message)
      modifies this
      ensures trace == old(trace) + [Event(ToRoom(p, Members(rooms, p)), MessageEvent(m))]
      ensures log == old(log) && rooms == old(rooms) && sockets == old(sockets)
    {
      Emit(Event(ToRoom(p, Members(rooms, p)), MessageEvent(m)));
    }
  }

  /** Appending in two steps appends the two parts together; `t` splits after `s`. */
  lemma AppendAssoc<T>(s: seq<T>, a: seq<T>, t: seq<T>)
    ensures s + a + t == s + (a + t)
  {
  }

  /** When every room holds sockets of `keys` only and `c` is one of them, every event of a shaped effect reaches `keys` only. */
  lemma ShapedReachesConnected(e: Effect, stamp: nat, rooms: map<string, set<ConnId>>, c: ConnId, p: string, keys: set<ConnId>)
    requires Shaped(e, stamp, rooms, c, p)
    requires c in keys && forall q :: q in rooms ==> rooms[q] <= keys
    ensures forall i :: 0 <= i < |e.events| ==> Recipients(e.events[i].target) <= keys
  {
    forall i | 0 <= i < |e.events| ensures Recipients(e.events[i].target) <= keys {
      if i < |e.added| {
        assert e.events[i].target == ToRoom(p, Members(rooms, p));
      }
    }
  }

  lemma AppendNothing<T>(s: seq<T>)
    ensures s + [] == s
  {
  }

  /**
   * A socket that joins a project gets, when the history loads, the newest messages of that
   * project the limit lets through, oldest first, and every message of the project it does not
   * get is older than those it gets.
   */
  lemma JoinedHistory(log: seq<Message>, p: string)
    requires Numbered(log)
    ensures var f, h := ForProject(log, p), LoadHistory(log, p, JoinLimit);
      && |h| == HistorySize(|f|, JoinLimit)
      && h == f[|f| - |h|..]
      && Chronological(h)
      && (forall m, x :: m in log && m.projectId == p && m !in h && x in h ==> m.createdAt < x.createdAt)
  {
    NumberedChronological(log);
    LoadHistoryNewest(log, p, JoinLimit);
  }
}
