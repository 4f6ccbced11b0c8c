/**
 * The `Message` record of the chat log and what `Message.create` does with a document before
 * storing it: it checks the required fields and the `senderType` enum, and fills in the
 * defaults of the fields the document leaves out.
 */
module ChatsModel {
  import opened Wrappers
  import opened Strings

  /** The `senderType` enum. */
  datatype SenderType = UserSender | AiSender | SystemSender

  function SenderTypeName(t: SenderType): string {
    match t
    case UserSender => "user"
    case AiSender => "ai"
    case SystemSender => "system"
  }

  /** The enum value a stored string names, if it names one. */
  function SenderTypeOf(s: string): (r: Option<SenderType>)
    ensures r.Some? ==> SenderTypeName(r.value) == s
    ensures r.None? <==> s !in ["user", "ai", "system"]
  {
    if s == "user" then Some(UserSender)
    else if s == "ai" then Some(AiSender)
    else if s == "system" then Some(SystemSender)
    else None
  }

  /** Every enum value is stored under a name that reads back as that value. */
  lemma SenderTypeRoundTrip(t: SenderType)
    ensures SenderTypeOf(SenderTypeName(t)) == Some(t)
    ensures SenderTypeName(t) in ["user", "ai", "system"]
  {
  }

  /** An attachment: every field is an optional string. */
  datatype Attachment = Attachment(filename: Option<string>, url: Option<string>, mimeType: Option<string>, code: Option<string>)

  /**
   * A stored message. `createdAt` is an insertion counter standing for the creation time;
   * `senderId` is absent for the messages of the assistant and of the system.
   */
  datatype Message = Message(
    projectId: string,
    senderId: Option<string>,
    senderName: string,
    senderType: SenderType,
    text: string,
    attachments: seq<Attachment>,
    createdAt: nat,
    edited: bool,
    deleted: bool)

  /** What the required fields of the schema demand of a stored message. */
  predicate WellFormed(m: Message) {
    m.projectId != "" && m.senderName != ""
  }

  /** A document handed to `Message.create`: any field may be left out. */
  datatype Draft = Draft(
    projectId: Option<string>,
    senderId: Option<string>,
    senderName: Option<string>,
    senderType: Option<string>,
    text: Option<string>,
    attachments: Option<seq<Attachment>>)

  /** The paths a validation error can name. */
  datatype Field = ProjectIdField | SenderNameField | SenderTypeField

  /**
   * `Message.create(d)` at time `now`: a validation error naming every failing path, or the
   * stored message with the defaults filled in.
   */
  function Create(d: Draft, now: nat): Result<Message, set<Field>> {
    var errors :=
      (if Truthy(d.projectId) then {} else {ProjectIdField})
      + (if Truthy(d.senderName) then {} else {SenderNameField})
      + (if d.senderType.None? || SenderTypeOf(d.senderType.value).Some? then {} else {SenderTypeField});
    if errors != {} then Failure(errors)
    else
      Success(Message(
        d.projectId.value,
        d.senderId,
        d.senderName.value,
        if d.senderType.Some? then SenderTypeOf(d.senderType.value).value else UserSender,
        d.text.GetOr(""),
        d.attachments.GetOr([]),
        now,
        false,
        false))
  }

  /**
   * A document is refused exactly when `projectId` or `senderName` is missing or empty, or a
   * `senderType` outside the enum is given, and the error names each such path.
   */
  lemma CreateRefuses(d: Draft, now: nat)
    ensures Create(d, now).Failure? <==>
      !Truthy(d.projectId) || !Truthy(d.senderName) || (d.senderType.Some? && d.senderType.value !in ["user", "ai", "system"])
    ensures Create(d, now).Failure? ==> var errors := Create(d, now).error;
      && (ProjectIdField in errors <==> !Truthy(d.projectId))
      && (SenderNameField in errors <==> !Truthy(d.senderName))
      && (SenderTypeField in errors <==> d.senderType.Some? && d.senderType.value !in ["user", "ai", "system"])
  {
  }

  /**
   * A stored message keeps the fields the document gives and takes the defaults for the rest:
   * `senderType` `user`, `text` empty, no attachments, neither edited nor deleted; it satisfies
   * the required fields.
   */
  lemma CreateDefaults(d: Draft, now: nat)
    requires Create(d, now).Success?
    ensures var m := Create(d, now).value;
      && WellFormed(m)
      && m.projectId == d.projectId.value && m.senderId == d.senderId && m.senderName == d.senderName.value
      && (d.senderType.None? ==> m.senderType == UserSender)
      && (d.senderType.Some? ==> SenderTypeName(m.senderType) == d.senderType.value)
      && m.text == (if d.text.Some? then d.text.value else "")
      && m.attachments == (if d.attachments.Some? then d.attachments.value else [])
      && m.createdAt == now && !m.edited && !m.deleted
  {
  }

  /** The document that spells out every field of a message. */
  function DraftOf(m: Message): Draft {
    Draft(Some(m.projectId), m.senderId, Some(m.senderName), Some(SenderTypeName(m.senderType)), Some(m.text), Some(m.attachments))
  }

  /**
   * Storing the document that spells out a message gives that message back exactly when it
   * satisfies the required fields and is neither edited nor deleted: those are the messages
   * `create` can store.
   */
  lemma CreateDraftOf(m: Message)
    ensures Create(DraftOf(m), m.createdAt) == Success(m) <==> WellFormed(m) && !m.edited && !m.deleted
  {
    SenderTypeRoundTrip(m.senderType);
  }
}
