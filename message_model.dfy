/**
 * The message document: its fields, the defaults applied when a message is
 * created, and the schema check that makes content required unless the
 * message carries attachments.
 */
module MessageModel {
  import opened Common

  /** A stored message. createdAt and updatedAt are the document timestamps. */
  datatype Message = Message(
    id: Id,
    conversation: Id,
    sender: Id,
    content: string,
    attachments: seq<string>,
    createdAt: nat,
    updatedAt: nat)

  /** The fields handed to the model when a message is created; None stands
      for a field left undefined. */
  datatype MessageInput = MessageInput(
    conversation: Option<Id>,
    sender: Option<Id>,
    content: Option<string>,
    attachments: Option<seq<string>>)

  /** Content after its default: an undefined content is stored as "". */
  function ContentOf(input: MessageInput): string {
    if input.content.Some? then input.content.value else ""
  }

  /** Attachments after their default: undefined attachments are stored as []. */
  function AttachmentsOf(input: MessageInput): seq<string> {
    if input.attachments.Some? then input.attachments.value else []
  }

  /** The `required` function of the content path: content is required
      unless the attachments list is non-empty. */
  predicate ContentRequired(attachments: seq<string>) {
    !(|attachments| > 0)
  }

  /** A required string path is satisfied only by a non-empty string. */
  predicate RequiredStringPresent(s: string) {
    |s| > 0
  }

  /** The content-or-attachments rule on a stored message. */
  predicate Acceptable(m: Message) {
    m.content != "" || m.attachments != []
  }

  /** The paths that fail the schema check, in schema order. */
  function FailingPaths(input: MessageInput): (paths: seq<string>)
    ensures "conversation" in paths <==> input.conversation.None?
    ensures "sender" in paths <==> input.sender.None?
    ensures "content" in paths <==> ContentOf(input) == "" && AttachmentsOf(input) == []
  {
    (if input.conversation.None? then ["conversation"] else [])
    + (if input.sender.None? then ["sender"] else [])
    + (if ContentRequired(AttachmentsOf(input)) && !RequiredStringPresent(ContentOf(input)) then ["content"] else [])
  }

  /** Creating a message document with the given id at time now: defaults
      are applied, the schema is checked, and both timestamps are set. */
  function Create(input: MessageInput, id: Id, now: nat): (r: Result<Message>)
    ensures r.Ok? <==> input.conversation.Some? && input.sender.Some?
                       && (ContentOf(input) != "" || AttachmentsOf(input) != [])
    ensures r.Ok? ==> Acceptable(r.value)
    ensures r.Ok? ==> && r.value.id == id
                      && r.value.conversation == input.conversation.value
                      && r.value.sender == input.sender.value
                      && r.value.content == ContentOf(input)
                      && r.value.attachments == AttachmentsOf(input)
                      && r.value.createdAt == now && r.value.updatedAt == now
    ensures r.Err? ==> r.error == ValidationError(FailingPaths(input)) && FailingPaths(input) != []
  {
    var paths := FailingPaths(input);
    if paths != [] then Err(ValidationError(paths))
    else Ok(Message(id, input.conversation.value, input.sender.value,
                    ContentOf(input), AttachmentsOf(input), now, now))
  }

  /** Non-empty content makes a message acceptable whatever its attachments. */
  lemma NonEmptyContentAccepted(conversation: Id, sender: Id, content: string,
                                attachments: Option<seq<string>>, id: Id, now: nat)
    requires content != ""
    ensures Create(MessageInput(Some(conversation), Some(sender), Some(content), attachments), id, now).Ok?
  {
  }

  /** Empty (or undefined) content without attachments is refused on the content path. */
  lemma EmptyMessageRefused(conversation: Id, sender: Id, content: Option<string>,
                            attachments: Option<seq<string>>, id: Id, now: nat)
    requires content == None || content == Some("")
    requires attachments == None || attachments == Some([])
    ensures Create(MessageInput(Some(conversation), Some(sender), content, attachments), id, now)
            == Err(ValidationError(["content"]))
  {
  }

  /** Empty content is accepted once there is at least one attachment. */
  lemma AttachmentsMakeContentOptional(conversation: Id, sender: Id, content: Option<string>,
                                       attachments: seq<string>, id: Id, now: nat)
    requires |attachments| > 0
    ensures var r := Create(MessageInput(Some(conversation), Some(sender), content, Some(attachments)), id, now);
            r.Ok? && r.value.attachments == attachments
  {
  }
}
