/**
 * Message service: sending a message to a conversation the sender takes
 * part in, and moving the conversation's last-message pointer to it.
 */
module MessageService {
  import opened Common
  import opened Store
  import opened MessageModel

  const ConversationNotFound := HttpError(404, "Conversation not found")
  const NotParticipant := HttpError(403, "You are not part of this conversation")

  /** The conversation after message m was sent to it at time now: the
      pointer moves to m, and saving the document stamps updatedAt. */
  function WithLastMessage(c: Conversation, m: Message, now: nat): Conversation {
    c.(lastMessage := Some(m.id), lastMessageAt := Some(m.createdAt), updatedAt := now)
  }

  /** The outcome of sendMessage at time now. content and attachments are
      None when the request left them out. */
  function Send(st: State, conversationId: Id, senderId: Id, content: Option<string>,
                attachments: Option<seq<string>>, now: nat): Step<Message>
  {
    match ConversationIndex(st.conversations, conversationId)
    case None => Step(Err(ConversationNotFound), st)
    case Some(i) =>
      var c := st.conversations[i];
      if senderId !in c.participants then Step(Err(NotParticipant), st)
      else
        var input := MessageInput(Some(conversationId), Some(senderId), content,
                                  Some(if attachments.Some? then attachments.value else []));
        match Create(input, st.nextId, now)
        case Err(e) => Step(Err(e), st)
        case Ok(m) =>
          Step(Ok(m), st.(messages := st.messages + [m],
                          conversations := st.conversations[i := WithLastMessage(c, m, now)],
                          nextId := st.nextId + 1))
  }

  method SendMessage(db: Database, conversationId: Id, senderId: Id, content: Option<string>,
                     attachments: Option<seq<string>>, now: nat)
    returns (r: Result<Message>)
    modifies db
    ensures Step(r, db.Snapshot()) == Send(old(db.Snapshot()), conversationId, senderId, content, attachments, now)
  {
    var found := ConversationIndex(db.conversations, conversationId);
    if found.None? {
      return Err(ConversationNotFound);
    }
    var conversation := db.conversations[found.value];
    if senderId !in conversation.participants {
      return Err(NotParticipant);
    }
    var created := Create(MessageInput(Some(conversationId), Some(senderId), content,
                                       Some(if attachments.Some? then attachments.value else [])),
                          db.nextId, now);
    if created.Err? {
      return created;
    }
    var message := created.value;
    db.messages := db.messages + [message];
    db.nextId := db.nextId + 1;
    db.conversations := db.conversations[found.value := WithLastMessage(conversation, message, now)];
    r := created;
  }

  /** Every failure leaves the store as it was; a success stores exactly one
      new message, acceptable under the schema, with a fresh id. */
  lemma SendOutcome(st: State, conversationId: Id, senderId: Id, content: Option<string>,
                    attachments: Option<seq<string>>, now: nat)
    ensures var out := Send(st, conversationId, senderId, content, attachments, now);
            && (out.result.Err? ==> out.state == st)
            && (out.result.Ok? ==>
                  && out.state.messages == st.messages + [out.result.value]
                  && out.state.users == st.users
                  && |out.state.conversations| == |st.conversations|
                  && out.state.nextId == st.nextId + 1
                  && out.result.value.id == st.nextId
                  && Acceptable(out.result.value))
  {
  }

  /** No stored conversation has the id: 404, nothing stored. */
  lemma SendToUnknownConversation(st: State, conversationId: Id, senderId: Id, content: Option<string>,
                                  attachments: Option<seq<string>>, now: nat)
    requires forall c :: c in st.conversations ==> c.id != conversationId
    ensures Send(st, conversationId, senderId, content, attachments, now) == Step(Err(ConversationNotFound), st)
  {
  }

  /** The sender is not a participant of the conversation: 403, nothing stored. */
  lemma SendByOutsider(st: State, c: Conversation, senderId: Id, content: Option<string>,
                       attachments: Option<seq<string>>, now: nat)
    requires Valid(st) && c in st.conversations && senderId !in c.participants
    ensures Send(st, c.id, senderId, content, attachments, now) == Step(Err(NotParticipant), st)
  {
    var k :| 0 <= k < |st.conversations| && st.conversations[k] == c;
    var i := ConversationIndex(st.conversations, c.id);
    assert i.Some?;
    assert !(i.value < k) && !(k < i.value);
    assert st.conversations[i.value] == c;
  }

  /** A participant's message with content or attachments is stored with the
      given fields, and its conversation, and no other, now points at it. */
  lemma SendByParticipant(st: State, c: Conversation, senderId: Id, content: Option<string>,
                          attachments: Option<seq<string>>, now: nat)
    requires Valid(st) && c in st.conversations && senderId in c.participants
    requires (content.Some? && content.value != "") || (attachments.Some? && attachments.value != [])
    ensures var out := Send(st, c.id, senderId, content, attachments, now);
            && out.result.Ok?
            && var m := out.result.value;
            && m.conversation == c.id && m.sender == senderId
            && m.content == (if content.Some? then content.value else "")
            && m.attachments == (if attachments.Some? then attachments.value else [])
            && m.createdAt == now
            && out.state.messages == st.messages + [m]
            && forall j :: 0 <= j < |st.conversations| ==>
                 out.state.conversations[j]
                   == if st.conversations[j].id == c.id then WithLastMessage(c, m, now) else st.conversations[j]
  {
    var k :| 0 <= k < |st.conversations| && st.conversations[k] == c;
    var i := ConversationIndex(st.conversations, c.id);
    assert i.Some?;
    assert i.value == k;
  }

  /** Neither empty nor missing content is accepted without attachments: the
      schema refuses the content path and nothing is stored. */
  lemma SendEmptyMessage(st: State, c: Conversation, senderId: Id, content: Option<string>,
                         attachments: Option<seq<string>>, now: nat)
    requires Valid(st) && c in st.conversations && senderId in c.participants
    requires content == None || content == Some("")
    requires attachments == None || attachments == Some([])
    ensures Send(st, c.id, senderId, content, attachments, now) == Step(Err(ValidationError(["content"])), st)
  {
    var k :| 0 <= k < |st.conversations| && st.conversations[k] == c;
    var i := ConversationIndex(st.conversations, c.id);
    assert i.Some?;
  }

  /** A store that gains one message with the counter's id, and whose
      conversations keep their ids and participants, stays valid. */
  lemma ValidAfterMessage(st: State, st': State, m: Message)
    requires Valid(st)
    requires st'.users == st.users && st'.messages == st.messages + [m]
    requires m.id == st.nextId && st'.nextId == st.nextId + 1
    requires |st'.conversations| == |st.conversations|
    requires forall j :: 0 <= j < |st.conversations| ==>
               st'.conversations[j].id == st.conversations[j].id
               && st'.conversations[j].participants == st.conversations[j].participants
    ensures Valid(st')
  {
  }

  /** Sending keeps the store's invariant. */
  lemma SendPreservesValid(st: State, conversationId: Id, senderId: Id, content: Option<string>,
                           attachments: Option<seq<string>>, now: nat)
    requires Valid(st)
    ensures Valid(Send(st, conversationId, senderId, content, attachments, now).state)
  {
    var out := Send(st, conversationId, senderId, content, attachments, now);
    if out.result.Ok? {
      var i := ConversationIndex(st.conversations, conversationId).value;
      var m := out.result.value;
      assert out.state.conversations == st.conversations[i := WithLastMessage(st.conversations[i], m, now)];
      ValidAfterMessage(st, out.state, m);
    }
  }
}
