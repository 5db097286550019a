/**
 * The document store the services read and write: the user, conversation
 * and message collections in their natural (insertion) order, and the
 * counter that hands out fresh identifiers.
 */
module Store {
  import opened Common
  import opened MessageModel

  /** A stored conversation; lastMessage/lastMessageAt point at the most
      recent message sent to it. */
  datatype Conversation = Conversation(
    id: Id,
    participants: seq<Id>,
    lastMessage: Option<Id>,
    lastMessageAt: Option<nat>,
    createdAt: nat,
    updatedAt: nat)

  /** A stored user. email is kept lower-cased and trimmed, password holds
      the password hash. phoneNumber is not a path of the user schema; users
      created by registration have none, but the user search queries it. */
  datatype User = User(
    id: Id,
    email: string,
    displayName: string,
    avatarUrl: Option<string>,
    password: string,
    statusMessage: Option<string>,
    phoneNumber: Option<string>)

  /** A snapshot of the whole store. */
  datatype State = State(
    users: seq<User>,
    conversations: seq<Conversation>,
    messages: seq<Message>,
    nextId: Id)

  /** What a store operation returns, together with the store after it. */
  datatype Step<T> = Step(result: Result<T>, state: State)

  /** The store's standing invariant: identifiers are unique within each
      collection and below the counter, participant lists hold no id twice,
      and no two users share an email. */
  predicate Valid(st: State) {
    && (forall i :: 0 <= i < |st.users| ==> st.users[i].id < st.nextId)
    && (forall i :: 0 <= i < |st.conversations| ==> st.conversations[i].id < st.nextId)
    && (forall i :: 0 <= i < |st.messages| ==> st.messages[i].id < st.nextId)
    && (forall i, j :: 0 <= i < j < |st.users| ==> st.users[i].id != st.users[j].id)
    && (forall i, j :: 0 <= i < j < |st.conversations| ==> st.conversations[i].id != st.conversations[j].id)
    && (forall i, j :: 0 <= i < j < |st.messages| ==> st.messages[i].id != st.messages[j].id)
    && (forall i :: 0 <= i < |st.conversations| ==> NoDuplicates(st.conversations[i].participants))
    && (forall i, j :: 0 <= i < j < |st.users| ==> st.users[i].email != st.users[j].email)
  }

  /** findById on the conversations. */
  function ConversationIndex(conversations: seq<Conversation>, id: Id): Option<nat> {
    FirstIndex(conversations, (c: Conversation) => c.id == id)
  }

  /** findById on the users. */
  function UserIndex(users: seq<User>, id: Id): Option<nat> {
    FirstIndex(users, (u: User) => u.id == id)
  }

  /** findOne({ email }) on the users. */
  function UserIndexByEmail(users: seq<User>, email: string): Option<nat> {
    FirstIndex(users, (u: User) => u.email == email)
  }

  /** findOne({ email }) finds nothing exactly when no user has the email;
      with unique emails what it finds is the one user that has it. */
  lemma UserByEmail(users: seq<User>, email: string)
    ensures UserIndexByEmail(users, email).None? <==> forall u :: u in users ==> u.email != email
    ensures UserIndexByEmail(users, email).Some? ==>
              var i := UserIndexByEmail(users, email).value;
              users[i] in users && users[i].email == email
    ensures UserIndexByEmail(users, email).Some? &&
            (forall i, j :: 0 <= i < j < |users| ==> users[i].email != users[j].email) ==>
              forall u :: u in users && u.email == email ==> u == users[UserIndexByEmail(users, email).value]
  {
    var found := UserIndexByEmail(users, email);
    if found.Some? {
      var i := found.value;
      assert users[i] in users;
      if forall i, j :: 0 <= i < j < |users| ==> users[i].email != users[j].email {
        forall u | u in users && u.email == email ensures u == users[i] {
          var j :| 0 <= j < |users| && users[j] == u;
          assert !(j < i) && !(i < j);
        }
      }
    } else {
      forall u | u in users ensures u.email != email {
        var j :| 0 <= j < |users| && users[j] == u;
      }
    }
  }

  /** The store as a class whose collections the service methods update. */
  class Database {
    var users: seq<User>
    var conversations: seq<Conversation>
    var messages: seq<Message>
    var nextId: Id

    function Snapshot(): State
      reads this
    {
      State(users, conversations, messages, nextId)
    }

    constructor ()
      ensures Snapshot() == State([], [], [], 0)
      ensures Valid(Snapshot())
    {
      users, conversations, messages, nextId := [], [], [], 0;
    }
  }
}
