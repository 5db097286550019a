/**
 * Conversation service: creating a direct conversation (idempotently, by
 * participant set) and the three read paths over the store.
 */
module ConversationService {
  import opened Common
  import opened Store
  import opened MessageModel
  import opened Ordering

  const InsufficientParticipants := HttpError(400, "Conversation requires at least two participants")
  const ConversationNotFound := HttpError(404, "Conversation not found")
  const NoAccess := HttpError(403, "You do not have access to this conversation")
  const DefaultMessageLimit := 50

  // ---------------------------------------------------------------------
  // The participant list: a Set built from the caller and the given ids.
  // ---------------------------------------------------------------------

  /** The distinct elements of s in the order of their first occurrence,
      which is the iteration order of a Set built from s. */
  function Dedup(s: seq<Id>): (r: seq<Id>)
    ensures NoDuplicates(r)
    ensures forall x :: x in r <==> x in s
    ensures |r| <= |s|
    ensures s != [] ==> |r| > 0 && r[0] == s[0]
  {
    if s == [] then []
    else
      var d := Dedup(s[..|s| - 1]);
      var x := s[|s| - 1];
      assert forall y :: y in s <==> y in s[..|s| - 1] || y == x;
      if x in d then d else d + [x]
  }

  /** The position of the first occurrence of x in s. */
  function Position(s: seq<Id>, x: Id): (k: nat)
    requires x in s
    ensures k < |s| && s[k] == x && x !in s[..k]
  {
    if s[0] == x then 0
    else
      var k := Position(s[1..], x);
      assert s[1..][..k] == s[1..k + 1];
      k + 1
  }

  /** A position holding x with no earlier x is the first occurrence. */
  lemma PositionUnique(s: seq<Id>, x: Id, k: nat)
    requires k < |s| && s[k] == x && x !in s[..k]
    ensures Position(s, x) == k
  {
    var k' := Position(s, x);
    forall j | 0 <= j < k ensures s[j] != x {
      assert s[..k][j] == s[j];
    }
    forall j | 0 <= j < k' ensures s[j] != x {
      assert s[..k'][j] == s[j];
    }
  }

  lemma PositionInPrefix(s: seq<Id>, t: seq<Id>, x: Id)
    requires x in s
    ensures Position(s + t, x) == Position(s, x)
  {
    var k := Position(s, x);
    assert (s + t)[..k] == s[..k];
    PositionUnique(s + t, x, k);
  }

  /** Later elements of Dedup(s) first occur later in s. */
  lemma {:induction false} DedupKeepsFirstOccurrenceOrder(s: seq<Id>)
    ensures forall i, j :: 0 <= i < j < |Dedup(s)| ==>
              Position(s, Dedup(s)[i]) < Position(s, Dedup(s)[j])
  {
    if s != [] {
      var p, x := s[..|s| - 1], s[|s| - 1];
      assert s == p + [x];
      DedupKeepsFirstOccurrenceOrder(p);
      var d := Dedup(p);
      forall y | y in p ensures Position(s, y) == Position(p, y) {
        PositionInPrefix(p, [x], y);
      }
      if x !in d {
        assert x !in p;
        assert Position(s, x) == |p|;
      }
    }
  }

  /** The participants of a conversation created by userId with the given
      ids: the caller first, then the other distinct ids in order. */
  function Participants(userId: Id, participantIds: seq<Id>): (r: seq<Id>)
    ensures |r| > 0 && r[0] == userId
    ensures NoDuplicates(r)
    ensures forall x :: x in r <==> x == userId || x in participantIds
  {
    Dedup([userId] + participantIds)
  }

  /** The participant list has fewer than two entries exactly when every
      given id is the caller's own. */
  lemma TooFewParticipantsIff(userId: Id, participantIds: seq<Id>)
    ensures |Participants(userId, participantIds)| < 2 <==> forall x :: x in participantIds ==> x == userId
  {
    var r := Participants(userId, participantIds);
    HeadFacts(r);
    if !forall x :: x in participantIds ==> x == userId {
      var x :| x in participantIds && x != userId;
      assert x in r && x != r[0];
    }
  }

  /** The same loop as building a Set and reading it back into an array. */
  method UniqueInOrder(s: seq<Id>) returns (r: seq<Id>)
    ensures r == Dedup(s)
  {
    var seen: set<Id> := {};
    r := [];
    var i := 0;
    while i < |s|
      invariant 0 <= i <= |s|
      invariant r == Dedup(s[..i])
      invariant forall x :: x in seen <==> x in r
    {
      assert s[..i + 1][..i] == s[..i];
      if s[i] !in seen {
        r := r + [s[i]];
        seen := seen + {s[i]};
      }
      i := i + 1;
    }
    assert s[..i] == s;
  }

  // ---------------------------------------------------------------------
  // createDirectConversation
  // ---------------------------------------------------------------------

  /** The query { participants: { $size: |p|, $all: p } }. */
  predicate Matches(c: Conversation, p: seq<Id>) {
    |c.participants| == |p| && forall x :: x in p ==> x in c.participants
  }

  function FindMatching(conversations: seq<Conversation>, p: seq<Id>): Option<nat> {
    FirstIndex(conversations, (c: Conversation) => Matches(c, p))
  }

  /** The number of stored conversations the query matches. */
  function CountMatching(conversations: seq<Conversation>, p: seq<Id>): nat {
    |Filter(conversations, (c: Conversation) => Matches(c, p))|
  }

  /** The outcome of createDirectConversation(userId, participantIds) at time now. */
  function CreateDirect(st: State, userId: Id, participantIds: seq<Id>, now: nat): Step<Conversation> {
    var p := Participants(userId, participantIds);
    if |p| < 2 then Step(Err(InsufficientParticipants), st)
    else match FindMatching(st.conversations, p)
      case Some(i) => Step(Ok(st.conversations[i]), st)
      case None =>
        var c := Conversation(st.nextId, p, None, Some(now), now, now);
        Step(Ok(c), st.(conversations := st.conversations + [c], nextId := st.nextId + 1))
  }

  method CreateDirectConversation(db: Database, userId: Id, participantIds: seq<Id>, now: nat)
    returns (r: Result<Conversation>)
    modifies db
    ensures Step(r, db.Snapshot()) == CreateDirect(old(db.Snapshot()), userId, participantIds, now)
  {
    // The caller is placed first, so the source's re-insertion of a missing
    // caller never applies.
    var participants := UniqueInOrder([userId] + participantIds);
    if |participants| < 2 {
      return Err(InsufficientParticipants);
    }
    var existing := FindMatching(db.conversations, participants);
    if existing.Some? {
      return Ok(db.conversations[existing.value]);
    }
    var c := Conversation(db.nextId, participants, None, Some(now), now, now);
    db.conversations := db.conversations + [c];
    db.nextId := db.nextId + 1;
    r := Ok(c);
  }

  /** Without a second distinct participant the call fails with 400 and
      stores nothing; it succeeds otherwise. */
  lemma CreateFailsIffOnlyCaller(st: State, userId: Id, participantIds: seq<Id>, now: nat)
    ensures var out := CreateDirect(st, userId, participantIds, now);
            && (out.result.Err? <==> forall x :: x in participantIds ==> x == userId)
            && (out.result.Err? ==> out.result.error == InsufficientParticipants && out.state == st)
  {
    TooFewParticipantsIff(userId, participantIds);
  }

  /** A stored conversation with the same participants is returned and the
      store is left as it was. */
  lemma CreateReturnsExisting(st: State, userId: Id, participantIds: seq<Id>, now: nat, c: Conversation)
    requires |Participants(userId, participantIds)| >= 2
    requires c in st.conversations && Matches(c, Participants(userId, participantIds))
    ensures var out := CreateDirect(st, userId, participantIds, now);
            && out.state == st
            && out.result.Ok? && out.result.value in st.conversations
            && Matches(out.result.value, Participants(userId, participantIds))
  {
    var p := Participants(userId, participantIds);
    var k :| 0 <= k < |st.conversations| && st.conversations[k] == c;
    assert (c => Matches(c, p))(st.conversations[k]);
  }

  /** Otherwise exactly one conversation is added, holding the participant
      list, a fresh id and lastMessageAt set to now; nothing else changes. */
  lemma CreateInsertsOne(st: State, userId: Id, participantIds: seq<Id>, now: nat)
    requires |Participants(userId, participantIds)| >= 2
    requires forall c :: c in st.conversations ==> !Matches(c, Participants(userId, participantIds))
    ensures var out := CreateDirect(st, userId, participantIds, now);
            && out.result.Ok?
            && out.state.conversations == st.conversations + [out.result.value]
            && out.result.value.id == st.nextId
            && out.result.value.participants == Participants(userId, participantIds)
            && out.result.value.lastMessageAt == Some(now)
            && out.result.value.lastMessage == None
            && out.state.users == st.users && out.state.messages == st.messages
  {
  }

  /** Removing the element at k from a duplicate-free list leaves a
      duplicate-free list one shorter, holding every other element. */
  lemma RemoveAt(b: seq<Id>, k: nat)
    requires NoDuplicates(b) && k < |b|
    ensures var b' := b[..k] + b[k + 1..];
            && |b'| == |b| - 1
            && NoDuplicates(b')
            && forall y :: y in b' <==> y in b && y != b[k]
  {
    var b' := b[..k] + b[k + 1..];
    forall y | y in b' ensures y in b && y != b[k] {
      var j :| 0 <= j < |b'| && b'[j] == y;
      if j < k { assert b[j] == y; } else { assert b[j + 1] == y; }
    }
    forall y | y in b && y != b[k] ensures y in b' {
      var j :| 0 <= j < |b| && b[j] == y;
      if j < k { assert b'[j] == y; } else { assert b'[j - 1] == y; }
    }
    forall i, j | 0 <= i < j < |b'| ensures b'[i] != b'[j] {
      var i0 := if i < k then i else i + 1;
      var j0 := if j < k then j else j + 1;
      assert b'[i] == b[i0] && b'[j] == b[j0];
    }
  }

  /** Two duplicate-free lists with the same elements have the same length. */
  lemma {:induction false} SameElementsSameLength(a: seq<Id>, b: seq<Id>)
    requires NoDuplicates(a) && NoDuplicates(b)
    requires forall x :: x in a <==> x in b
    ensures |a| == |b|
    decreases |a|
  {
    HeadFacts(b);
    if a != [] {
      var x := a[0];
      assert x in b;
      var k :| 0 <= k < |b| && b[k] == x;
      RemoveAt(a, 0);
      assert a[..0] + a[1..] == a[1..];
      RemoveAt(b, k);
      SameElementsSameLength(a[1..], b[..k] + b[k + 1..]);
    }
  }

  /** For duplicate-free lists the matching query depends only on the set of
      ids, not on their order. */
  lemma MatchesDependsOnSet(c: Conversation, p: seq<Id>, q: seq<Id>)
    requires NoDuplicates(p) && NoDuplicates(q)
    requires forall x :: x in p <==> x in q
    ensures Matches(c, p) <==> Matches(c, q)
  {
    SameElementsSameLength(p, q);
  }

  /** Idempotence: repeating the call, by either party, with the same ids in
      any order and at any time, returns the same result and changes nothing. */
  lemma CreateIdempotent(st: State, userId: Id, participantIds: seq<Id>, now: nat,
                         userId': Id, participantIds': seq<Id>, now': nat)
    requires forall x :: x == userId || x in participantIds <==> x == userId' || x in participantIds'
    ensures var first := CreateDirect(st, userId, participantIds, now);
            CreateDirect(first.state, userId', participantIds', now') == first
  {
    var p, q := Participants(userId, participantIds), Participants(userId', participantIds');
    SameElementsSameLength(p, q);
    var first := CreateDirect(st, userId, participantIds, now);
    if |p| >= 2 {
      forall c: Conversation ensures Matches(c, p) <==> Matches(c, q) {
        MatchesDependsOnSet(c, p, q);
      }
      var s1 := first.state.conversations;
      FirstIndexAgrees(s1, (c: Conversation) => Matches(c, p), (c: Conversation) => Matches(c, q));
      match FindMatching(st.conversations, p)
      case Some(i) =>
      case None =>
        var c := first.result.value;
        assert s1 == st.conversations + [c];
        assert Matches(c, p);
        var P := (c: Conversation) => Matches(c, p);
        assert forall j :: 0 <= j < |st.conversations| ==> !P(s1[j]);
        assert P(s1[|st.conversations|]);
        assert FindMatching(s1, p) == FirstIndex(s1, P);
    }
  }

  lemma {:induction false} CountAppend(s: seq<Conversation>, c: Conversation, p: seq<Id>)
    ensures CountMatching(s + [c], p) == CountMatching(s, p) + (if Matches(c, p) then 1 else 0)
    decreases |s|
  {
    if s != [] {
      CountAppend(s[1..], c, p);
      assert (s + [c])[1..] == s[1..] + [c];
    }
  }

  /** After a successful call the store holds at least one conversation with
      this participant set, and exactly one if it held none before. */
  lemma CreateLeavesOneMatching(st: State, userId: Id, participantIds: seq<Id>, now: nat)
    requires |Participants(userId, participantIds)| >= 2
    ensures var p := Participants(userId, participantIds);
            var before := CountMatching(st.conversations, p);
            CountMatching(CreateDirect(st, userId, participantIds, now).state.conversations, p)
              == if before == 0 then 1 else before
  {
    var p := Participants(userId, participantIds);
    match FindMatching(st.conversations, p)
    case Some(i) =>
      var f := Filter(st.conversations, (c: Conversation) => Matches(c, p));
      assert st.conversations[i] in f;
    case None =>
      var c := Conversation(st.nextId, p, None, Some(now), now, now);
      CountAppend(st.conversations, c, p);
      var f := Filter(st.conversations, (c: Conversation) => Matches(c, p));
      HeadFacts(f);
  }

  /** Creation keeps the store's invariant. */
  lemma CreatePreservesValid(st: State, userId: Id, participantIds: seq<Id>, now: nat)
    requires Valid(st)
    ensures Valid(CreateDirect(st, userId, participantIds, now).state)
  {
  }

  // ---------------------------------------------------------------------
  // Read paths
  // ---------------------------------------------------------------------

  /** getConversationById: 404 for an unknown id, 403 for a requester who is
      not a participant, otherwise the stored conversation itself. */
  function GetConversationById(conversations: seq<Conversation>, conversationId: Id, userId: Id)
    : (r: Result<Conversation>)
    ensures (forall c :: c in conversations ==> c.id != conversationId) <==> r == Err(ConversationNotFound)
    ensures r.Ok? ==> r.value in conversations && r.value.id == conversationId && userId in r.value.participants
    ensures r.Err? ==> r.error == ConversationNotFound || r.error == NoAccess
  {
    match ConversationIndex(conversations, conversationId)
    case None => Err(ConversationNotFound)
    case Some(i) =>
      if userId in conversations[i].participants then Ok(conversations[i]) else Err(NoAccess)
  }

  /** With unique conversation ids the lookup decides on the one conversation with that id. */
  lemma GetConversationByIdExact(conversations: seq<Conversation>, c: Conversation, userId: Id)
    requires forall i, j :: 0 <= i < j < |conversations| ==> conversations[i].id != conversations[j].id
    requires c in conversations
    ensures GetConversationById(conversations, c.id, userId)
            == if userId in c.participants then Ok(c) else Err(NoAccess)
  {
    var k :| 0 <= k < |conversations| && conversations[k] == c;
    var i := ConversationIndex(conversations, c.id);
    assert i.Some?;
  }

  function UpdatedAt(c: Conversation): nat { c.updatedAt }
  function CreatedAt(m: Message): nat { m.createdAt }

  /** getConversationsForUser: exactly the stored conversations that have the
      user as a participant, each as often as it is stored, most recently
      updated first. */
  function GetConversationsForUser(conversations: seq<Conversation>, userId: Id): (r: seq<Conversation>)
    ensures SortedDesc(r, UpdatedAt)
    ensures forall c :: multiset(r)[c] == if userId in c.participants then multiset(conversations)[c] else 0
    ensures forall c :: c in r <==> c in conversations && userId in c.participants
  {
    var mine := Filter(conversations, (c: Conversation) => userId in c.participants);
    FilterMultiset(conversations, (c: Conversation) => userId in c.participants);
    SortDescCorrect(mine, UpdatedAt);
    SortDesc(mine, UpdatedAt)
  }

  /** The `limit` actually applied: 50 when none is given; 0 means no limit. */
  function EffectiveLimit(limit: Option<nat>): nat {
    if limit.None? then DefaultMessageLimit else limit.value
  }

  /** The messages of one conversation. */
  function OfConversation(conversationId: Id): Message -> bool {
    (m: Message) => m.conversation == conversationId
  }

  /** getRecentMessages: messages of the conversation, newest first, at most
      the limit (50 by default), each at most as often as it is stored and all
      of them when the limit does not cut; every message of the conversation
      that is left out is no newer than any message returned. */
  function GetRecentMessages(messages: seq<Message>, conversationId: Id, limit: Option<nat>): (r: seq<Message>)
    ensures var n := |Filter(messages, OfConversation(conversationId))|;
            var k := EffectiveLimit(limit);
            |r| == if k == 0 || n <= k then n else k
    ensures forall m :: m in r ==> m in messages && m.conversation == conversationId
    ensures SortedDesc(r, CreatedAt)
    ensures forall m, i :: (m in messages && m.conversation == conversationId && m !in r && 0 <= i < |r|)
                             ==> r[i].createdAt >= m.createdAt
    ensures var n := |Filter(messages, OfConversation(conversationId))|;
            limit.None? ==> |r| == if n <= 50 then n else 50
    ensures multiset(r) <= multiset(messages)
    ensures var k := EffectiveLimit(limit);
            (k == 0 || |Filter(messages, OfConversation(conversationId))| <= k)
              ==> multiset(r) == multiset(Filter(messages, OfConversation(conversationId)))
  {
    var r := Newest(Filter(messages, OfConversation(conversationId)), EffectiveLimit(limit), CreatedAt);
    NewestOfConversation(messages, conversationId, EffectiveLimit(limit), r);
    r
  }

  /** The membership facts of GetRecentMessages, restated from those of
      Newest on the conversation's messages. */
  lemma NewestOfConversation(messages: seq<Message>, conversationId: Id, k: nat, r: seq<Message>)
    requires r == Newest(Filter(messages, OfConversation(conversationId)), k, CreatedAt)
    ensures forall m :: m in r ==> m in messages && m.conversation == conversationId
    ensures forall m, i :: (m in messages && m.conversation == conversationId && m !in r && 0 <= i < |r|)
                             ==> r[i].createdAt >= m.createdAt
    ensures multiset(r) <= multiset(messages)
  {
    var mine := Filter(messages, OfConversation(conversationId));
    FilterMultiset(messages, OfConversation(conversationId));
    assert multiset(mine) <= multiset(messages);
    forall m | m in messages && m.conversation == conversationId ensures m in mine {
      assert OfConversation(conversationId)(m);
    }
    forall m, i | m in messages && m.conversation == conversationId && m !in r && 0 <= i < |r|
      ensures r[i].createdAt >= m.createdAt
    {
      assert m in mine;
      assert CreatedAt(r[i]) >= CreatedAt(m);
    }
  }
}
