/**
 The server's database: its tables, its rows, and the constraints that the schema itself enforces
 (server/models). A primary key is the key of a map; the other UNIQUE constraints are predicates.
 */
module Tables {
  import opened Common
  import opened Protocol

  datatype RequestStatus = Pending | Accepted | Declined | Cancelled

  datatype Request = Request(senderId: string, recipientId: string, status: RequestStatus)

  datatype Conversation = Conversation(
    userA: string, userB: string, unreadA: int, unreadB: int, lastMessageAt: Option<int>)

  datatype Message = Message(envelope: Envelope, deliveredAt: Option<int>)

  datatype User = User(id: string, deleted: bool)

  type Pair = (string, string)

  /** Users are keyed by name, requests, conversations and messages by identifier. */
  datatype Tables = Tables(
    users: map<string, User>,
    friendships: set<Pair>,
    blocks: set<Pair>,
    requests: map<string, Request>,
    conversations: map<string, Conversation>,
    messages: map<string, Message>)

  const EMPTY := Tables(map[], {}, {}, map[], map[], map[])

  /** The HTTP errors, one per refusing branch. */
  datatype HttpError =
    | UserNotFound | CannotAddYourself | ActionNotAllowed | AlreadyFriends | RequestAlreadyOpen
    | RequestNotFound | RequestNotPending | OnlySenderCancels | OnlyRecipientAnswers
    | CannotBlockYourself
    | InvalidEnvelope | SenderMismatch | NotFriends | RecipientNotFound | NoConversation
    | ConversationMismatch | DuplicateReplay | NotParticipant
    | ConstraintViolated  // any other constraint of the database: the transaction is rolled back

  class Database {
    var users: map<string, User>
    var friendships: set<Pair>
    var blocks: set<Pair>
    var requests: map<string, Request>
    var conversations: map<string, Conversation>
    var messages: map<string, Message>

    ghost function State(): Tables
      reads this
    {
      Tables(users, friendships, blocks, requests, conversations, messages)
    }
  }

  predicate IsUserId(t: Tables, id: string)
  {
    exists name :: name in t.users && t.users[name].id == id
  }

  predicate IsLiveUserId(t: Tables, id: string)
  {
    exists name :: name in t.users && t.users[name].id == id && !t.users[name].deleted
  }

  // ---------------------------------------------------------------- lookups

  type Requests = map<string, Request>

  /** Who talks to whom in each conversation. */
  function PairsOf(conversations: map<string, Conversation>): map<string, Pair>
  {
    map id | id in conversations :: (conversations[id].userA, conversations[id].userB)
  }

  function EnvelopesOf(messages: map<string, Message>): map<string, Envelope>
  {
    map id | id in messages :: messages[id].envelope
  }

  predicate RequestFrom(requests: Requests, id: string, sender: string, recipient: string)
  {
    id in requests && requests[id].senderId == sender && requests[id].recipientId == recipient
  }

  ghost function RequestBetween(requests: Requests, sender: string, recipient: string): (r: Option<string>)
    ensures r.Some? ==> RequestFrom(requests, r.value, sender, recipient)
    ensures r.None? ==> forall id :: !RequestFrom(requests, id, sender, recipient)
  {
    if exists id :: RequestFrom(requests, id, sender, recipient)
    then var id :| RequestFrom(requests, id, sender, recipient); Some(id)
    else None
  }

  ghost function ConversationOf(pairs: map<string, Pair>, pair: Pair): (r: Option<string>)
    ensures r.Some? ==> r.value in pairs && pairs[r.value] == pair
    ensures r.None? ==> forall id :: id in pairs ==> pairs[id] != pair
  {
    if exists id :: id in pairs && pairs[id] == pair
    then var id :| id in pairs && pairs[id] == pair; Some(id)
    else None
  }

  // ---------------------------------------------------------------- UNIQUE constraints

  /** UNIQUE(sender_id, recipient_id) on friend requests. */
  ghost predicate OneRequestPerPair(requests: Requests)
  {
    forall i, j :: (i in requests && j in requests && requests[i].senderId == requests[j].senderId
                    && requests[i].recipientId == requests[j].recipientId) ==> i == j
  }

  /** UNIQUE(user_a_id, user_b_id) on conversations. */
  ghost predicate OneConversationPerPair(pairs: map<string, Pair>)
  {
    forall i, j :: i in pairs && j in pairs && pairs[i] == pairs[j] ==> i == j
  }

  predicate SameCounter(d: Envelope, e: Envelope)
  {
    d.conversationId == e.conversationId && d.senderId == e.senderId && d.counter == e.counter
  }

  /** UNIQUE(conversation_id, sender_id, counter) on messages. */
  ghost predicate OneMessagePerCounter(envelopes: map<string, Envelope>)
  {
    forall i, j :: i in envelopes && j in envelopes && SameCounter(envelopes[i], envelopes[j]) ==> i == j
  }

  // ---------------------------------------------------------------- single-row queries

  method FindRequest(db: Database, sender: string, recipient: string) returns (r: Option<string>)
    requires OneRequestPerPair(db.requests)
    ensures r == RequestBetween(db.requests, sender, recipient)
  {
    if id :| id in db.requests && db.requests[id].senderId == sender && db.requests[id].recipientId == recipient {
      assert RequestFrom(db.requests, id, sender, recipient);
      r := Some(id);
    } else {
      r := None;
    }
  }

  method FindConversation(db: Database, pair: Pair) returns (r: Option<string>)
    requires OneConversationPerPair(PairsOf(db.conversations))
    ensures r == ConversationOf(PairsOf(db.conversations), pair)
  {
    if id :| id in db.conversations && (db.conversations[id].userA, db.conversations[id].userB) == pair {
      assert PairsOf(db.conversations)[id] == pair;
      r := Some(id);
    } else {
      r := None;
    }
  }

  method FindUserId(db: Database, id: string) returns (known: bool, live: bool)
    ensures known == IsUserId(db.State(), id)
    ensures live == IsLiveUserId(db.State(), id)
  {
    known, live := false, false;
    if name :| name in db.users && db.users[name].id == id {
      known := true;
    }
    if name :| name in db.users && db.users[name].id == id && !db.users[name].deleted {
      live := true;
    }
  }
}
