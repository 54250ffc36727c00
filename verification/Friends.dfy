/**
 Friend requests, friendships and blocks (server/api/friends.py). Every endpoint is one atomic step:
 a function gives the tables it leaves and its answer, a method works on the database in place.
 */
module Friends {
  import opened Common
  import opened Tables

  datatype Action = Accept | Decline | Cancel

  // ---------------------------------------------------------------- the endpoints, on values

  ghost function FriendRequested(t: Tables, caller: string, username: string, freshId: string)
    : (Tables, Result<string, HttpError>)
  {
    if username !in t.users || t.users[username].deleted then (t, Err(UserNotFound))
    else
      var recipient := t.users[username].id;
      if recipient == caller then (t, Err(CannotAddYourself))
      else if (recipient, caller) in t.blocks then (t, Err(ActionNotAllowed))
      else if Ordered(caller, recipient) in t.friendships then (t, Err(AlreadyFriends))
      else
        match RequestBetween(t.requests, caller, recipient)
        case Some(id) =>
          var status := t.requests[id].status;
          if status == Accepted || status == Pending then (t, Err(RequestAlreadyOpen))
          else (t.(requests := t.requests[id := Request(caller, recipient, Pending)]), Ok(id))
        case None =>
          if freshId in t.requests then (t, Err(ConstraintViolated))
          else (t.(requests := t.requests[freshId := Request(caller, recipient, Pending)]), Ok(freshId))
  }

  function StatusAfter(action: Action): RequestStatus
  {
    match action
    case Accept => Accepted
    case Decline => Declined
    case Cancel => Cancelled
  }

  ghost function RequestHandled(t: Tables, caller: string, requestId: string, action: Action, freshId: string)
    : (Tables, Result<(), HttpError>)
  {
    if requestId !in t.requests then (t, Err(RequestNotFound))
    else
      var req := t.requests[requestId];
      if req.status != Pending then (t, Err(RequestNotPending))
      else if action == Cancel && req.senderId != caller then (t, Err(OnlySenderCancels))
      else if action != Cancel && req.recipientId != caller then (t, Err(OnlyRecipientAnswers))
      else
        var t1 := t.(requests := t.requests[requestId := req.(status := StatusAfter(action))]);
        if action != Accept then (t1, Ok(()))
        else
          var pair := Ordered(req.senderId, req.recipientId);
          var t2 := t1.(friendships := t.friendships + {pair});
          if ConversationOf(PairsOf(t.conversations), pair).Some? then (t2, Ok(()))
          else if freshId in t.conversations then (t, Err(ConstraintViolated))
          else
            (t2.(conversations := t.conversations[freshId := Conversation(pair.0, pair.1, 0, 0, None)]), Ok(()))
  }

  function FriendRemoved(t: Tables, caller: string, peer: string): Tables
  {
    t.(friendships := t.friendships - {Ordered(caller, peer)})
  }

  predicate Between(r: Request, x: string, y: string)
  {
    (r.senderId == x && r.recipientId == y) || (r.senderId == y && r.recipientId == x)
  }

  /** UPDATE ... SET status = CANCELLED WHERE status = PENDING AND the request is between x and y. */
  function PendingCancelled(requests: map<string, Request>, x: string, y: string): map<string, Request>
  {
    map id | id in requests ::
      if requests[id].status == Pending && Between(requests[id], x, y)
      then requests[id].(status := Cancelled) else requests[id]
  }

  function UserBlocked(t: Tables, caller: string, peer: string): (Tables, Result<(), HttpError>)
  {
    if peer == caller then (t, Err(CannotBlockYourself))
    else if !IsUserId(t, peer) then (t, Err(ConstraintViolated))
    else
      (t.(blocks := t.blocks + {(caller, peer)},
          friendships := t.friendships - {Ordered(caller, peer)},
          requests := PendingCancelled(t.requests, caller, peer)),
       Ok(()))
  }

  // ---------------------------------------------------------------- the endpoints, in place

  method SendFriendRequest(db: Database, caller: string, username: string, freshId: string)
    returns (r: Result<string, HttpError>)
    requires OneRequestPerPair(db.requests)
    modifies db
    ensures (db.State(), r) == FriendRequested(old(db.State()), caller, username, freshId)
  {
    if username !in db.users || db.users[username].deleted {
      return Err(UserNotFound);
    }
    var recipient := db.users[username].id;
    if recipient == caller {
      return Err(CannotAddYourself);
    }
    if (recipient, caller) in db.blocks {
      return Err(ActionNotAllowed);
    }
    if Ordered(caller, recipient) in db.friendships {
      return Err(AlreadyFriends);
    }
    var existing := FindRequest(db, caller, recipient);
    if existing.Some? {
      var id := existing.value;
      if db.requests[id].status == Accepted || db.requests[id].status == Pending {
        return Err(RequestAlreadyOpen);
      }
      db.requests := db.requests[id := db.requests[id].(status := Pending)];
      return Ok(id);
    }
    if freshId in db.requests {
      return Err(ConstraintViolated);
    }
    db.requests := db.requests[freshId := Request(caller, recipient, Pending)];
    r := Ok(freshId);
  }

  method HandleRequest(db: Database, caller: string, requestId: string, action: Action, freshId: string)
    returns (r: Result<(), HttpError>)
    requires OneConversationPerPair(PairsOf(db.conversations))
    modifies db
    ensures (db.State(), r) == RequestHandled(old(db.State()), caller, requestId, action, freshId)
  {
    if requestId !in db.requests {
      return Err(RequestNotFound);
    }
    var req := db.requests[requestId];
    if req.status != Pending {
      return Err(RequestNotPending);
    }
    if action == Cancel && req.senderId != caller {
      return Err(OnlySenderCancels);
    }
    if (action == Accept || action == Decline) && req.recipientId != caller {
      return Err(OnlyRecipientAnswers);
    }
    if action == Accept {
      ghost var t := db.State();
      var pair := Ordered(req.senderId, req.recipientId);
      var conversation := FindConversation(db, pair);
      if conversation.None? {
        if freshId in db.conversations {
          return Err(ConstraintViolated);
        }
        db.conversations := db.conversations[freshId := Conversation(pair.0, pair.1, 0, 0, None)];
      }
      if pair !in db.friendships {
        db.friendships := db.friendships + {pair};
      }
      assert db.friendships == t.friendships + {pair};
    }
    db.requests := db.requests[requestId := req.(status := StatusAfter(action))];
    r := Ok(());
  }

  method RemoveFriend(db: Database, caller: string, peer: string)
    modifies db
    ensures db.State() == FriendRemoved(old(db.State()), caller, peer)
  {
    db.friendships := db.friendships - {Ordered(caller, peer)};
  }

  method BlockUser(db: Database, caller: string, peer: string) returns (r: Result<(), HttpError>)
    modifies db
    ensures (db.State(), r) == UserBlocked(old(db.State()), caller, peer)
  {
    if peer == caller {
      return Err(CannotBlockYourself);
    }
    var known, _ := FindUserId(db, peer);
    if known {
      ghost var t := db.State();
      if (caller, peer) !in db.blocks {
        db.blocks := db.blocks + {(caller, peer)};
      }
      assert db.blocks == t.blocks + {(caller, peer)};
      db.friendships := db.friendships - {Ordered(caller, peer)};
      db.requests := PendingCancelled(db.requests, caller, peer);
      r := Ok(());
    } else {
      r := Err(ConstraintViolated);
    }
  }

  // ---------------------------------------------------------------- what the social graph keeps

  /** A request from x to y that was accepted. */
  ghost predicate AcceptedRequest(requests: Requests, x: string, y: string)
  {
    exists id :: RequestFrom(requests, id, x, y) && requests[id].status == Accepted
  }

  /** One row per ordered pair, none to oneself, and nobody waits on someone who has blocked them. */
  ghost predicate RequestsSound(requests: Requests, blocks: set<Pair>)
  {
    && OneRequestPerPair(requests)
    && forall id :: id in requests ==>
         && requests[id].senderId != requests[id].recipientId
         && (requests[id].status == Pending ==> (requests[id].recipientId, requests[id].senderId) !in blocks)
  }

  /** A friendship under a block was asked for by the blocker and granted; under mutual blocks there is none. */
  ghost predicate FriendshipsSound(friendships: set<Pair>, blocks: set<Pair>, requests: Requests)
  {
    && (forall p :: p in friendships ==> p.0 != p.1 && Ordered(p.0, p.1) == p)
    && (forall x, y :: (x, y) in blocks && Ordered(x, y) in friendships ==>
          AcceptedRequest(requests, x, y) && (y, x) !in blocks)
  }

  /** Conversations are for two people, one for each pair, and every pair of friends has one. */
  ghost predicate ConversationsSound(pairs: map<string, Pair>, friendships: set<Pair>)
  {
    && OneConversationPerPair(pairs)
    && (forall id :: id in pairs ==> pairs[id].0 != pairs[id].1 && Ordered(pairs[id].0, pairs[id].1) == pairs[id])
    && (forall p :: p in friendships ==> ConversationOf(pairs, p).Some?)
  }

  ghost predicate SocialInv(t: Tables)
  {
    && RequestsSound(t.requests, t.blocks)
    && FriendshipsSound(t.friendships, t.blocks, t.requests)
    && ConversationsSound(PairsOf(t.conversations), t.friendships)
  }

  lemma OrderedIsCanonical(a: string, b: string)
    ensures var p := Ordered(a, b); Ordered(p.0, p.1) == p && (a != b ==> p.0 != p.1)
  {
    BelowIsTotal(a, b);
  }

  /** The accepted requests are all still there. */
  ghost predicate AcceptedCarryOver(requests: Requests, requests': Requests)
  {
    forall id :: id in requests && requests[id].status == Accepted ==>
      id in requests' && requests'[id] == requests[id]
  }

  lemma AcceptedCarriesOver(requests: Requests, requests': Requests, x: string, y: string)
    requires AcceptedCarryOver(requests, requests') && AcceptedRequest(requests, x, y)
    ensures AcceptedRequest(requests', x, y)
  {
    var id :| RequestFrom(requests, id, x, y) && requests[id].status == Accepted;
    assert RequestFrom(requests', id, x, y);
  }

  /** Fewer friendships and no fewer accepted requests under the same blocks. */
  lemma FewerFriendshipsStaySound(
    friendships: set<Pair>, friendships': set<Pair>, blocks: set<Pair>, requests: Requests, requests': Requests)
    requires FriendshipsSound(friendships, blocks, requests)
    requires AcceptedCarryOver(requests, requests') && friendships' <= friendships
    ensures FriendshipsSound(friendships', blocks, requests')
  {
    forall x, y | (x, y) in blocks && Ordered(x, y) in friendships'
      ensures AcceptedRequest(requests', x, y)
    {
      AcceptedCarriesOver(requests, requests', x, y);
    }
  }

  /** Writing a pending row where there was none, or one that was declined or cancelled. */
  lemma PendingRowStaysSound(requests: Requests, blocks: set<Pair>, id: string, sender: string, recipient: string)
    requires RequestsSound(requests, blocks) && sender != recipient && (recipient, sender) !in blocks
    requires if id in requests then RequestFrom(requests, id, sender, recipient)
             else forall i :: !RequestFrom(requests, i, sender, recipient)
    ensures RequestsSound(requests[id := Request(sender, recipient, Pending)], blocks)
  {
    forall i | i in requests && i != id
      ensures !RequestFrom(requests, i, sender, recipient)
    {
    }
  }

  /** A request that goes through changes one row. */
  lemma SentRequest(t: Tables, caller: string, username: string, freshId: string)
    requires FriendRequested(t, caller, username, freshId).1.Ok?
    ensures
      var (t', r) := FriendRequested(t, caller, username, freshId);
      var id := r.value;
      && username in t.users
      && var recipient := t.users[username].id;
         && recipient != caller && (recipient, caller) !in t.blocks
         && t' == t.(requests := t.requests[id := Request(caller, recipient, Pending)])
         && if id in t.requests then RequestFrom(t.requests, id, caller, recipient) && t.requests[id].status != Accepted
            else forall i :: !RequestFrom(t.requests, i, caller, recipient)
  {
  }

  lemma RequestKeepsInv(t: Tables, caller: string, username: string, freshId: string)
    requires SocialInv(t)
    ensures SocialInv(FriendRequested(t, caller, username, freshId).0)
  {
    var (t', r) := FriendRequested(t, caller, username, freshId);
    if r.Ok? {
      SentRequest(t, caller, username, freshId);
      PendingRowStaysSound(t.requests, t.blocks, r.value, caller, t.users[username].id);
      FewerFriendshipsStaySound(t.friendships, t.friendships, t.blocks, t.requests, t'.requests);
    }
  }

  /** Answering changes one status and nothing else about requests. */
  lemma HandledRequest(t: Tables, caller: string, requestId: string, action: Action, freshId: string)
    requires RequestHandled(t, caller, requestId, action, freshId).1.Ok?
    ensures
      var t' := RequestHandled(t, caller, requestId, action, freshId).0;
      && requestId in t.requests && t.requests[requestId].status == Pending
      && t'.requests == t.requests[requestId := t.requests[requestId].(status := StatusAfter(action))]
      && t'.users == t.users && t'.blocks == t.blocks && t'.messages == t.messages
      && (action != Accept ==> t'.friendships == t.friendships && t'.conversations == t.conversations)
  {
  }

  lemma AcceptedRequestMakesFriends(t: Tables, caller: string, requestId: string, freshId: string)
    requires RequestHandled(t, caller, requestId, Accept, freshId).1.Ok?
    ensures
      var t' := RequestHandled(t, caller, requestId, Accept, freshId).0;
      var pair := Ordered(t.requests[requestId].senderId, t.requests[requestId].recipientId);
      && t'.friendships == t.friendships + {pair}
      && if ConversationOf(PairsOf(t.conversations), pair).Some? then t'.conversations == t.conversations
         else
           && freshId !in t.conversations
           && t'.conversations == t.conversations[freshId := Conversation(pair.0, pair.1, 0, 0, None)]
           && PairsOf(t'.conversations) == PairsOf(t.conversations)[freshId := pair]
  {
  }

  lemma NewFriendshipStaysSound(t: Tables, requests': Requests, id: string)
    requires RequestsSound(t.requests, t.blocks) && FriendshipsSound(t.friendships, t.blocks, t.requests)
    requires id in t.requests && t.requests[id].status == Pending
    requires requests' == t.requests[id := t.requests[id].(status := Accepted)]
    ensures FriendshipsSound(
              t.friendships + {Ordered(t.requests[id].senderId, t.requests[id].recipientId)}, t.blocks, requests')
  {
    var req := t.requests[id];
    var pair := Ordered(req.senderId, req.recipientId);
    OrderedIsCanonical(req.senderId, req.recipientId);
    forall x, y | (x, y) in t.blocks && Ordered(x, y) in t.friendships + {pair}
      ensures AcceptedRequest(requests', x, y) && (y, x) !in t.blocks
    {
      if Ordered(x, y) in t.friendships {
        AcceptedCarriesOver(t.requests, requests', x, y);
      } else {
        OrderedIdentifiesThePair(x, y, req.senderId, req.recipientId);
        assert RequestFrom(requests', id, req.senderId, req.recipientId);
      }
    }
  }

  lemma NewConversationStaysSound(pairs: map<string, Pair>, friendships: set<Pair>, id: string, pair: Pair)
    requires ConversationsSound(pairs, friendships)
    requires id !in pairs && ConversationOf(pairs, pair).None? && pair.0 != pair.1 && Ordered(pair.0, pair.1) == pair
    ensures ConversationsSound(pairs[id := pair], friendships + {pair})
  {
    var pairs' := pairs[id := pair];
    forall p | p in friendships + {pair}
      ensures ConversationOf(pairs', p).Some?
    {
      if p == pair {
        assert pairs'[id] == p;
      } else {
        var i := ConversationOf(pairs, p).value;
        assert pairs'[i] == p;
      }
    }
  }

  lemma HandleKeepsInv(t: Tables, caller: string, requestId: string, action: Action, freshId: string)
    requires SocialInv(t)
    ensures SocialInv(RequestHandled(t, caller, requestId, action, freshId).0)
  {
    var (t', r) := RequestHandled(t, caller, requestId, action, freshId);
    if r.Ok? {
      HandledRequest(t, caller, requestId, action, freshId);
      var req := t.requests[requestId];
      if action == Accept {
        AcceptedRequestMakesFriends(t, caller, requestId, freshId);
        NewFriendshipStaysSound(t, t'.requests, requestId);
        var pair := Ordered(req.senderId, req.recipientId);
        OrderedIsCanonical(req.senderId, req.recipientId);
        if ConversationOf(PairsOf(t.conversations), pair).None? {
          NewConversationStaysSound(PairsOf(t.conversations), t.friendships, freshId, pair);
        }
      } else {
        FewerFriendshipsStaySound(t.friendships, t.friendships, t.blocks, t.requests, t'.requests);
      }
    }
  }

  lemma RemoveKeepsInv(t: Tables, caller: string, peer: string)
    requires SocialInv(t)
    ensures SocialInv(FriendRemoved(t, caller, peer))
  {
    var t' := FriendRemoved(t, caller, peer);
    FewerFriendshipsStaySound(t.friendships, t'.friendships, t.blocks, t.requests, t.requests);
  }

  lemma BlockKeepsInv(t: Tables, caller: string, peer: string)
    requires SocialInv(t)
    ensures SocialInv(UserBlocked(t, caller, peer).0)
  {
    var (t', r) := UserBlocked(t, caller, peer);
    if r.Ok? {
      forall x, y | (x, y) in t'.blocks && Ordered(x, y) in t'.friendships
        ensures AcceptedRequest(t'.requests, x, y) && (y, x) !in t'.blocks
      {
        OrderedIdentifiesThePair(x, y, caller, peer);
        AcceptedCarriesOver(t.requests, t'.requests, x, y);
      }
    }
  }
}
