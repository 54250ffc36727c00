/**
 The receiving side of a client (client/ui/app.py, client/state/store.py): the local message table, and
 what a client does with an envelope that arrives, by whichever way.
 */
module Inbox {
  import opened Common
  import opened KeySchedule
  import opened Protocol
  import opened Pipeline
  import opened SendPath

  datatype Row = Row(conversationId: string, senderId: string, counter: int, plaintext: string)

  /** Rows by message identifier. */
  type Store = map<string, Row>

  /** UNIQUE(conversation_id, sender_id, counter) on local messages. */
  predicate SameSlot(r: Row, s: Row)
  {
    r.conversationId == s.conversationId && r.senderId == s.senderId && r.counter == s.counter
  }

  /** A row with this identifier, or with this conversation, sender and counter, is there already. */
  predicate Clashes(store: Store, id: string, row: Row)
  {
    id in store || exists other :: other in store && SameSlot(store[other], row)
  }

  /** INSERT OR IGNORE. */
  function Saved(store: Store, id: string, row: Row): Store
  {
    if Clashes(store, id, row) then store else store[id := row]
  }

  function RowOf(e: Envelope, plaintext: string): Row
  {
    Row(e.conversationId, e.senderId, e.counter, plaintext)
  }

  // ---------------------------------------------------------------- handling an envelope, on values

  /** The session a client handles an envelope with: its own, or one opened with the envelope's keys. */
  function SessionFor(c: Client, dhKey: Scalar, e: Envelope, keysVerified: bool): Option<Session>
  {
    if e.conversationId in c.sessions then Some(c.sessions[e.conversationId])
    else if keysVerified && e.ephPub.Some? && e.convDhPub.Some? then
      var root := RootAsResponder(
        dhKey, e.ephPub.value, e.convDhPub.value, c.userId, e.senderId, e.conversationId);
      Some(NewSession(root, false, None))
    else None
  }

  function WithSession(c: Client, id: string, s: Session): Client
  {
    c.(sessions := c.sessions[id := s])
  }

  /** The client and its table afterwards, the text of the row inserted, if any, and whether an ACK goes out. */
  datatype Handling = Handling(client: Client, store: Store, saved: Option<string>, acked: bool)

  /** Opened, saved, acknowledged; whatever fails ends it there. */
  function Handled(c: Client, store: Store, dhKey: Scalar, e: Envelope, keysVerified: bool, stored: bool): Handling
  {
    match SessionFor(c, dhKey, e, keysVerified)
    case None => Handling(c, store, None, false)
    case Some(s) =>
      var (receiver, r) := Decrypted(s.receiver, e);
      var c' := WithSession(c, e.conversationId, s.(receiver := receiver));
      if r.Err? || !stored then Handling(c', store, None, false)
      else
        var row := RowOf(e, r.value);
        Handling(c', Saved(store, e.id, row), if Clashes(store, e.id, row) then None else Some(r.value), true)
  }

  /**
   Of all sessions, a receipt moves the one it uses only, and of that the receiving part, opened or not. What
   opens is acknowledged exactly if the table can be written, even if the message is there already; the table
   has at most one row more, with the text, which is reported exactly if it was inserted.
   */
  lemma HandlingMovesOneSession(
    c: Client, store: Store, dhKey: Scalar, e: Envelope, keysVerified: bool, stored: bool)
    ensures
      var s, h := SessionFor(c, dhKey, e, keysVerified), Handled(c, store, dhKey, e, keysVerified, stored);
      if s.None? then h == Handling(c, store, None, false)
      else
        var (receiver, r) := Decrypted(s.value.receiver, e);
        && h.client == WithSession(c, e.conversationId, s.value.(receiver := receiver))
        && (h.acked <==> r.Ok? && stored)
        && (h.saved.Some? ==> h.acked && e.id !in store && h.store == store[e.id := RowOf(e, r.value)]
                              && h.saved == Some(r.value))
        && (h.saved.None? ==> h.store == store && (h.acked ==> Clashes(store, e.id, RowOf(e, r.value))))
  {
  }

  // ---------------------------------------------------------------- handling an envelope, in place

  class ChatClient {
    const userId: string
    const dhKey: Scalar
    var sessions: map<string, Session>
    var counters: map<string, int>
    var ttlSettings: map<string, int>
    var rows: Store

    function State(): Client
      reads this
    {
      Client(userId, sessions, counters, ttlSettings)
    }

    method SaveMessage(id: string, row: Row) returns (inserted: bool)
      modifies this`rows
      ensures rows == Saved(old(rows), id, row)
      ensures inserted <==> !Clashes(old(rows), id, row)
    {
      if id in rows {
        return false;
      }
      if other :| other in rows && SameSlot(rows[other], row) {
        return false;
      }
      rows := rows[id := row];
      inserted := true;
    }

    /** `stored` is the outcome of the local table: false when it cannot be written. */
    method HandleEnvelope(e: Envelope, keysVerified: bool, stored: bool) returns (saved: Option<string>, acked: bool)
      modifies this
      ensures Handling(State(), rows, saved, acked) == Handled(old(State()), old(rows), dhKey, e, keysVerified, stored)
    {
      ghost var c := State();
      saved, acked := None, false;
      if e.conversationId !in sessions {
        if !keysVerified || e.ephPub.None? || e.convDhPub.None? {
          return;
        }
        var root := RootAsResponder(
          dhKey, e.ephPub.value, e.convDhPub.value, userId, e.senderId, e.conversationId);
        sessions := sessions[e.conversationId := NewSession(root, false, None)];
      }
      var session := sessions[e.conversationId];
      assert SessionFor(c, dhKey, e, keysVerified) == Some(session);
      var (receiver, r) := Decrypted(session.receiver, e);
      sessions := sessions[e.conversationId := session.(receiver := receiver)];
      assert sessions == WithSession(c, e.conversationId, session.(receiver := receiver)).sessions;
      if r.Err? || !stored {
        return;
      }
      var inserted := SaveMessage(e.id, RowOf(e, r.value));
      if inserted {
        saved := Some(r.value);
      }
      acked := true;
    }
  }
}
