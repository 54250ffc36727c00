/**
 Messages that are opened once and not saved: their keys are spent, and nothing brings them back
 (client/crypto/session.py, client/ui/app.py).
 */
module SpentMessages {
  import opened Pipeline
  import opened Tables
  import opened SendPath
  import opened Inbox
  import opened EndToEnd
  import opened Completeness
  import opened Traffic
  import opened DeadDirections

  /** Every step keeps sessions, and what they have spent. */
  lemma StepAdvances(w: World, e: EndToEnd.Event)
    requires WorldInv(w)
    ensures SessionsAdvance(w.clients, Stepped(w, e).clients)
  {
    if !e.ReceiveEvent? {
      StepsSendOnly(w, e);
      SendingOnlyAdvances(w.clients, Stepped(w, e).clients);
    } else if Stepped(w, e) != w {
      ReceiptIsReceived(w, e);
      ReceivedMovesSessions(w, e.user, w.server.messages[e.id].envelope, e.keysVerified, e.stored);
    }
  }

  lemma SendingOnlyAdvances(clients: map<string, Client>, clients': map<string, Client>)
    requires AllSendOnly(clients, clients')
    ensures SessionsAdvance(clients, clients')
  {
  }

  /** A message whose key is spent, and which was not saved, is not saved by a step. */
  lemma SpentIsNotSaved(w: World, e: EndToEnd.Event, user: string, i: string)
    requires WorldInv(w) && i in w.server.messages && KeySpent(user, w.server.messages[i].envelope, w.clients)
    requires (user, i) !in SavedBy(w.saves)
    ensures (user, i) !in SavedBy(Stepped(w, e).saves)
  {
    if !e.ReceiveEvent? {
      OtherStepsSaveNothing(w, e);
    } else if Stepped(w, e) != w {
      ReceiptIsReceived(w, e);
      SpentIsNotSavedOnReceipt(w, e.user, e.id, e.keysVerified, e.stored, user, i);
    }
  }

  lemma SpentIsNotSavedOnReceipt(
    w: World, receiver: string, received: string, keysVerified: bool, stored: bool, user: string, i: string)
    requires WorldInv(w) && i in w.server.messages && KeySpent(user, w.server.messages[i].envelope, w.clients)
    requires (user, i) !in SavedBy(w.saves)
    requires receiver in w.clients && receiver in w.stores && receiver in w.dhKeys && Reaches(w, receiver, received)
    ensures
      var e := w.server.messages[received].envelope;
      (user, i) !in SavedBy(Received(w, receiver, e, keysVerified, stored).saves)
  {
    var e := w.server.messages[received].envelope;
    OnlyTheRecipientIsReached(w, receiver, received);
    ReceivedSaves(w, receiver, e, keysVerified, stored);
    if receiver == user && received == i
       && Handled(w.clients[user], w.stores[user], w.dhKeys[user], e, keysVerified, stored).saved.Some? {
      OnlyOpenedIsSaved(w.clients[user], w.stores[user], w.dhKeys[user], e, keysVerified, stored);
      OpeningSpends(w, user, e, keysVerified);
    }
  }

  lemma StepKeepsSpent(w: World, e: EndToEnd.Event, user: string, i: string)
    requires WorldInv(w) && i in w.server.messages && KeySpent(user, w.server.messages[i].envelope, w.clients)
    ensures i in Stepped(w, e).server.messages
    ensures KeySpent(user, Stepped(w, e).server.messages[i].envelope, Stepped(w, e).clients)
  {
    StepAdvances(w, e);
    StepKeepsMessages(w, e);
    assert i in EnvelopesOf(w.server.messages);
    assert EnvelopesOf(Stepped(w, e).server.messages)[i] == w.server.messages[i].envelope;
    KeySpentCarriesOver(user, w.server.messages[i].envelope, w.clients, Stepped(w, e).clients);
  }

  lemma {:induction false} SpentIsNeverSaved(w: World, after: seq<EndToEnd.Event>, user: string, i: string)
    requires WorldInv(w) && i in w.server.messages && KeySpent(user, w.server.messages[i].envelope, w.clients)
    requires (user, i) !in SavedBy(w.saves)
    ensures
      var w' := WorldAfter(w, after);
      && i in w'.server.messages && KeySpent(user, w'.server.messages[i].envelope, w'.clients)
      && (user, i) !in SavedBy(w'.saves)
  {
    if after != [] {
      var init, last := after[..|after| - 1], after[|after| - 1];
      SpentIsNeverSaved(w, init, user, i);
      InvHoldsAlong(w, init);
      StepKeepsSpent(WorldAfter(w, init), last, user, i);
      SpentIsNotSaved(WorldAfter(w, init), last, user, i);
    }
  }

  /**
   Opened once, lost for good. A message that its recipient opens while the local table cannot be written
   is never saved, whatever comes after: its key is spent.
   */
  lemma OpenedButUnsavedIsNeverSaved(
    w: World, before: seq<EndToEnd.Event>, user: string, i: string, keysVerified: bool, after: seq<EndToEnd.Event>)
    requires Initial(w)
    requires
      var w1 := WorldAfter(w, before);
      && user in w1.clients && user in w1.stores && user in w1.dhKeys && Reaches(w1, user, i)
      && (user, i) !in SavedBy(w1.saves)
      && var s := SessionFor(w1.clients[user], w1.dhKeys[user], w1.server.messages[i].envelope, keysVerified);
         s.Some? && Decrypted(s.value.receiver, w1.server.messages[i].envelope).1.Ok?
    ensures
      var w1 := WorldAfter(w, before);
      (user, i) !in
        SavedBy(WorldAfter(Received(w1, user, w1.server.messages[i].envelope, keysVerified, false), after).saves)
  {
    var w1 := WorldAfter(w, before);
    WorldStaysSound(w, before);
    OpenedIsSpent(w1, user, i, keysVerified);
    SpentIsNeverSaved(Received(w1, user, w1.server.messages[i].envelope, keysVerified, false), after, user, i);
  }

  lemma OpenedIsSpent(w: World, user: string, i: string, keysVerified: bool)
    requires WorldInv(w) && user in w.clients && user in w.stores && user in w.dhKeys && Reaches(w, user, i)
    requires
      var s := SessionFor(w.clients[user], w.dhKeys[user], w.server.messages[i].envelope, keysVerified);
      s.Some? && Decrypted(s.value.receiver, w.server.messages[i].envelope).1.Ok?
    ensures
      var w' := Received(w, user, w.server.messages[i].envelope, keysVerified, false);
      && WorldInv(w') && w'.server == w.server && w'.saves == w.saves
      && KeySpent(user, w'.server.messages[i].envelope, w'.clients)
  {
    var e := w.server.messages[i].envelope;
    ReceivedKeepsInv(w, user, i, keysVerified, false);
    ReceivingMovesOneReceiver(w, user, e, keysVerified, false);
    UnsavedChangesSessionsOnly(w, user, e, keysVerified, false);
    OpeningSpends(w, user, e, keysVerified);
  }
}
