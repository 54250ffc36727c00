/**
 A run in which one direction of a conversation dies: two become friends, one message is heard, and then the
 server refuses 51 envelopes in a row.
 */
module RunawaySender {
  import opened Common
  import opened Protocol
  import opened Ratchet
  import opened Replay
  import opened Pipeline
  import opened Tables
  import opened Messages
  import opened Server
  import opened SendPath
  import opened Inbox
  import opened EndToEnd
  import opened LostConfirmations
  import opened Completeness
  import opened Traffic
  import opened DeadDirections

  /** A send that the server refuses for its identifier; the chain moves on all the same. */
  function RefusedAttempt(): Attempt
  {
    Attempt("c", "b", "hello", 0, "", seq(12, i => 0), None)
  }

  function RefusedSends(n: nat): seq<EndToEnd.Event>
  {
    if n == 0 then [] else RefusedSends(n - 1) + [Sending("a", RefusedAttempt())]
  }

  lemma RefusedSendMoves(w: World)
    requires "a" in w.clients && "a" in w.stores && w.clients["a"].userId == "a" && "c" in w.clients["a"].sessions
    ensures
      var w' := Stepped(w, Sending("a", RefusedAttempt()));
      && w'.server == w.server && w'.stores == w.stores && "a" in w'.clients && w'.clients["a"].userId == "a"
      && "c" in w'.clients["a"].sessions
      && w'.clients["a"].sessions["c"].send.index == w.clients["a"].sessions["c"].send.index + 1
  {
    var c, a := w.clients["a"], RefusedAttempt();
    var ok := PostedMovesOneClient(w, "a", a, true, true);
    var next := SentMovesOneSession(c, a, ok);
    PostedMovesServer(w, "a", a, true, true);
    if Prepared(c, a).1.Some? {
      PreparedEnvelope(c, a);
      RefusedMessageLeavesTables(w.server, "a", Prepared(c, a).1.value);
    }
  }

  /** a is n envelopes further; nothing else has moved. */
  ghost predicate RanAway(w: World, w': World, n: nat)
    requires Ends(w, "a", "b", "c")
  {
    && Ends(w', "a", "b", "c") && "a" in w'.stores && w'.clients["a"].userId == "a" && w'.server == w.server
    && w'.clients["a"].sessions["c"].send.index == w.clients["a"].sessions["c"].send.index + n
    && w'.clients["b"].sessions["c"].receiver == w.clients["b"].sessions["c"].receiver
  }

  lemma RefusedSendRunsAway(w: World, w1: World, n: nat)
    requires Ends(w, "a", "b", "c") && RanAway(w, w1, n)
    ensures RanAway(w, Stepped(w1, Sending("a", RefusedAttempt())), n + 1)
  {
    RefusedSendMoves(w1);
    SendMovesDirection(w1, Sending("a", RefusedAttempt()), "a", "b", "c");
  }

  /** a's chain runs away while the server takes nothing. */
  lemma {:induction false} RefusedSendsRunAway(w: World, n: nat)
    requires Ends(w, "a", "b", "c") && "a" in w.stores && w.clients["a"].userId == "a"
    ensures RanAway(w, WorldAfter(w, RefusedSends(n)), n)
  {
    if n > 0 {
      RefusedSendsRunAway(w, n - 1);
      LastStep(w, RefusedSends(n - 1), Sending("a", RefusedAttempt()));
      RefusedSendRunsAway(w, WorldAfter(w, RefusedSends(n - 1)), n - 1);
    }
  }

  /** The world after the first message was sent, and what waits in it. */
  lemma FirstMessageWaits(w: World)
    requires TwoFriends(w)
    ensures
      var w1, e := Posted(w, "a", FirstAttempt(), true, true), Prepared(NEWCOMER, FirstAttempt()).1.value;
      && EnvelopesOf(w1.server.messages) == map[AN_ID := e] && e.chainIndex == 0
      && "c" in w1.server.conversations && PairsOf(w1.server.conversations)["c"] == Ordered("a", "b")
  {
    FirstSendIsAccepted();
    FirstEnvelope();
    PostedEnvelopes(w, "a", FirstAttempt(), true, true);
    FriendsRunMakesFriends();
    PostingKeepsPairs(w, "a", FirstAttempt(), true, true, "c");
    PreparedEnvelope(NEWCOMER, FirstAttempt());
  }

  lemma FirstSenderIsOneAhead(w: World)
    requires TwoFriends(w)
    ensures
      var c := Posted(w, "a", FirstAttempt(), true, true).clients["a"];
      && "c" in c.sessions && c.userId == "a" && c.sessions["c"].send.index == 1
      && c.sessions["c"].root == Prepared(NEWCOMER, FirstAttempt()).0.sessions["c"].root
      && c.sessions["c"].initiator == Prepared(NEWCOMER, FirstAttempt()).0.sessions["c"].initiator
  {
    FirstEnvelope();
    var ok := PostedMovesOneClient(w, "a", FirstAttempt(), true, true);
    var next := SentMovesOneSession(NEWCOMER, FirstAttempt(), ok);
    PreparedEnvelope(NEWCOMER, FirstAttempt());
  }

  /** The other side opens its end of the session with the first message. */
  lemma FirstMessagePairs(w: World)
    requires TwoFriends(w) && w.dhKeys["b"] == 3
    ensures
      var w1, e := Posted(w, "a", FirstAttempt(), true, true), Prepared(NEWCOMER, FirstAttempt()).1.value;
      var s := SessionFor(w.clients["b"], 3, e, true);
      && s.Some? && "c" in w1.clients["a"].sessions && Paired(w1.clients["a"].sessions["c"], s.value)
      && s.value.receiver == Receiver(Fresh(RecvStart(s.value)), EMPTY_FILTER)
  {
    FirstEnvelope();
    FirstSenderIsOneAhead(w);
    FirstEnvelopePairsExactlyWhen(NEWCOMER, FirstAttempt(), w.clients["b"], 3);
  }

  lemma OpeningTheFirst(p: Session, s: Session, e: Envelope)
    requires SealedBy(e, p) && Paired(p, s) && s.receiver == Receiver(Fresh(RecvStart(s)), EMPTY_FILTER)
    requires e.chainIndex == 0 && e.counter >= 0
    ensures
      var rc := Decrypted(s.receiver, e).0;
      rc.chain.index == 1 && !InWindow(rc, e)
  {
    OpensExactlyWhen(p, s, e);
    KeyForSpendsOneIndex(RecvStart(s), s.receiver.chain, 0);
    DecryptedSpendsItsIndex(RecvStart(s), s.receiver, e);
  }

  /** The first message waits for b, who has no session yet but can open the other end of a's. */
  ghost predicate OneWaits(w: World, e: Envelope)
  {
    && EnvelopesOf(w.server.messages) == map[AN_ID := e] && e.id == AN_ID && e.chainIndex == 0 && e.counter == 0
    && e.senderId == "a" && e.recipientId == "b" && e.conversationId == "c"
    && "c" in w.server.conversations && PairsOf(w.server.conversations)["c"] == Ordered("a", "b")
    && "a" in w.clients && "c" in w.clients["a"].sessions && w.clients["a"].sessions["c"].send.index == 1
    && SealedBy(e, w.clients["a"].sessions["c"])
    && "b" in w.clients && "b" in w.stores && "b" in w.dhKeys
    && var s := SessionFor(w.clients["b"], w.dhKeys["b"], e, true);
       && s.Some? && Paired(w.clients["a"].sessions["c"], s.value)
       && s.value.receiver == Receiver(Fresh(RecvStart(s.value)), EMPTY_FILTER)
  }

  lemma FirstWorldWaits(w: World)
    requires TwoFriends(w) && SendInv(w) && w.dhKeys["b"] == 3
    ensures OneWaits(Posted(w, "a", FirstAttempt(), true, true), Prepared(NEWCOMER, FirstAttempt()).1.value)
  {
    var w1, e := Posted(w, "a", FirstAttempt(), true, true), Prepared(NEWCOMER, FirstAttempt()).1.value;
    FirstSenderInitiates(w);
    FirstMessageWaits(w);
    FirstSenderIsOneAhead(w);
    FirstMessagePairs(w);
    FirstEnvelope();
    PostedKeepsSendInv(w, "a", FirstAttempt(), true, true);
    assert EnvelopesOf(w1.server.messages)[AN_ID] == e;
    assert SentFrom(e, w1.clients);
  }

  /** Once b has heard it, a is one ahead, b is one ahead, and nothing waits. */
  ghost predicate OneHeard(w: World)
  {
    && Ends(w, "a", "b", "c") && NoneWaits(w, "a", "b", "c")
    && w.clients["a"].sessions["c"].send.index == 1
    && w.clients["b"].sessions["c"].receiver.chain.index == 1
  }

  lemma HearingTheFirst(w: World, e: Envelope)
    requires OneWaits(w, e)
    ensures OneHeard(Received(w, "b", e, true, true))
    ensures Received(w, "b", e, true, true).server == w.server
    ensures Received(w, "b", e, true, true).clients["a"] == w.clients["a"]
  {
    OpeningTheFirst(w.clients["a"].sessions["c"], SessionFor(w.clients["b"], w.dhKeys["b"], e, true).value, e);
    ReceivingMovesOneReceiver(w, "b", e, true, true);
  }

  /** After 51 more envelopes that the server refused, b can hear a no more. */
  lemma RunAwayIsBeyond(w: World, n: nat)
    requires OneHeard(w) && "a" in w.stores && w.clients["a"].userId == "a" && n > MAX_SKIP
    ensures
      var w' := WorldAfter(w, RefusedSends(n));
      Ends(w', "a", "b", "c") && Beyond(w', "a", "b", "c") && w'.server == w.server
  {
    RefusedSendsRunAway(w, n);
  }

  lemma {:induction false} RunsJoin(w: World, events: seq<EndToEnd.Event>, more: seq<EndToEnd.Event>)
    ensures WorldAfter(w, events + more) == WorldAfter(WorldAfter(w, events), more)
  {
    if more == [] {
      assert events + more == events;
    } else {
      var init, last := more[..|more| - 1], more[|more| - 1];
      assert events + more == (events + init) + [last] && more == init + [last];
      RunsJoin(w, events, init);
      LastStep(w, events + init, last);
      LastStep(WorldAfter(w, events), init, last);
    }
  }

  lemma HearingIsReceiving(w: World, e: Envelope)
    requires OneWaits(w, e)
    ensures Stepped(w, Hearing("b", AN_ID)) == Received(w, "b", e, true, true)
  {
    assert AN_ID in EnvelopesOf(w.server.messages);
    assert w.server.messages[AN_ID].envelope == e;
    HearingReceives(w, "b", AN_ID);
  }

  lemma FirstTwoSteps(w: World)
    requires TwoFriends(w) && SendInv(w) && w.dhKeys["b"] == 3
    ensures
      var w2 := Stepped(Stepped(w, Sending("a", FirstAttempt())), Hearing("b", AN_ID));
      && OneHeard(w2) && "a" in w2.stores && w2.clients["a"].userId == "a"
      && w2.server == Posted(w, "a", FirstAttempt(), true, true).server
      && w2.clients["a"] == Posted(w, "a", FirstAttempt(), true, true).clients["a"]
  {
    FirstWorldWaits(w);
    FirstCanPost(w);
    SendingPosts(w, "a", FirstAttempt());
    FirstSenderIsOneAhead(w);
    SendingKeepsMeans(w, "a", FirstAttempt(), "b");
    var w1, e := Posted(w, "a", FirstAttempt(), true, true), Prepared(NEWCOMER, FirstAttempt()).1.value;
    HearingTheFirst(w1, e);
    HearingIsReceiving(w1, e);
    StepKeepsMeans(w1, Hearing("b", AN_ID));
  }

  lemma FirstCanPost(w: World)
    requires TwoFriends(w)
    ensures CanPost(w, "a", FirstAttempt())
  {
    FirstSendIsAccepted();
  }

  // ---------------------------------------------------------------- though the server would take more

  /** a has a session, and the second message is due. */
  ghost predicate SecondIsDue(w: World)
  {
    && "a" in w.clients && "a" in w.stores && "c" in w.clients["a"].sessions && CountersMatch(w.clients["a"])
    && w.clients["a"].userId == "a" && w.clients["a"].ttlSettings == map[] && NextCounter(w.clients["a"], "c") == 1
  }

  lemma FirstSendMakesSecondDue(w: World)
    requires TwoFriends(w)
    ensures SecondIsDue(Posted(w, "a", FirstAttempt(), true, true))
  {
    FirstCanPost(w);
    FirstEnvelope();
    var ok := PostedMovesOneClient(w, "a", FirstAttempt(), true, true);
    SendingKeepsIdentity(NEWCOMER, FirstAttempt(), ok);
    SendingMovesItsCounter(NEWCOMER, FirstAttempt(), ok);
    SentKeepsMatch(NEWCOMER, FirstAttempt(), ok);
  }

  lemma RefusedSendKeepsSecondDue(w: World)
    requires SecondIsDue(w)
    ensures SecondIsDue(Stepped(w, Sending("a", RefusedAttempt())))
  {
    var c, a := w.clients["a"], RefusedAttempt();
    var ok := PostedMovesOneClient(w, "a", a, true, true);
    if Prepared(c, a).1.Some? {
      PreparedEnvelope(c, a);
    }
    SendingKeepsIdentity(c, a, ok);
    SentKeepsMatch(c, a, ok);
  }

  lemma {:induction false} RefusedSendsKeepSecondDue(w: World, n: nat)
    requires SecondIsDue(w)
    ensures SecondIsDue(WorldAfter(w, RefusedSends(n)))
  {
    if n > 0 {
      RefusedSendsKeepSecondDue(w, n - 1);
      LastStep(w, RefusedSends(n - 1), Sending("a", RefusedAttempt()));
      RefusedSendKeepsSecondDue(WorldAfter(w, RefusedSends(n - 1)));
    }
  }

  const OTHER_ID := "11111111-1111-4111-8111-111111111111"

  function SecondAttempt(): Attempt
  {
    Attempt("c", "b", "hello again", 0, OTHER_ID, seq(12, i => 0), None)
  }

  lemma OtherIdIsValid()
    ensures IsUuid4(OTHER_ID) && OTHER_ID != AN_ID
  {
    assert OTHER_ID[0] != AN_ID[0];
  }

  lemma SecondEnvelope(w: World)
    requires SecondIsDue(w)
    ensures
      var envelope := Prepared(w.clients["a"], SecondAttempt()).1;
      && envelope.Some? && EnvelopeValid(envelope.value) && envelope.value.counter == 1
      && envelope.value.senderId == "a" && envelope.value.recipientId == "b"
      && envelope.value.conversationId == "c" && envelope.value.id == OTHER_ID
  {
    OtherIdIsValid();
    var c := w.clients["a"];
    var d := DraftOf(c, SecondAttempt());
    assert ComputeAd(Skeleton(d, 1, c.sessions["c"].send.index)).Ok?;
  }

  /** The server as the first message left it. */
  lemma FirstLeavesFriends(w: World)
    requires TwoFriends(w)
    ensures
      var t := Posted(w, "a", FirstAttempt(), true, true).server;
      && t.users == After(EMPTY, FRIENDS_RUN).users && AreFriends(t, "a", "b")
  {
    FirstCanPost(w);
    FriendsRunMakesFriends();
    PostedMovesServer(w, "a", FirstAttempt(), true, true);
    AcceptedMessagePassed(w.server, "a", Prepared(NEWCOMER, FirstAttempt()).1.value);
  }

  lemma SecondCanPost(w: World, t: Tables, first: Envelope)
    requires SecondIsDue(w) && w.server == t && ServerInv(t) && AreFriends(t, "a", "b")
    requires t.users == After(EMPTY, FRIENDS_RUN).users
    requires EnvelopesOf(t.messages) == map[AN_ID := first] && first.counter == 0
    requires "c" in t.conversations && PairsOf(t.conversations)["c"] == Ordered("a", "b")
    ensures CanPost(w, "a", SecondAttempt())
  {
    OtherIdIsValid();
    SecondEnvelope(w);
    FriendsRunMakesFriends();
    FriendIsLive(t);
    var e := Prepared(w.clients["a"], SecondAttempt()).1.value;
    MessagesAreAcceptedExactlyWhen(t, "a", e);
    forall i | i in t.messages
      ensures i == AN_ID && !SameCounter(t.messages[i].envelope, e)
    {
      assert i in EnvelopesOf(t.messages);
      assert EnvelopesOf(t.messages)[i] == t.messages[i].envelope;
    }
  }

  /**
   A run after which b can hear a no more: they become friends, the first message is sent and heard, and 51
   envelopes in a row are built but refused. The server would still take a's next message.
   */
  lemma DirectionsDoDie() returns (events: seq<EndToEnd.Event>)
    ensures Initial(TWO_NEWCOMERS) && AllCountersMatch(TWO_NEWCOMERS.clients)
    ensures
      var w := WorldAfter(TWO_NEWCOMERS, events);
      Ends(w, "a", "b", "c") && Beyond(w, "a", "b", "c") && CanPost(w, "a", SecondAttempt())
  {
    TwoNewcomersMatch();
    var init := TwoBecomeFriends();
    events := DiesAfter(TWO_NEWCOMERS, init);
  }

  lemma TwoNewcomersMatch()
    ensures AllCountersMatch(TWO_NEWCOMERS.clients)
  {
  }

  lemma DiesAfter(w: World, init: seq<EndToEnd.Event>) returns (events: seq<EndToEnd.Event>)
    requires Initial(w) && w.dhKeys == map["b" := 3] && TwoFriends(WorldAfter(w, init))
    ensures
      var w' := WorldAfter(w, events);
      Ends(w', "a", "b", "c") && Beyond(w', "a", "b", "c") && CanPost(w', "a", SecondAttempt())
  {
    var two := init + [Sending("a", FirstAttempt())] + [Hearing("b", AN_ID)];
    SendInvHoldsAlong(w, init);
    EndsAlong(w, init, "b");
    FirstTwoSteps(WorldAfter(w, init));
    TwoMoreSteps(w, init, Sending("a", FirstAttempt()), Hearing("b", AN_ID));
    RunAwayIsBeyond(WorldAfter(w, two), MAX_SKIP + 1);
    events := two + RefusedSends(MAX_SKIP + 1);
    RunsJoin(w, two, RefusedSends(MAX_SKIP + 1));
    WorldStaysSound(w, events);
    StillPosts(WorldAfter(w, init), WorldAfter(w, two), WorldAfter(w, events));
  }

  lemma StillPosts(w: World, w2: World, w': World)
    requires TwoFriends(w) && w2.server == Posted(w, "a", FirstAttempt(), true, true).server
    requires "a" in w2.clients && w2.clients["a"] == Posted(w, "a", FirstAttempt(), true, true).clients["a"]
    requires "a" in w2.stores && w' == WorldAfter(w2, RefusedSends(MAX_SKIP + 1)) && w'.server == w2.server
    requires WorldInv(w')
    ensures CanPost(w', "a", SecondAttempt())
  {
    FirstSendMakesSecondDue(w);
    RefusedSendsKeepSecondDue(w2, MAX_SKIP + 1);
    FirstLeavesFriends(w);
    FirstMessageWaits(w);
    FirstEnvelope();
    SecondCanPost(w', w2.server, Prepared(NEWCOMER, FirstAttempt()).1.value);
  }
}
