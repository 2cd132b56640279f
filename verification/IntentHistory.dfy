/**
 * What an intent of the outbox holds, read off the run alone
 * (src/durable-pairwise-messaging-v2.js): who prepared it, how often it was
 * published, what relays took of it and how it ended.
 */
module IntentHistory {
  import opened Wrappers
  import opened Collections
  import opened PacketFrame
  import opened PacketSealing
  import opened Outbox
  import opened OutboxHistory

  // ---- Which intent an action is about ----

  ghost predicate StandsAt(w: World, place: nat, q: nat) {
    place < |w.state.intents| && w.state.intents[place].sequence == q
  }

  /** The intent a discard names, and with a bootstrap everything in its session. */
  ghost predicate Discards(s: State, transactionID: nat, q: nat) {
    exists i, j :: 0 <= i < |s.intents| && 0 <= j < |s.intents| && s.intents[i].transactionID == transactionID
      && s.intents[j].sequence == q
      && (i == j || (s.intents[i].envelope == Some(SignedPrekeyBootstrap)
                     && s.intents[j].sessionID == s.intents[i].sessionID))
  }

  ghost predicate Names(w: World, a: Action, q: nat) {
    match a
    case Prepare(_) => false
    case Receive(_, _, _) => false
    case Publish => StandsAt(w, FirstBlocking(w.state.intents), q)
    case Refresh(_, _, _) => StandsAt(w, Place(w), q)
    case Send(_, _) => StandsAt(w, Place(w), q)
    case Advance(_) => StandsAt(w, Place(w), q)
    case Accept => StandsAt(w, Place(w), q)
    case Fail(_) => StandsAt(w, Place(w), q)
    case Discard(transactionID) => Discards(w.state, transactionID, q)
  }

  /** A pending intent of the same session stands behind it. */
  ghost predicate OthersWait(s: State, q: nat) {
    exists i, j :: 0 <= i < j < |s.intents| && s.intents[i].sequence == q && Pending(s.intents[j])
      && s.intents[j].sessionID == s.intents[i].sessionID
  }

  // ---- What the run says of an intent ----

  /** How often it was marked as being published. */
  ghost function Published(worlds: seq<World>, actions: seq<Action>, n: nat, q: nat): nat
    requires n <= |actions| < |worlds|
  {
    if n == 0 then 0
    else
      Published(worlds, actions, n - 1, q)
      + if actions[n - 1].Publish? && Names(worlds[n - 1], actions[n - 1], q) then 1 else 0
  }

  /** How many packets of one of its deliveries were recorded as taken. */
  ghost function Taken(worlds: seq<World>, actions: seq<Action>, n: nat, q: nat, d: nat): nat
    requires n <= |actions| < |worlds|
  {
    if n == 0 then 0
    else
      Taken(worlds, actions, n - 1, q, d)
      + if actions[n - 1] == Advance(d) && Names(worlds[n - 1], actions[n - 1], q) then 1 else 0
  }

  ghost function StatusAfter(w: World, a: Action, q: nat, before: Status): Status {
    if !Names(w, a, q) then before
    else
      match a
      case Publish => Publishing
      case Accept => RelayAccepted
      case Fail(deterministic) =>
        if deterministic && !OthersWait(w.state, q) then PermanentFailure else RetryableFailure
      case Discard(_) => Discarded
      case _ => before
  }

  /** What the last action that decided on it made of it. */
  ghost function StatusBy(worlds: seq<World>, actions: seq<Action>, n: nat, q: nat): Status
    requires n <= |actions| < |worlds|
  {
    if n == 0 then Prepared
    else StatusAfter(worlds[n - 1], actions[n - 1], q, StatusBy(worlds, actions, n - 1, q))
  }

  /** The same packets for the same route, possibly with newer proofs. */
  ghost predicate SameShipment(a: Delivery, b: Delivery) {
    && a.routeID == b.routeID && a.sendCapability == b.sendCapability && |a.packets| == |b.packets|
    && forall k :: 0 <= k < |a.packets| ==> SameOnRelay(a.packets[k], b.packets[k])
  }

  /** The session a request is prepared in: the one in use, or a new one. */
  function SessionFor(s: State, r: Request): nat {
    if s.activeSession.Some? then s.activeSession.value else r.freshSession
  }

  /** Step `m` prepared the intent from this request. */
  ghost predicate PreparedBy(worlds: seq<World>, actions: seq<Action>, m: nat, x: Intent)
    requires m < |actions| < |worlds|
  {
    && actions[m].Prepare?
    && var s, r := worlds[m].state, actions[m].request;
       && x.sequence == s.nextSequence && x.transactionID == r.transactionID && x.request == r.content
       && x.control == r.control && x.sessionID == SessionFor(s, r)
       && (Pending(x) ==>
             && x.envelope == Some(if s.activeSession.None? then SignedPrekeyBootstrap else Ordinary)
             && |x.deliveries| == |r.deliveries|
             && forall d :: 0 <= d < |x.deliveries| ==> SameShipment(r.deliveries[d], x.deliveries[d]))
  }

  /** Its counters and status are those of the run. */
  ghost predicate FollowsRun(worlds: seq<World>, actions: seq<Action>, n: nat, x: Intent)
    requires n <= |actions| < |worlds|
  {
    && x.status == StatusBy(worlds, actions, n, x.sequence)
    && x.attemptCount == (var published := Published(worlds, actions, n, x.sequence);
                          if published < 8 then published else 8)
    && (Pending(x) ==>
          forall d :: 0 <= d < |x.deliveries| ==>
            && x.deliveries[d].nextPacketIndex == Taken(worlds, actions, n, x.sequence, d)
            && (x.deliveries[d].accepted <==> x.deliveries[d].nextPacketIndex == |x.deliveries[d].packets|))
  }

  // ---- One step ----

  /** The same delivery, moved on by one packet if `advanced`. */
  ghost predicate DeliveryMoved(a: Delivery, b: Delivery, advanced: bool) {
    SameShipment(a, b) && b.nextPacketIndex == a.nextPacketIndex + if advanced then 1 else 0
  }

  ghost predicate SameIdentity(x: Intent, y: Intent) {
    && y.sequence == x.sequence && y.sessionID == x.sessionID && y.transactionID == x.transactionID
    && y.request == x.request && y.control == x.control
  }

  /** What one action makes of an intent. */
  ghost predicate Moved(w: World, a: Action, x: Intent, y: Intent) {
    && SameIdentity(x, y)
    && y.status == StatusAfter(w, a, x.sequence, x.status)
    && y.attemptCount == (if a.Publish? && Names(w, a, x.sequence) && x.attemptCount < 8 then x.attemptCount + 1
                          else x.attemptCount)
    && (Pending(y) && y.envelope.Some? ==>
          && y.envelope == x.envelope && |y.deliveries| == |x.deliveries|
          && forall d :: 0 <= d < |x.deliveries| ==>
               DeliveryMoved(x.deliveries[d], y.deliveries[d], a == Advance(d) && Names(w, a, x.sequence)))
  }

  lemma Unmoved(w: World, a: Action, x: Intent)
    requires !Names(w, a, x.sequence)
    ensures Moved(w, a, x, x)
  {
  }

  /** Replacing one intent moves that one and leaves the others. */
  lemma ReplacedMoves(w: World, a: Action, i: nat, z: Intent, y: Intent)
    requires SequencesIncrease(w.state.intents, w.state.nextSequence) && i < |w.state.intents|
    requires !a.Discard? && !a.Prepare? && !a.Receive?
    requires forall q :: Names(w, a, q) <==> StandsAt(w, i, q)
    requires Moved(w, a, w.state.intents[i], z) && y in w.state.intents[i := z]
    ensures exists x :: x in w.state.intents && Moved(w, a, x, y)
  {
    hide Moved, Names;
    var after := w.state.intents[i := z];
    var j :| 0 <= j < |after| && after[j] == y;
    if j == i {
      assert w.state.intents[i] in w.state.intents;
    } else {
      assert w.state.intents[j] == y && y in w.state.intents;
      Unmoved(w, a, y);
    }
  }

  lemma SavedIn(e: Platform, c: State, y: Intent)
    requires Commit(e, c).Some? && y in Commit(e, c).value.intents
    ensures y in c.intents && IntentValid(e.h, y, Commit(e, c).value.sessions)
  {
    hide Commit, IntentValid, Subsequence, PendingOnly, SequencesIncrease;
    CommitFacts(e, c);
    Members(Commit(e, c).value.intents, c.intents);
    var k :| 0 <= k < |Commit(e, c).value.intents| && Commit(e, c).value.intents[k] == y;
  }

  lemma PublishMoves(e: Platform, w: World, y: Intent)
    requires Sane(e, w) && Step(e, w, Publish).Some? && y in Step(e, w, Publish).value.state.intents
    ensures exists x :: x in w.state.intents && Moved(w, Publish, x, y)
  {
    hide Commit, IntentValid, Retry, PendingOnly;
    var i := FirstBlocking(w.state.intents);
    var c := PublishCandidate(w.state).value;
    SavedIn(e, c, y);
    IntentFacts(e, w, i);
    var x := w.state.intents[i];
    AttemptsWithin(e, w, i);
    forall d | 0 <= d < |x.deliveries| ensures SameShipment(x.deliveries[d], x.deliveries[d]) {
    }
    ReplacedMoves(w, Publish, i, c.intents[i], y);
  }

  lemma AttemptsWithin(e: Platform, w: World, i: nat)
    requires Sane(e, w) && i < |w.state.intents|
    ensures w.state.intents[i].attemptCount <= 8 && (w.state.intents[i].envelope.Some? <==> Pending(w.state.intents[i]))
  {
    hide Retry, PendingOnly;
  }

  lemma RefreshMoves(e: Platform, w: World, d: nat, at: int, nonce: Id, y: Intent)
    requires Sane(e, w) && Step(e, w, Refresh(d, at, nonce)).Some?
             && y in Step(e, w, Refresh(d, at, nonce)).value.state.intents
    ensures exists x :: x in w.state.intents && Moved(w, Refresh(d, at, nonce), x, y)
  {
    hide Commit, IntentValid, Retry, PendingOnly, SameOnRelay, RefreshSendProof, SendProofExpired;
    var i := Place(w);
    var c := RefreshCandidate(e.h, w.state, i, d, at, nonce).value;
    SavedIn(e, c, y);
    var x := w.state.intents[i];
    forall p: Packet ensures SameOnRelay(p, p) {
      SamePacket(p);
    }
    ReplacedMoves(w, Refresh(d, at, nonce), i, c.intents[i], y);
  }

  lemma AdvanceMoves(e: Platform, w: World, d: nat, y: Intent)
    requires Sane(e, w) && Step(e, w, Advance(d)).Some? && y in Step(e, w, Advance(d)).value.state.intents
    ensures exists x :: x in w.state.intents && Moved(w, Advance(d), x, y)
  {
    hide Commit, IntentValid, Retry, PendingOnly, SameOnRelay, Acknowledged;
    var i := Place(w);
    var c := AdvanceCandidate(w.state, i, d);
    SavedIn(e, c, y);
    forall p: Packet ensures SameOnRelay(p, p) {
      SamePacket(p);
    }
    ReplacedMoves(w, Advance(d), i, c.intents[i], y);
  }

  lemma AcceptMoves(e: Platform, w: World, y: Intent)
    requires Sane(e, w) && Step(e, w, Accept).Some? && y in Step(e, w, Accept).value.state.intents
    ensures exists x :: x in w.state.intents && Moved(w, Accept, x, y)
  {
    hide Commit, IntentValid, Retry, PendingOnly;
    var i := Place(w);
    var c := AcceptCandidate(w.state, i).value;
    SavedIn(e, c, y);
    ReplacedMoves(w, Accept, i, c.intents[i], y);
  }

  lemma DependentWaits(s: State, i: nat)
    requires SequencesIncrease(s.intents, s.nextSequence) && i < |s.intents|
    ensures HasDependent(s, i) <==> OthersWait(s, s.intents[i].sequence)
  {
    if HasDependent(s, i) {
      var k :| 0 <= k < |s.intents[i + 1..]| && Pending(s.intents[i + 1..][k])
               && s.intents[i + 1..][k].sessionID == s.intents[i].sessionID;
      assert s.intents[i + 1 + k] == s.intents[i + 1..][k];
    }
    if OthersWait(s, s.intents[i].sequence) {
      var a, j :| 0 <= a < j < |s.intents| && s.intents[a].sequence == s.intents[i].sequence && Pending(s.intents[j])
                  && s.intents[j].sessionID == s.intents[a].sessionID;
      assert a == i;
      assert s.intents[i + 1..][j - i - 1] == s.intents[j];
    }
  }

  lemma FailMoves(e: Platform, w: World, deterministic: bool, y: Intent)
    requires Sane(e, w) && Step(e, w, Fail(deterministic)).Some?
             && y in Step(e, w, Fail(deterministic)).value.state.intents
    ensures exists x :: x in w.state.intents && Moved(w, Fail(deterministic), x, y)
  {
    hide Commit, IntentValid, Retry, PendingOnly, HasDependent, OthersWait;
    var i := Place(w);
    var c := FailCandidate(w.state, i, deterministic).value;
    SavedIn(e, c, y);
    DependentWaits(w.state, i);
    var x := w.state.intents[i];
    forall d | 0 <= d < |x.deliveries| ensures SameShipment(x.deliveries[d], x.deliveries[d]) {
    }
    ReplacedMoves(w, Fail(deterministic), i, c.intents[i], y);
  }

  lemma DiscardMoves(e: Platform, w: World, transactionID: nat, y: Intent)
    requires Sane(e, w) && Step(e, w, Discard(transactionID)).Some?
             && y in Step(e, w, Discard(transactionID)).value.state.intents
    ensures exists x :: x in w.state.intents && Moved(w, Discard(transactionID), x, y)
  {
    hide Commit, IntentValid, Retry, PendingOnly, FindTransaction, WithoutSession, Moved;
    var s := w.state;
    var c := DiscardCandidate(s, transactionID).value;
    SavedIn(e, c, y);
    var n := FindTransaction(s.intents, transactionID);
    var k :| 0 <= k < |c.intents| && c.intents[k] == y;
    var x := s.intents[k];
    assert y == if Doomed(s.intents[n], x) then Discarding(x) else x;
    DoomedIsNamed(w, transactionID, n, k);
    if Doomed(s.intents[n], x) {
      DiscardedMoves(w, transactionID, x);
    } else {
      Unmoved(w, Discard(transactionID), x);
    }
    assert x in s.intents;
  }

  lemma DoomedIsNamed(w: World, transactionID: nat, n: nat, k: nat)
    requires n < |w.state.intents| && k < |w.state.intents| && w.state.intents[n].transactionID == transactionID
    requires SequencesIncrease(w.state.intents, w.state.nextSequence)
    requires forall i, j :: 0 <= i < j < |w.state.intents| ==>
               w.state.intents[i].transactionID != w.state.intents[j].transactionID
    ensures Doomed(w.state.intents[n], w.state.intents[k])
       <==> Names(w, Discard(transactionID), w.state.intents[k].sequence)
  {
  }

  lemma DiscardedMoves(w: World, transactionID: nat, x: Intent)
    requires Names(w, Discard(transactionID), x.sequence)
    ensures Moved(w, Discard(transactionID), x, Discarding(x))
  {
  }

  /** What a preparation adds, field by field. */
  function Born(s: State, r: Request): Intent {
    Intent(s.nextSequence, SessionFor(s, r), r.transactionID, r.content, r.control,
           Some(if s.activeSession.None? then SignedPrekeyBootstrap else Ordinary), r.deliveries, Prepared, 0)
  }

  lemma PrepareMoves(e: Platform, w: World, r: Request, y: Intent)
    requires Sane(e, w) && Step(e, w, Prepare(r)).Some? && y in Step(e, w, Prepare(r)).value.state.intents
    ensures (y == Born(w.state, r) && FreshDeliveries(r.deliveries)) || y in w.state.intents
  {
    hide Commit, IntentValid, Retry, PendingOnly, PrepareCandidate, Subsequence, FreshDeliveries;
    var c := PrepareCandidate(w.state, r).value;
    SavedIn(e, c, y);
    var roomy, t := PrepareFacts(w.state, r);
    Members(roomy.intents, w.state.intents);
  }

  /** Every intent of the next world is born in this step, or is one of this world as the action moves it. */
  lemma StepMoves(e: Platform, w: World, a: Action, y: Intent)
    requires Sane(e, w) && Step(e, w, a).Some? && y in Step(e, w, a).value.state.intents
    ensures (a.Prepare? && y == Born(w.state, a.request) && FreshDeliveries(a.request.deliveries))
            || exists x :: x in w.state.intents && Moved(w, a, x, y)
  {
    hide Sane, Step, Moved, FreshDeliveries, Born;
    match a
    case Prepare(r) =>
      PrepareMoves(e, w, r, y);
      Unmoved(w, a, y);
    case Receive(sessions, activeSession, records) =>
      ReceivedIn(e, w, sessions, activeSession, records, y);
      Unmoved(w, a, y);
    case Publish => PublishMoves(e, w, y);
    case Refresh(d, at, nonce) => RefreshMoves(e, w, d, at, nonce, y);
    case Send(d, relayAccepts) => SentMoves(e, w, d, relayAccepts, y);
    case Advance(d) => AdvanceMoves(e, w, d, y);
    case Accept => AcceptMoves(e, w, y);
    case Fail(deterministic) => FailMoves(e, w, deterministic, y);
    case Discard(transactionID) => DiscardMoves(e, w, transactionID, y);
  }

  lemma ReceivedIn(e: Platform, w: World, sessions: seq<nat>, activeSession: Option<nat>, records: seq<seq<nat>>,
                   y: Intent)
    requires Sane(e, w) && Step(e, w, Receive(sessions, activeSession, records)).Some?
             && y in Step(e, w, Receive(sessions, activeSession, records)).value.state.intents
    ensures y in w.state.intents
  {
    hide Commit, IntentValid;
    SavedIn(e, w.state.(sessions := sessions, activeSession := activeSession, records := records), y);
  }

  lemma SentMoves(e: Platform, w: World, d: nat, relayAccepts: bool, y: Intent)
    requires Step(e, w, Send(d, relayAccepts)).Some?
             && y in Step(e, w, Send(d, relayAccepts)).value.state.intents
    ensures exists x :: x in w.state.intents && Moved(w, Send(d, relayAccepts), x, y)
  {
    forall p: Packet ensures SameOnRelay(p, p) {
    }
    assert Moved(w, Send(d, relayAccepts), y, y);
  }

  // ---- Every run ----

  /** Nothing happened yet to sequences not given out. */
  ghost predicate NotYet(worlds: seq<World>, actions: seq<Action>, n: nat, q: nat, d: nat)
    requires n <= |actions| < |worlds|
  {
    && Published(worlds, actions, n, q) == 0 && StatusBy(worlds, actions, n, q) == Prepared
    && Taken(worlds, actions, n, q, d) == 0
  }

  lemma {:induction false} UnusedSequences(e: Platform, worlds: seq<World>, actions: seq<Action>, n: nat, q: nat,
                                           d: nat)
    requires Trace(e, worlds, actions) && Initial(e, worlds[0]) && n <= |actions|
    requires q >= worlds[n].state.nextSequence
    ensures NotYet(worlds, actions, n, q, d)
  {
    hide Step, Sane, Initial, Names;
    if n > 0 {
      TraceSane(e, worlds, actions, n - 1);
      assert Step(e, worlds[n - 1], actions[n - 1]) == Some(worlds[n]);
      SequenceGrows(e, worlds[n - 1], actions[n - 1]);
      UnusedSequences(e, worlds, actions, n - 1, q, d);
      UnusedIsNotNamed(e, worlds[n - 1], actions[n - 1], q);
    }
  }

  lemma SequenceGrows(e: Platform, w: World, a: Action)
    requires Step(e, w, a).Some?
    ensures Step(e, w, a).value.state.nextSequence == w.state.nextSequence + if a.Prepare? then 1 else 0
  {
    hide Commit, FirstBlocking, FindTransaction, CompactTerminal, FreshDeliveries, ReserveSession, Target, Subsequence;
    hide PendingOnly, StateValid, RefreshSendProof, AnyAccepted, HasDependent, Acknowledged, InboundSessions;
    hide AbandonsBootstrap, DiscardIntents, WithoutSession, PrepareCandidate;
    var v := Step(e, w, a).value;
    match a
    case Prepare(r) =>
      var roomy, t := PrepareFacts(w.state, r);
      CommitFacts(e, PrepareCandidate(w.state, r).value);
    case Receive(sessions, activeSession, records) =>
      CommitFacts(e, w.state.(sessions := sessions, activeSession := activeSession, records := records));
    case Publish => CommitFacts(e, PublishCandidate(w.state).value);
    case Refresh(d, at, nonce) => CommitFacts(e, RefreshCandidate(e.h, w.state, Place(w), d, at, nonce).value);
    case Send(_, _) =>
    case Advance(d) => CommitFacts(e, AdvanceCandidate(w.state, Place(w), d));
    case Accept => CommitFacts(e, AcceptCandidate(w.state, Place(w)).value);
    case Fail(deterministic) => CommitFacts(e, FailCandidate(w.state, Place(w), deterministic).value);
    case Discard(transactionID) => CommitFacts(e, DiscardCandidate(w.state, transactionID).value);
  }

  lemma UnusedIsNotNamed(e: Platform, w: World, a: Action, q: nat)
    requires Sane(e, w) && q >= w.state.nextSequence
    ensures !Names(w, a, q)
  {
    hide IntentValid, Retry, PendingOnly;
  }

  lemma MovedFollows(worlds: seq<World>, actions: seq<Action>, n: nat, x: Intent, y: Intent)
    requires n < |actions| < |worlds| && FollowsRun(worlds, actions, n, x) && Moved(worlds[n], actions[n], x, y)
    requires Pending(y) ==> y.envelope.Some? && Pending(x)
                            && forall d :: 0 <= d < |y.deliveries| ==>
                                 (y.deliveries[d].accepted <==>
                                  y.deliveries[d].nextPacketIndex == |y.deliveries[d].packets|)
    ensures FollowsRun(worlds, actions, n + 1, y)
  {
    hide Names, SameOnRelay, StatusAfter;
  }

  lemma MovedPrepared(worlds: seq<World>, actions: seq<Action>, n: nat, m: nat, x: Intent, y: Intent)
    requires m < n < |actions| < |worlds| && PreparedBy(worlds, actions, m, x) && Moved(worlds[n], actions[n], x, y)
    requires Pending(y) ==> y.envelope.Some? && Pending(x)
    ensures PreparedBy(worlds, actions, m, y)
  {
    hide Names, StatusAfter;
  }

  lemma PendingFields(e: Platform, w: World, y: Intent)
    requires Sane(e, w) && y in w.state.intents
    ensures y.envelope.Some? <==> Pending(y)
    ensures Pending(y) ==> forall d :: 0 <= d < |y.deliveries| ==>
              (y.deliveries[d].accepted <==> y.deliveries[d].nextPacketIndex == |y.deliveries[d].packets|)
  {
    hide Retry, PendingOnly, SequencesIncrease;
    var i :| 0 <= i < |w.state.intents| && w.state.intents[i] == y;
    assert IntentValid(e.h, y, w.state.sessions);
  }

  lemma BornFollows(e: Platform, worlds: seq<World>, actions: seq<Action>, n: nat, y: Intent)
    requires Trace(e, worlds, actions) && Initial(e, worlds[0]) && n < |actions| && actions[n].Prepare?
    requires var r := actions[n].request; y == Born(worlds[n].state, r) && FreshDeliveries(r.deliveries)
    requires forall d :: 0 <= d < |y.deliveries| ==>
               (y.deliveries[d].accepted <==> y.deliveries[d].nextPacketIndex == |y.deliveries[d].packets|)
    ensures PreparedBy(worlds, actions, n, y) && FollowsRun(worlds, actions, n + 1, y)
  {
    hide Initial, Step;
    UnusedSequences(e, worlds, actions, n, y.sequence, 0);
    assert StatusBy(worlds, actions, n + 1, y.sequence) == Prepared;
    assert Published(worlds, actions, n + 1, y.sequence) == 0;
    forall d | 0 <= d < |y.deliveries|
      ensures Taken(worlds, actions, n + 1, y.sequence, d) == 0 == y.deliveries[d].nextPacketIndex
    {
      UnusedSequences(e, worlds, actions, n, y.sequence, d);
    }
    forall p: Packet ensures SameOnRelay(p, p) {
    }
  }

  /**
   * Every retained intent of every run, wherever saves moved the kept place: it
   * is what one preparation asked for, in the session then in use or the new
   * one, with the packets of that request; its status is what the last action
   * that named it decided, its attempts are how often it was published, up to
   * eight, and each of its deliveries stands where the recorded receipts took it.
   */
  lemma {:induction false} IntentIsItsHistory(e: Platform, worlds: seq<World>, actions: seq<Action>, n: nat, y: Intent)
    returns (m: nat)
    requires Trace(e, worlds, actions) && Initial(e, worlds[0]) && n < |worlds| && y in worlds[n].state.intents
    ensures m < n && PreparedBy(worlds, actions, m, y) && FollowsRun(worlds, actions, n, y)
  {
    hide Step, Sane, PreparedBy, FollowsRun, Moved, Born;
    if n > 0 {
      hide Initial;
      TraceSane(e, worlds, actions, n - 1);
      TraceSane(e, worlds, actions, n);
      var w, a := worlds[n - 1], actions[n - 1];
      assert Step(e, w, a) == Some(worlds[n]);
      StepMoves(e, w, a, y);
      PendingFields(e, worlds[n], y);
      if x :| x in w.state.intents && Moved(w, a, x, y) {
        m := IntentIsItsHistory(e, worlds, actions, n - 1, x);
        PendingFields(e, w, x);
        MovedStaysPending(w, a, x, y);
        MovedFollows(worlds, actions, n - 1, x, y);
        MovedPrepared(worlds, actions, n - 1, m, x, y);
      } else {
        m := n - 1;
        BornPending(w.state, a.request);
        BornFollows(e, worlds, actions, n - 1, y);
      }
    }
  }

  lemma BornPending(s: State, r: Request)
    ensures Pending(Born(s, r))
  {
  }

  lemma MovedStaysPending(w: World, a: Action, x: Intent, y: Intent)
    requires Moved(w, a, x, y) && (y.envelope.Some? <==> Pending(y)) && (x.envelope.Some? <==> Pending(x))
    ensures Pending(y) ==> Pending(x)
  {
    hide Names, DeliveryMoved;
  }

  // ---- Preparing again ----

  datatype PrepareError =
    | TransactionConflict
    | NoUsableRoute
    | OutboxCapacityExceeded
    | SessionCapacityExceeded
    | SaveRefused

  /** What a request whose transaction is in the outbox is answered with. */
  function KnownAnswer(s: State, r: Request): Option<Result<Intent, PrepareError>> {
    var i := FindTransaction(s.intents, r.transactionID);
    if i == |s.intents| then None
    else if s.intents[i].request != r.content || s.intents[i].control != r.control then Some(Err(TransactionConflict))
    else Some(Ok(s.intents[i]))
  }

  /** Why a request for a new intent fails before anything is saved. */
  function FailureFor(s: State, r: Request): Option<PrepareError> {
    match WithCapacity(s)
    case None => Some(OutboxCapacityExceeded)
    case Some(roomy) =>
      if s.activeSession.None? && ReserveSession(roomy).None? then Some(SessionCapacityExceeded)
      else if r.deliveries == [] then Some(NoUsableRoute)
      else None
  }

  /** The session has an intent that still has to be published, or failed for good. */
  ghost predicate HasWork(intents: seq<Intent>, session: nat) {
    exists x :: x in intents && x.sessionID == session
      && x.status in {Prepared, Publishing, RetryableFailure, PermanentFailure}
  }

  /**
   * At every point of every run a new intent finds no room exactly when 32 are
   * pending, no session exactly when none is in use and each of four has work
   * in what compaction leaves, and otherwise fails only without a route.
   */
  lemma {:induction false} FailsExactly(e: Platform, worlds: seq<World>, actions: seq<Action>, n: nat, r: Request)
    requires Trace(e, worlds, actions) && Initial(e, worlds[0]) && n < |worlds|
    ensures var s := worlds[n].state;
            FailureFor(s, r) ==
            if PendingCount(s.intents) == 32 then Some(OutboxCapacityExceeded)
            else if s.activeSession.None? && |s.sessions| == 4
                    && forall i :: 0 <= i < 4 ==>
                         HasWork(CompactTerminal(s.intents, Target(s.intents, 1)), s.sessions[i])
                 then Some(SessionCapacityExceeded)
            else if r.deliveries == [] then Some(NoUsableRoute)
            else None
  {
    hide Trace, Initial, Retry, Near, PlaceNear, CompactTerminal, ReserveSession, HasWork, SequencesIncrease;
    hide PendingOnly, IntentValid;
    TraceSane(e, worlds, actions, n);
    TraceBounded(e, worlds, actions, n);
    var s := worlds[n].state;
    CapacityByPending(s);
    if WithCapacity(s).Some? && s.activeSession.None? {
      ReservedExactly(WithCapacity(s).value);
    }
  }

  lemma CapacityByPending(s: State)
    requires Near(s.intents, FAILURE_REACH) && PendingCount(s.intents) <= MAXIMUM_PENDING_INTENTS
    ensures WithCapacity(s).None? <==> PendingCount(s.intents) == 32
    ensures WithCapacity(s).Some? ==>
              WithCapacity(s).value == s.(intents := CompactTerminal(s.intents, Target(s.intents, 1)))
  {
    hide CompactTerminal, Near, Subsequence, PendingOnly;
    CompactTerminalReaches(s.intents, Target(s.intents, 1), FAILURE_REACH);
    CompactTerminalKeeps(s.intents, Target(s.intents, 1));
  }

  lemma ReservedExactly(s: State)
    requires s.activeSession.None? && |s.sessions| <= MAXIMUM_SESSIONS
    ensures ReserveSession(s).None? <==>
            |s.sessions| == 4 && forall i :: 0 <= i < 4 ==> HasWork(s.intents, s.sessions[i])
  {
    hide HasWork, Protected;
    forall x: nat ensures Protected(s, x) <==> HasWork(s.intents, x) {
      ProtectedByWork(s, x);
    }
    var i := FirstUnprotected(s, 0);
    if |s.sessions| == 4 && i < 4 {
      assert |RemoveAt(s.sessions, i)| == 3;
    }
  }

  lemma ProtectedByWork(s: State, session: nat)
    requires s.activeSession.None?
    ensures Protected(s, session) <==> HasWork(s.intents, session)
  {
    if x :| x in s.intents && Blocking(x) && x.sessionID == session {
      var k :| 0 <= k < |s.intents| && s.intents[k] == x;
    }
    if Protected(s, session) {
      var k :| 0 <= k < |s.intents| && Blocking(s.intents[k]) && s.intents[k].sessionID == session;
      assert s.intents[k] in s.intents;
    }
  }

  /**
   * Idempotence over every run: while an intent is retained, its own request
   * again is answered with that intent, whatever became of it, and a request
   * under its transaction with other content or mark is a conflict. No other
   * request is known.
   */
  lemma {:induction false} RetryIsAnswered(e: Platform, worlds: seq<World>, actions: seq<Action>, n: nat, y: Intent,
                                           r: Request)
    returns (m: nat)
    requires Trace(e, worlds, actions) && Initial(e, worlds[0]) && n < |worlds| && y in worlds[n].state.intents
    ensures m < n && actions[m].Prepare? && worlds[m].state.nextSequence == y.sequence
    ensures var asked := actions[m].request;
            r.transactionID == asked.transactionID ==>
              KnownAnswer(worlds[n].state, r) == Some(if r.content == asked.content && r.control == asked.control
                                                      then Ok(y) else Err(TransactionConflict))
    ensures KnownAnswer(worlds[n].state, r).Some? <==>
              exists x :: x in worlds[n].state.intents && x.transactionID == r.transactionID
  {
    hide FollowsRun, Trace, Initial, Sane, Pending, SameShipment, KnownAnswer;
    m := IntentIsItsHistory(e, worlds, actions, n, y);
    TraceSane(e, worlds, actions, n);
    RequestIsKnown(e, worlds[n], y, r);
  }

  lemma RequestIsKnown(e: Platform, w: World, y: Intent, r: Request)
    requires Sane(e, w) && y in w.state.intents
    ensures r.transactionID == y.transactionID ==>
              KnownAnswer(w.state, r) == Some(if r.content == y.request && r.control == y.control
                                              then Ok(y) else Err(TransactionConflict))
    ensures KnownAnswer(w.state, r).Some? <==>
              exists x :: x in w.state.intents && x.transactionID == r.transactionID
  {
    hide Sane, FindTransaction;
    KnownByTransaction(e, w, y, r);
  }

  lemma KnownByTransaction(e: Platform, w: World, y: Intent, r: Request)
    requires Sane(e, w) && y in w.state.intents
    ensures r.transactionID == y.transactionID ==>
              w.state.intents[FindTransaction(w.state.intents, r.transactionID)..] != []
              && w.state.intents[FindTransaction(w.state.intents, r.transactionID)] == y
    ensures FindTransaction(w.state.intents, r.transactionID) < |w.state.intents| <==>
              exists x :: x in w.state.intents && x.transactionID == r.transactionID
  {
    hide FindTransaction, IntentValid, Retry, PendingOnly, SequencesIncrease;
    var intents, i := w.state.intents, FindTransaction(w.state.intents, r.transactionID);
    if x :| x in intents && x.transactionID == r.transactionID {
      var k :| 0 <= k < |intents| && intents[k] == x;
    }
    if i < |intents| {
      assert intents[i] in intents;
    }
    var j :| 0 <= j < |intents| && intents[j] == y;
  }

  // ---- Discarding ----

  ghost predicate SomeTaken(y: Intent) {
    exists d :: 0 <= d < |y.deliveries| && y.deliveries[d].accepted
  }

  ghost predicate SomeAcceptedIn(s: State, session: nat) {
    exists x :: x in s.intents && x.sessionID == session && x.status == RelayAccepted
  }

  /**
   * At every point of every run: what a discard of a retained intent is refused
   * for. It is refused after its acceptance, for a control, and for a bootstrap
   * that a route took or whose session has an accepted intent, and for nothing
   * else; one under another transaction is unknown.
   */
  lemma {:induction false} DiscardRefusedExactly(e: Platform, worlds: seq<World>, actions: seq<Action>, n: nat,
                                                 y: Intent, other: nat)
    requires Trace(e, worlds, actions) && Initial(e, worlds[0]) && n < |worlds| && y in worlds[n].state.intents
    ensures var s := worlds[n].state; var answer := DiscardCandidate(s, y.transactionID);
            && (answer == Err(AlreadyAccepted) <==> y.status == RelayAccepted)
            && (answer == Err(ControlDiscardForbidden) <==> y.status != RelayAccepted && y.control)
            && (answer == Err(BootstrapDiscardForbidden) <==>
                  && y.status != RelayAccepted && !y.control && y.envelope == Some(SignedPrekeyBootstrap)
                  && (SomeTaken(y) || SomeAcceptedIn(s, y.sessionID)))
            && answer != Err(UnknownIntent)
            && (DiscardCandidate(s, other) == Err(UnknownIntent) <==>
                  forall x :: x in s.intents ==> x.transactionID != other)
  {
    hide Trace, Initial, Sane, FindTransaction, DiscardCandidate, SomeTaken, SomeAcceptedIn;
    TraceSane(e, worlds, actions, n);
    var w := worlds[n];
    var r := Request(other, 0, false, false, [], 0);
    KnownByTransaction(e, w, y, r);
    KnownByTransaction(e, w, y, r.(transactionID := y.transactionID));
    UnknownExactly(w.state, other);
    SequencesAreUnique(e, w);
    DiscardOf(w.state, y);
  }

  lemma UnknownExactly(s: State, other: nat)
    ensures DiscardCandidate(s, other) == Err(UnknownIntent) <==> FindTransaction(s.intents, other) == |s.intents|
  {
    hide FindTransaction, AbandonsBootstrap, Doomed, DiscardIntents, WithoutSession, AnyAccepted;
  }

  lemma DiscardOf(s: State, y: Intent)
    requires var i := FindTransaction(s.intents, y.transactionID); i < |s.intents| && s.intents[i] == y
    requires forall x :: x in s.intents && x.sequence == y.sequence ==> x == y
    ensures var answer := DiscardCandidate(s, y.transactionID);
            && (answer == Err(AlreadyAccepted) <==> y.status == RelayAccepted)
            && (answer == Err(ControlDiscardForbidden) <==> y.status != RelayAccepted && y.control)
            && (answer == Err(BootstrapDiscardForbidden) <==>
                  && y.status != RelayAccepted && !y.control && y.envelope == Some(SignedPrekeyBootstrap)
                  && (SomeTaken(y) || SomeAcceptedIn(s, y.sessionID)))
            && answer != Err(UnknownIntent)
  {
    hide FindTransaction, DiscardIntents, WithoutSession, Doomed, SomeAcceptedIn;
    DoomedAccepted(s, y);
  }

  lemma SequencesAreUnique(e: Platform, w: World)
    requires Sane(e, w)
    ensures forall x, y :: x in w.state.intents && y in w.state.intents && x.sequence == y.sequence ==> x == y
  {
    hide Retry, PendingOnly, IntentValid;
  }

  lemma DoomedAccepted(s: State, y: Intent)
    requires y.status != RelayAccepted ==>
               forall x :: x in s.intents && x.sequence == y.sequence ==> x.status != RelayAccepted
    ensures y.status != RelayAccepted && AbandonsBootstrap(y) ==>
              (SomeAcceptedIn(s, y.sessionID) <==>
               exists k :: 0 <= k < |s.intents| && Doomed(y, s.intents[k]) && s.intents[k].status == RelayAccepted)
  {
    if y.status != RelayAccepted && AbandonsBootstrap(y) {
      if SomeAcceptedIn(s, y.sessionID) {
        var x :| x in s.intents && x.sessionID == y.sessionID && x.status == RelayAccepted;
        var k :| 0 <= k < |s.intents| && s.intents[k] == x;
        assert Doomed(y, s.intents[k]);
      }
      if k :| 0 <= k < |s.intents| && Doomed(y, s.intents[k]) && s.intents[k].status == RelayAccepted {
        assert s.intents[k] in s.intents;
      }
    }
  }
}
