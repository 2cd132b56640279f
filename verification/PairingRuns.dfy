/**
 * Both pairing machines over two relay lanes (src/contact-pairing-v2.js,
 * src/browser-pairing-service.js). A step persists one side's new state or
 * changes a lane; between any two steps either side may crash and continue
 * from what it persisted. Lanes reorder, repeat and withhold frames freely.
 */
module PairingRuns {
  import opened Wrappers
  import opened Pairing

  /** A side keeps its last pairing state here after it ended, for the statements below. */
  datatype Party = Absent | Active(state: State) | Finalized(state: State) | Cancelled(state: State)

  /**
   * `accepted` is every frame a relay ever took; a lane holds what can still be
   * read from it. An answer is the frame whose append a side's running process
   * has just seen succeed; a crash forgets it.
   */
  datatype World = World(
    offerer: Party,
    responder: Party,
    toOfferer: seq<Transport>,
    toResponder: seq<Transport>,
    offererLaneOpen: bool,
    responderLaneOpen: bool,
    accepted: set<Transport>,
    offererAnswer: Option<Transport>,
    responderAnswer: Option<Transport>)

  datatype Action =
    | Respond(participant: nat, transcript: nat, salt: nat, openFrameID: nat, acceptanceFrameID: nat)
    | Publish(role: Role, index: nat)
    | AcknowledgePublished(role: Role)
    | Crash(role: Role)
    | Deliver(role: Role, index: nat, draw: Draw)
    | DeleteLane(role: Role)
    | Finalize(role: Role)
    | Cancel(role: Role)

  function PartyOf(w: World, r: Role): Party {
    if r == Offerer then w.offerer else w.responder
  }

  function WithParty(w: World, r: Role, p: Party): World {
    if r == Offerer then w.(offerer := p) else w.(responder := p)
  }

  function AnswerOf(w: World, r: Role): Option<Transport> {
    if r == Offerer then w.offererAnswer else w.responderAnswer
  }

  function WithAnswer(w: World, r: Role, answer: Option<Transport>): World {
    if r == Offerer then w.(offererAnswer := answer) else w.(responderAnswer := answer)
  }

  /** The lane a role reads. */
  function Inbound(w: World, r: Role): seq<Transport> {
    if r == Offerer then w.toOfferer else w.toResponder
  }

  predicate InboundOpen(w: World, r: Role) {
    if r == Offerer then w.offererLaneOpen else w.responderLaneOpen
  }

  function DeleteInbound(w: World, r: Role): World {
    if r == Offerer then w.(toOfferer := [], offererLaneOpen := false)
      else w.(toResponder := [], responderLaneOpen := false)
  }

  function Append(w: World, r: Role, f: Transport): World {
    var v := w.(accepted := w.accepted + {f});
    if r == Offerer then v.(toOfferer := v.toOfferer + [f]) else v.(toResponder := v.toResponder + [f])
  }

  function StepPublish(w: World, r: Role, index: nat): Option<World> {
    match PartyOf(w, r)
    case Active(s) =>
      if index < |s.outbox| && InboundOpen(w, Opposite(r)) then
        Some(WithAnswer(Append(w, Opposite(r), s.outbox[index]), r, Some(s.outbox[index])))
      else None
    case _ => None
  }

  /** A frame is acknowledged on the answer to its append; its random identifier names no other frame of the outbox. */
  function StepAcknowledge(w: World, r: Role): Option<World> {
    match (PartyOf(w, r), AnswerOf(w, r))
    case (Active(s), Some(f)) =>
      if forall i :: 0 <= i < |s.outbox| && s.outbox[i].frameID == f.frameID ==> s.outbox[i] == f then
        (match Acknowledge(s, {f.frameID})
         case Err(_) => None
         case Ok(next) => Some(WithAnswer(WithParty(w, r, Active(next)), r, None)))
      else None
    case _ => None
  }

  function StepDeliver(w: World, r: Role, index: nat, draw: Draw): Option<World> {
    match PartyOf(w, r)
    case Active(s) =>
      if index >= |Inbound(w, r)| then None
      else
        (match Process(s, Inbound(w, r)[index], draw)
         case Err(_) => None
         case Ok(next) => Some(WithParty(w, r, Active(next))))
    case _ => None
  }

  function Step(w: World, a: Action): Option<World> {
    match a
    case Respond(participant, transcript, salt, openFrameID, acceptanceFrameID) =>
      if w.responder.Absent? then
        Some(w.(responder := Active(PrepareResponder(participant, transcript, salt, openFrameID, acceptanceFrameID))))
      else None
    case Publish(r, index) => StepPublish(w, r, index)
    case AcknowledgePublished(r) => StepAcknowledge(w, r)
    case Crash(r) => Some(WithAnswer(w, r, None))
    case Deliver(r, index, draw) => StepDeliver(w, r, index, draw)
    // A side deletes the lane it reads before it persists that it is done; it may stop in between.
    case DeleteLane(r) =>
      (match PartyOf(w, r)
       case Active(s) => if Finalizable(s).Ok? then Some(DeleteInbound(w, r)) else None
       case _ => None)
    case Finalize(r) =>
      (match PartyOf(w, r)
       case Active(s) => if Finalizable(s).Ok? then Some(DeleteInbound(WithParty(w, r, Finalized(s)), r)) else None
       case _ => None)
    case Cancel(r) =>
      (match PartyOf(w, r)
       case Active(s) => Some(DeleteInbound(DeleteInbound(WithParty(w, r, Cancelled(s)), Offerer), Responder))
       case _ => None)
  }

  predicate Initial(w: World) {
    && w.offerer.Active? && w.offerer.state == PrepareOfferer(w.offerer.state.participant)
    && w.responder.Absent? && w.toOfferer == [] && w.toResponder == [] && w.accepted == {}
    && w.offererLaneOpen && w.responderLaneOpen && w.offererAnswer.None? && w.responderAnswer.None?
  }

  /** The worlds of a run: one before each action and one at its end. */
  ghost predicate Trace(worlds: seq<World>, actions: seq<Action>) {
    && |worlds| == |actions| + 1 && Initial(worlds[0])
    && forall n {:trigger actions[n]} :: 0 <= n < |actions| ==> Step(worlds[n], actions[n]) == Some(worlds[n + 1])
  }

  // ---- Invariant ----

  /** The content of frame `sequence` a side has sealed, read off its state. */
  function SealedContent(s: State, sequence: nat): Option<Content>
    requires Resumable(s)
  {
    if s.role == Responder then
      var t := s.session.value.transcript;
      if sequence == 1 then Some(Open(t))
      else if sequence == 2 then
        Some(Sealed(SessionFrame(t, Responder, 1, ContactAcceptance, IntroductionValue(s.localIntroduction.value))))
      else if sequence == 3 && s.phase != AwaitingIntroduction then
        Some(Sealed(SessionFrame(t, Responder, 2, ConfirmationKind, ConfirmationValue(s.confirmation.value))))
      else None
    else if sequence == 1 && (s.phase == AwaitingConfirmation || s.phase == Ready) then
      Some(Sealed(SessionFrame(s.session.value.transcript, Offerer, 1, ContactOffer,
                               IntroductionValue(s.localIntroduction.value))))
    else if sequence == 2 && s.phase == Ready then
      Some(Sealed(SessionFrame(s.session.value.transcript, Offerer, 2, ConfirmationKind,
                               ConfirmationValue(s.confirmation.value))))
    else None
  }

  predicate SentBy(s: State, f: Transport)
    requires Resumable(s)
  {
    f.sender == s.role && SealedContent(s, f.sequence) == Some(f.content)
  }

  /** What a persisted side and the relays' record of it agree on. */
  ghost predicate SideFits(p: Party, r: Role, accepted: set<Transport>) {
    if p.Absent? then
      r == Responder && forall f :: f in accepted ==> f.sender != r
    else
      && p.state.role == r && Resumable(p.state)
      && (forall f :: f in p.state.outbox ==> SentBy(p.state, f))
      && (forall f :: f in accepted && f.sender == r ==> SentBy(p.state, f))
      && (forall q :: 1 <= q < p.state.nextOutbound ==> Available(p.state.outbox, accepted, r, q))
      && (p.Finalized? ==> p.state.phase == Ready && p.state.outbox == [])
  }

  /** Frame `q` of a side waits in its outbox or was taken by a relay. */
  ghost predicate Available(outbox: seq<Transport>, accepted: set<Transport>, r: Role, q: nat) {
    || (exists f :: f in outbox && f.sequence == q)
    || (exists f :: f in accepted && f.sender == r && f.sequence == q)
  }

  /** A side that ended, or that has nothing left to do but finalize. */
  predicate Ending(p: Party) {
    p.Finalized? || p.Cancelled? || (p.Active? && p.state.phase == Ready && p.state.outbox == [])
  }

  ghost predicate LanesFit(w: World) {
    && (forall f :: f in w.toOfferer ==> f in w.accepted && f.sender == Responder)
    && (forall f :: f in w.toResponder ==> f in w.accepted && f.sender == Offerer)
    && (w.offererLaneOpen ==> forall f :: f in w.accepted && f.sender == Responder ==> f in w.toOfferer)
    && (w.responderLaneOpen ==> forall f :: f in w.accepted && f.sender == Offerer ==> f in w.toResponder)
    && (!w.offererLaneOpen ==> Ending(w.offerer) || w.responder.Cancelled?)
    && (!w.responderLaneOpen ==> Ending(w.responder) || w.offerer.Cancelled?)
  }

  /** How far the two sides can be apart, and what they share by then. */
  ghost predicate Correspond(o: State, p: Party) {
    match o.phase
    case AwaitingOpen => !o.redeemed && (p.Absent? || p.state.phase == AwaitingIntroduction)
    case AwaitingAcceptance => !p.Absent? && p.state.phase == AwaitingIntroduction && SameSession(o, p.state)
    case AwaitingConfirmation =>
      && !p.Absent? && SameSession(o, p.state) && o.peerIntroduction == p.state.localIntroduction
      && (p.state.phase == AwaitingIntroduction || (p.state.phase == AwaitingConfirmation && Agreed(o, p.state)))
    case Ready =>
      && !p.Absent? && SameSession(o, p.state) && (p.state.phase == AwaitingConfirmation || p.state.phase == Ready)
      && Agreed(o, p.state)
    case AwaitingIntroduction => false
  }

  predicate SameSession(o: State, r: State) {
    o.session.Some? && r.session.Some? && o.session.value.transcript == r.session.value.transcript
    && o.relationshipID == r.relationshipID
  }

  /** Same relationship and confirmation, and introductions crosswise equal. */
  predicate Agreed(o: State, r: State) {
    && o.relationshipID == r.relationshipID && o.confirmation.Some? && o.confirmation == r.confirmation
    && o.localIntroduction == r.peerIntroduction && o.peerIntroduction == r.localIntroduction
  }

  ghost predicate Good(w: World) {
    && !w.offerer.Absent?
    && SideFits(w.offerer, Offerer, w.accepted) && SideFits(w.responder, Responder, w.accepted)
    && LanesFit(w) && AnswersFit(w)
    && Correspond(w.offerer.state, w.responder)
  }

  /** Only what a relay took is answered. */
  predicate AnswersFit(w: World) {
    && (w.offererAnswer.Some? ==> w.offererAnswer.value in w.accepted)
    && (w.responderAnswer.Some? ==> w.responderAnswer.value in w.accepted)
  }

  ghost predicate Deletes(a: Action, r: Role) {
    a == DeleteLane(r) || a == Finalize(r) || a.Cancel?
  }

  /**
   * A lane stays open exactly until its reader is done with it or someone
   * cancels, and then nothing is left in it to be delivered, nor ever comes in.
   */
  lemma {:induction false} LanesCloseExactly(worlds: seq<World>, actions: seq<Action>, n: nat, r: Role)
    requires Trace(worlds, actions) && n < |worlds|
    ensures InboundOpen(worlds[n], r) <==> forall k {:trigger actions[k]} :: 0 <= k < n ==> !Deletes(actions[k], r)
    ensures !InboundOpen(worlds[n], r) ==> Inbound(worlds[n], r) == []
  {
    hide Trace, Process, Acknowledge, Finalizable, PrepareResponder;
    TraceParts(worlds, actions, n);
    if n > 0 {
      LanesCloseExactly(worlds, actions, n - 1, r);
      assert Step(worlds[n - 1], actions[n - 1]) == Some(worlds[n]);
    }
  }

  lemma TraceParts(worlds: seq<World>, actions: seq<Action>, n: nat)
    requires Trace(worlds, actions) && n < |worlds|
    ensures |worlds| == |actions| + 1
    ensures n == 0 ==> Initial(worlds[0])
    ensures n > 0 ==> Step(worlds[n - 1], actions[n - 1]) == Some(worlds[n])
  {
  }

  // ---- Every step keeps it ----

  lemma ProcessKeepsSent(s: State, f: Transport, draw: Draw, g: Transport)
    requires Resumable(s) && Process(s, f, draw).Ok? && SentBy(s, g)
    ensures Resumable(Process(s, f, draw).value) && SentBy(Process(s, f, draw).value, g)
  {
    hide OutboxFits;
    TransitionsStayResumable(s, f, draw);
  }

  /** A frame's step adds at most one frame, and that is the one its new phase has sealed. */
  lemma ProcessSeals(s: State, f: Transport, draw: Draw)
    requires Resumable(s) && Process(s, f, draw).Ok?
    ensures var next := Process(s, f, draw).value;
            && Resumable(next) && next.role == s.role
            && ((next.nextOutbound == s.nextOutbound && next.outbox == s.outbox)
                || (next.nextOutbound == s.nextOutbound + 1 && |next.outbox| == |s.outbox| + 1
                    && next.outbox[..|s.outbox|] == s.outbox && next.outbox[|s.outbox|].sequence == s.nextOutbound
                    && SentBy(next, next.outbox[|s.outbox|])))
  {
    hide OutboxFits;
    TransitionsStayResumable(s, f, draw);
  }

  lemma DeliveredSideFits(s: State, f: Transport, draw: Draw, r: Role, accepted: set<Transport>)
    requires SideFits(Active(s), r, accepted) && Process(s, f, draw).Ok?
    ensures SideFits(Active(Process(s, f, draw).value), r, accepted)
  {
    hide Resumable, Process, SentBy;
    assert Resumable(s);
    ProcessSeals(s, f, draw);
    var next := Process(s, f, draw).value;
    forall g | SentBy(s, g) ensures SentBy(next, g) {
      ProcessKeepsSent(s, f, draw, g);
    }
    forall g | g in next.outbox ensures SentBy(next, g) {
      OutboxMember(s.outbox, next.outbox, g);
    }
    forall q | 1 <= q < next.nextOutbound ensures Available(next.outbox, accepted, r, q) {
      AvailableStays(s.outbox, next.outbox, accepted, accepted, r, q);
    }
  }

  lemma OutboxMember(a: seq<Transport>, b: seq<Transport>, g: Transport)
    requires g in b && (b == a || (|b| == |a| + 1 && b[..|a|] == a))
    ensures g in a || (|b| == |a| + 1 && g == b[|a|])
  {
    var k :| 0 <= k < |b| && b[k] == g;
    if k < |a| {
      assert b[..|a|][k] == g;
    }
  }

  lemma AvailableStays(a: seq<Transport>, b: seq<Transport>, before: set<Transport>, after: set<Transport>,
                       r: Role, q: nat)
    requires b == a || (|b| == |a| + 1 && b[..|a|] == a)
    requires before <= after
    requires Available(a, before, r, q) || (|b| == |a| + 1 && b[|a|].sequence == q)
    ensures Available(b, after, r, q)
  {
    if f :| f in a && f.sequence == q {
      var k :| 0 <= k < |a| && a[k] == f;
      assert b[..|a|][k] == b[k];
      assert f in b;
    }
  }

  lemma AcknowledgedSideFits(s: State, frameIDs: set<nat>, r: Role, accepted: set<Transport>)
    requires SideFits(Active(s), r, accepted) && Acknowledge(s, frameIDs).Ok?
    requires forall i :: 0 <= i < |s.outbox| && s.outbox[i].frameID in frameIDs ==> s.outbox[i] in accepted
    ensures SideFits(Active(Acknowledge(s, frameIDs).value), r, accepted)
    ensures Acknowledge(s, frameIDs).value == s.(outbox := Unacknowledged(s.outbox, frameIDs))
  {
    hide OutboxFits;
    var next := Acknowledge(s, frameIDs).value;
    forall f | f in next.outbox ensures SentBy(next, f) {
      assert SentBy(s, f);
    }
    forall f | f in accepted && f.sender == r ensures SentBy(next, f) {
      assert SentBy(s, f);
    }
    forall q | 1 <= q < next.nextOutbound ensures Available(next.outbox, accepted, r, q) {
      assert Available(s.outbox, accepted, r, q);
      if f :| f in s.outbox && f.sequence == q {
        assert SentBy(s, f);
        if f.frameID in frameIDs {
          var i :| 0 <= i < |s.outbox| && s.outbox[i] == f;
          assert f in accepted;
        } else {
          assert f in next.outbox;
        }
      }
    }
  }

  lemma PublishedSideFits(p: Party, r: Role, accepted: set<Transport>, f: Transport)
    requires SideFits(p, r, accepted)
    requires f.sender == r ==> !p.Absent? && f in p.state.outbox
    ensures SideFits(p, r, accepted + {f})
  {
    hide Resumable, SentBy;
    if !p.Absent? {
      forall q | 1 <= q < p.state.nextOutbound ensures Available(p.state.outbox, accepted + {f}, r, q) {
        assert Available(p.state.outbox, accepted, r, q);
      }
    }
  }

  /** What the next frame of the lane can be, by the phase that expects it. */
  lemma OffererAdvances(o: State, p: Party, f: Transport, draw: Draw)
    requires Resumable(o) && o.role == Offerer && Correspond(o, p) && Process(o, f, draw).Ok?
    requires !p.Absent? && Resumable(p.state) && p.state.role == Responder && SentBy(p.state, f)
    ensures Correspond(Process(o, f, draw).value, p)
  {
    hide OutboxFits;
    TransitionsStayResumable(o, f, draw);
  }

  lemma ResponderAdvances(o: State, r: State, f: Transport, draw: Draw)
    requires Resumable(o) && o.role == Offerer && Resumable(r) && r.role == Responder && Correspond(o, Active(r))
    requires Process(r, f, draw).Ok? && SentBy(o, f)
    ensures Correspond(o, Active(Process(r, f, draw).value))
  {
    hide OutboxFits;
    TransitionsStayResumable(r, f, draw);
  }

  lemma DeliverGood(w: World, r: Role, index: nat, draw: Draw)
    requires Good(w) && Step(w, Deliver(r, index, draw)).Some?
    ensures Good(Step(w, Deliver(r, index, draw)).value)
  {
    hide Process, Resumable, SentBy, Correspond;
    var s := PartyOf(w, r).state;
    var f := Inbound(w, r)[index];
    assert f in Inbound(w, r) && f in w.accepted && f.sender == Opposite(r);
    DeliveredSideFits(s, f, draw, r, w.accepted);
    if s.phase == Ready {
      NothingWhenReady(s, f, draw);
    }
    assert Resumable(s);
    if r == Offerer {
      OffererAdvances(s, w.responder, f, draw);
    } else {
      SamePhaseStatement(w.offerer.state, w.responder);
      ResponderAdvances(w.offerer.state, s, f, draw);
    }
  }

  lemma NothingWhenReady(s: State, f: Transport, draw: Draw)
    requires s.phase == Ready
    ensures Process(s, f, draw).Err?
  {
  }

  lemma SamePhaseStatement(o: State, p: Party)
    ensures !p.Absent? ==> (Correspond(o, p) <==> Correspond(o, Active(p.state)))
  {
  }

  lemma PublishGood(w: World, r: Role, index: nat)
    requires Good(w) && Step(w, Publish(r, index)).Some?
    ensures Good(Step(w, Publish(r, index)).value)
  {
    hide Correspond, SideFits, SentBy, Resumable;
    var s := PartyOf(w, r).state;
    var f := s.outbox[index];
    OwnFrames(PartyOf(w, r), r, w.accepted, f);
    PublishedSideFits(w.offerer, Offerer, w.accepted, f);
    PublishedSideFits(w.responder, Responder, w.accepted, f);
  }

  lemma OwnFrames(p: Party, r: Role, accepted: set<Transport>, f: Transport)
    requires SideFits(p, r, accepted) && p.Active? && f in p.state.outbox
    ensures f.sender == r
  {
    assert SentBy(p.state, f);
  }

  lemma AcknowledgeGood(w: World, r: Role)
    requires Good(w) && Step(w, AcknowledgePublished(r)).Some?
    ensures Good(Step(w, AcknowledgePublished(r)).value)
  {
    hide SideFits, SentBy, Acknowledge, Correspond, LanesFit;
    var frameIDs := {AnswerOf(w, r).value.frameID};
    AcknowledgedKeepsStatement(w.offerer, w.responder, r, frameIDs, w);
    AcknowledgedSideFits(PartyOf(w, r).state, frameIDs, r, w.accepted);
    var next := PartyOf(w, r).state.(outbox := Unacknowledged(PartyOf(w, r).state.outbox, frameIDs));
    AnswersAreNoMatter(WithParty(w, r, Active(next)), r);
  }

  lemma CrashGood(w: World, r: Role)
    requires Good(w)
    ensures Good(WithAnswer(w, r, None))
  {
    hide SideFits, SentBy, Correspond, LanesFit;
    AnswersAreNoMatter(w, r);
  }

  lemma AnswersAreNoMatter(w: World, r: Role)
    ensures LanesFit(WithAnswer(w, r, None)) <==> LanesFit(w)
  {
  }

  lemma AcknowledgedKeepsStatement(o: Party, p: Party, r: Role, frameIDs: set<nat>, w: World)
    requires !o.Absent? && Correspond(o.state, p) && LanesFit(w) && w.offerer == o && w.responder == p
             && PartyOf(w, r).Active?
    ensures var next := PartyOf(w, r).state.(outbox := Unacknowledged(PartyOf(w, r).state.outbox, frameIDs));
            var v := WithParty(w, r, Active(next));
            Correspond(v.offerer.state, v.responder) && LanesFit(v)
  {
    hide Unacknowledged;
  }

  lemma EndLanes(w: World, a: Action)
    requires LanesFit(w) && (a.DeleteLane? || a.Finalize? || a.Cancel?) && Step(w, a).Some?
    ensures LanesFit(Step(w, a).value)
  {
    hide Resumable;
  }

  lemma EndSides(w: World, a: Action)
    requires SideFits(w.offerer, Offerer, w.accepted) && SideFits(w.responder, Responder, w.accepted)
    requires (a.DeleteLane? || a.Finalize? || a.Cancel?) && Step(w, a).Some?
    ensures var v := Step(w, a).value;
            SideFits(v.offerer, Offerer, v.accepted) && SideFits(v.responder, Responder, v.accepted)
  {
    hide Resumable, SentBy, Available;
  }

  lemma EndGood(w: World, a: Action)
    requires Good(w) && (a.DeleteLane? || a.Finalize? || a.Cancel?) && Step(w, a).Some?
    ensures Good(Step(w, a).value)
  {
    hide Resumable, SideFits, LanesFit, Correspond, Finalizable;
    EndLanes(w, a);
    EndSides(w, a);
    SamePhaseStatement(w.offerer.state, w.responder);
    var v := Step(w, a).value;
    if !v.responder.Absent? {
      SamePhaseStatement(v.offerer.state, v.responder);
    }
  }

  lemma RespondGood(w: World, a: Action)
    requires Good(w) && a.Respond? && Step(w, a).Some?
    ensures Good(Step(w, a).value)
  {
    hide Resumable;
    var s := PrepareResponder(a.participant, a.transcript, a.salt, a.openFrameID, a.acceptanceFrameID);
    ResponderStartsResumable(a.participant, a.transcript, a.salt, a.openFrameID, a.acceptanceFrameID);
    assert s.outbox[0] in s.outbox && s.outbox[1] in s.outbox;
    forall q | 1 <= q < s.nextOutbound ensures Available(s.outbox, w.accepted, Responder, q) {
      assert s.outbox[q - 1].sequence == q && s.outbox[q - 1] in s.outbox;
    }
    assert SideFits(Active(s), Responder, w.accepted);
  }

  lemma StepGood(w: World, a: Action)
    requires Good(w) && Step(w, a).Some?
    ensures Good(Step(w, a).value)
  {
    hide Good;
    match a
    case Respond(_, _, _, _, _) => RespondGood(w, a);
    case Publish(r, index) => PublishGood(w, r, index);
    case AcknowledgePublished(r) => AcknowledgeGood(w, r);
    case Crash(r) => CrashGood(w, r);
    case Deliver(r, index, draw) => DeliverGood(w, r, index, draw);
    case DeleteLane(_) => EndGood(w, a);
    case Finalize(_) => EndGood(w, a);
    case Cancel(_) => EndGood(w, a);
  }

  lemma {:induction false} TraceGood(worlds: seq<World>, actions: seq<Action>, n: nat)
    requires Trace(worlds, actions) && n < |worlds|
    ensures Good(worlds[n])
  {
    hide Good, Step, Initial;
    if n == 0 {
      InitialGood(worlds[0]);
    } else {
      TraceGood(worlds, actions, n - 1);
      assert Step(worlds[n - 1], actions[n - 1]) == Some(worlds[n]);
      StepGood(worlds[n - 1], actions[n - 1]);
    }
  }

  lemma InitialGood(w: World)
    requires Initial(w)
    ensures Good(w)
  {
    hide Resumable;
    OffererStartsResumable(w.offerer.state.participant);
  }

  // ---- Agreement ----

  /**
   * Agreement, in every run: a ready offerer faces a responder that confirmed
   * or is ready, a ready responder faces a ready offerer, and in both cases the
   * two hold the same relationship and confirmation and each other's
   * introductions. A side that has ended is taken as it was when it ended.
   */
  lemma {:induction false} ReadySidesAgree(worlds: seq<World>, actions: seq<Action>, n: nat)
    requires Trace(worlds, actions) && n < |worlds|
    ensures var w := worlds[n];
            && !w.offerer.Absent?
            && (w.offerer.state.phase == Ready ==>
                  && !w.responder.Absent?
                  && (w.responder.state.phase == AwaitingConfirmation || w.responder.state.phase == Ready)
                  && Agreed(w.offerer.state, w.responder.state))
            && (!w.responder.Absent? && w.responder.state.phase == Ready ==>
                  w.offerer.state.phase == Ready && Agreed(w.offerer.state, w.responder.state))
  {
    hide Trace, SideFits, LanesFit;
    TraceGood(worlds, actions, n);
  }

  /** Whatever either side persisted can be resumed, at every crash point of every run. */
  lemma {:induction false} PersistedSidesResume(worlds: seq<World>, actions: seq<Action>, n: nat)
    requires Trace(worlds, actions) && n < |worlds|
    ensures var w := worlds[n];
            && !w.offerer.Absent? && Resumable(w.offerer.state)
            && (!w.responder.Absent? ==> Resumable(w.responder.state))
  {
    hide Trace, Resumable, SentBy, LanesFit, Correspond;
    TraceGood(worlds, actions, n);
  }

  // ---- Nobody is stranded ----

  function StepsLeft(p: Party, r: Role): nat {
    var last := if r == Offerer then 4 else 3;
    if p.Absent? then last else if p.state.nextInbound < last then last - p.state.nextInbound else 0
  }

  predicate IsReady(p: Party) {
    !p.Absent? && p.state.phase == Ready
  }

  function NotAccepted(outbox: seq<Transport>, accepted: set<Transport>): nat {
    if outbox == [] then 0
    else NotAccepted(outbox[1..], accepted) + if outbox[0] in accepted then 0 else 1
  }

  lemma {:induction false} PublishingCounts(outbox: seq<Transport>, accepted: set<Transport>, f: Transport)
    requires f in outbox && f !in accepted
    ensures NotAccepted(outbox, accepted + {f}) < NotAccepted(outbox, accepted)
  {
    if outbox[0] != f {
      PublishingCounts(outbox[1..], accepted, f);
    } else {
      AcceptingMore(outbox[1..], accepted, f);
    }
  }

  lemma {:induction false} AcceptingMore(outbox: seq<Transport>, accepted: set<Transport>, f: Transport)
    ensures NotAccepted(outbox, accepted + {f}) <= NotAccepted(outbox, accepted)
  {
    if outbox != [] {
      AcceptingMore(outbox[1..], accepted, f);
    }
  }

  predicate BothActiveOrDone(w: World) {
    !w.responder.Absent? && !w.offerer.Cancelled? && !w.responder.Cancelled?
  }

  /** The side that waits for the other's next frame while the other has sealed it. */
  function Waiting(w: World): Role
    requires !w.offerer.Absent? && !w.responder.Absent?
  {
    if w.offerer.state.phase == Ready
      || (w.offerer.state.phase == AwaitingConfirmation && w.responder.state.phase == AwaitingIntroduction)
    then Responder else Offerer
  }

  /** The frame the waiting side needs is in a lane it can still read, or in its peer's outbox. */
  lemma NeededFrame(w: World) returns (f: Transport)
    requires Good(w) && BothActiveOrDone(w) && !(IsReady(w.offerer) && IsReady(w.responder))
    ensures var r := Waiting(w);
            && PartyOf(w, r).Active? && InboundOpen(w, r)
            && f.sequence == PartyOf(w, r).state.nextInbound
            && Resumable(PartyOf(w, Opposite(r)).state) && SentBy(PartyOf(w, Opposite(r)).state, f)
            && (f in Inbound(w, r)
                || (f in PartyOf(w, Opposite(r)).state.outbox && PartyOf(w, Opposite(r)).Active? && f !in w.accepted))
  {
    hide SentBy, OutboxFits;
    var r := Waiting(w);
    var s, t := PartyOf(w, r).state, PartyOf(w, Opposite(r)).state;
    PhasesWait(w);
    assert Available(t.outbox, w.accepted, Opposite(r), s.nextInbound);
    if g :| g in w.accepted && g.sender == Opposite(r) && g.sequence == s.nextInbound {
      f := g;
      assert f in Inbound(w, r);
    } else {
      f :| f in t.outbox && f.sequence == s.nextInbound;
      assert SentBy(t, f);
      SentBySender(t, f);
    }
  }

  lemma SentBySender(s: State, f: Transport)
    requires Resumable(s) && SentBy(s, f)
    ensures f.sender == s.role
  {
  }

  lemma PhasesWait(w: World)
    requires Good(w) && BothActiveOrDone(w) && !(IsReady(w.offerer) && IsReady(w.responder))
    ensures var r := Waiting(w);
            var s, t := PartyOf(w, r).state, PartyOf(w, Opposite(r)).state;
            && PartyOf(w, r).Active? && s.phase != Ready && 1 <= s.nextInbound < t.nextOutbound && InboundOpen(w, r)
  {
    hide SentBy, OutboxFits;
  }

  /** Whatever the waiting side gets when it reads that frame, with nothing expired, takes it one step on. */
  lemma NeededFrameIsTaken(w: World, f: Transport, draw: Draw)
    requires Good(w) && BothActiveOrDone(w) && !(IsReady(w.offerer) && IsReady(w.responder)) && draw.live
    requires var r := Waiting(w);
             && PartyOf(w, r).Active? && f.sequence == PartyOf(w, r).state.nextInbound
             && Resumable(PartyOf(w, Opposite(r)).state) && SentBy(PartyOf(w, Opposite(r)).state, f)
    ensures Process(PartyOf(w, Waiting(w)).state, f, draw).Ok?
  {
    hide OutboxFits, LanesFit;
    var s := PartyOf(w, Waiting(w)).state;
    assert Resumable(s);
    TransitionsStayResumable(s, f, draw);
  }

  /** Frames still to be read on both sides, and frames still to be handed to a relay. */
  function Measure(w: World): nat {
    2 * (StepsLeft(w.offerer, Offerer) + StepsLeft(w.responder, Responder))
    + (if w.offerer.Absent? then 0 else NotAccepted(w.offerer.state.outbox, w.accepted))
    + (if w.responder.Absent? then 0 else NotAccepted(w.responder.state.outbox, w.accepted))
  }

  lemma {:induction false} NotAcceptedAppend(a: seq<Transport>, b: seq<Transport>, accepted: set<Transport>)
    requires b == a || (|b| == |a| + 1 && b[..|a|] == a)
    ensures NotAccepted(b, accepted) <= NotAccepted(a, accepted) + 1
  {
    if b != a {
      if a == [] {
        assert b[1..] == [];
      } else {
        assert a[0] == b[..|a|][0] == b[0];
        assert b[1..][..|a| - 1] == a[1..];
        NotAcceptedAppend(a[1..], b[1..], accepted);
      }
    }
  }

  lemma DeliveryDecreases(w: World, index: nat, draw: Draw)
    requires Good(w) && !w.responder.Absent? && Step(w, Deliver(Waiting(w), index, draw)).Some?
    ensures Measure(Step(w, Deliver(Waiting(w), index, draw)).value) < Measure(w)
  {
    hide SentBy, OutboxFits, Process, LanesFit, Correspond, ContentsFit, BindingsFit;
    var r := Waiting(w);
    var s := PartyOf(w, r).state;
    var f := Inbound(w, r)[index];
    TransitionsStayResumable(s, f, draw);
    ProcessSeals(s, f, draw);
    var next := Process(s, f, draw).value;
    NotAcceptedAppend(s.outbox, next.outbox, w.accepted);
    CountersBound(s);
    CountersBound(next);
  }

  lemma CountersBound(s: State)
    requires Resumable(s)
    ensures 1 <= s.nextInbound <= if s.role == Offerer then 4 else 3
  {
  }

  /**
   * Progress: while nobody cancelled, nothing expired and not both sides are
   * ready, one delivery or one publication is possible and brings the measure
   * down. It stays possible after one side finalized and deleted its own lane,
   * so finalizing never strands the peer.
   */
  lemma {:induction false} PairingCanAlwaysProgress(worlds: seq<World>, actions: seq<Action>, n: nat, draw: Draw)
    returns (a: Action, next: World)
    requires Trace(worlds, actions) && n < |worlds| && draw.live
    requires BothActiveOrDone(worlds[n]) && !(IsReady(worlds[n].offerer) && IsReady(worlds[n].responder))
    ensures Drives(a) && Step(worlds[n], a) == Some(next) && Measure(next) < Measure(worlds[n])
  {
    hide Trace, Good, Measure, SentBy, Resumable, Process, Waiting;
    TraceGood(worlds, actions, n);
    var w := worlds[n];
    GoodParties(w);
    var r := Waiting(w);
    var f := NeededFrame(w);
    if f in Inbound(w, r) {
      NeededFrameIsTaken(w, f, draw);
      var index: nat :| index < |Inbound(w, r)| && Inbound(w, r)[index] == f;
      a := Deliver(r, index, draw);
      DeliveryDecreases(w, index, draw);
    } else {
      var t := PartyOf(w, Opposite(r)).state;
      var index: nat :| index < |t.outbox| && t.outbox[index] == f;
      a := Publish(Opposite(r), index);
      PublicationDecreases(w, Opposite(r), index);
    }
    next := Step(w, a).value;
  }

  predicate Drives(a: Action) {
    a.Deliver? || a.Publish?
  }

  lemma DrivingEndsNobody(w: World, a: Action)
    requires BothActiveOrDone(w) && Drives(a) && Step(w, a).Some?
    ensures BothActiveOrDone(Step(w, a).value)
  {
    hide Process;
  }

  lemma TraceGoesOn(worlds: seq<World>, actions: seq<Action>, a: Action, next: World)
    requires Trace(worlds, actions) && Step(worlds[|actions|], a) == Some(next)
    ensures Trace(worlds + [next], actions + [a])
  {
    hide Step;
    forall n | 0 <= n < |actions + [a]|
      ensures Step((worlds + [next])[n], (actions + [a])[n]) == Some((worlds + [next])[n + 1])
    {
      if n < |actions| {
        assert (actions + [a])[n] == actions[n];
      }
    }
  }

  /**
   * From every point of every run in which nobody cancelled, deliveries and
   * publications alone can make both sides ready, whether or not one of them
   * finalized meanwhile.
   */
  lemma {:induction false} PairingCanBeCompleted(worlds: seq<World>, actions: seq<Action>, draw: Draw)
    returns (allWorlds: seq<World>, allActions: seq<Action>)
    requires Trace(worlds, actions) && draw.live && BothActiveOrDone(worlds[|actions|])
    ensures Trace(allWorlds, allActions) && worlds <= allWorlds && actions <= allActions
    ensures forall i :: |actions| <= i < |allActions| ==> Drives(allActions[i])
    ensures var w := allWorlds[|allActions|]; BothActiveOrDone(w) && IsReady(w.offerer) && IsReady(w.responder)
    decreases Measure(worlds[|actions|])
  {
    hide Step, Measure, Initial;
    var w := worlds[|actions|];
    if IsReady(w.offerer) && IsReady(w.responder) {
      allWorlds, allActions := worlds, actions;
    } else {
      var a, next := PairingCanAlwaysProgress(worlds, actions, |actions|, draw);
      DrivingEndsNobody(w, a);
      TraceGoesOn(worlds, actions, a, next);
      allWorlds, allActions := PairingCanBeCompleted(worlds + [next], actions + [a], draw);
      assert worlds <= worlds + [next] && actions <= actions + [a];
    }
  }

  lemma GoodParties(w: World)
    requires Good(w)
    ensures !w.offerer.Absent?
  {
  }

  lemma PublicationDecreases(w: World, r: Role, index: nat)
    requires Good(w) && Step(w, Publish(r, index)).Some? && PartyOf(w, r).state.outbox[index] !in w.accepted
    ensures Measure(Step(w, Publish(r, index)).value) < Measure(w)
  {
    hide Good;
    var f := PartyOf(w, r).state.outbox[index];
    PublishingCounts(PartyOf(w, r).state.outbox, w.accepted, f);
    if !PartyOf(w, Opposite(r)).Absent? {
      AcceptingMore(PartyOf(w, Opposite(r)).state.outbox, w.accepted, f);
    }
  }

  /**
   * After one side finalized, every frame its peer has not read yet is still in
   * the peer's own lane, unless the peer ended too.
   */
  lemma {:induction false} FinalizedSideLeavesEverything(worlds: seq<World>, actions: seq<Action>,
                                                         n: nat, r: Role, q: nat)
    requires Trace(worlds, actions) && n < |worlds|
    requires var w := worlds[n];
             && PartyOf(w, r).Finalized? && PartyOf(w, Opposite(r)).Active?
             && PartyOf(w, Opposite(r)).state.nextInbound <= q < PartyOf(w, r).state.nextOutbound
    ensures exists f :: f in Inbound(worlds[n], Opposite(r)) && f.sequence == q && f.sender == r
  {
    hide Trace, SentBy, Resumable, Correspond;
    TraceGood(worlds, actions, n);
    var w := worlds[n];
    var s := PartyOf(w, r).state;
    NextInboundPositive(w, Opposite(r));
    if PartyOf(w, Opposite(r)).state.phase == Ready {
      ReadyHasReadAll(w, r);
    }
    assert Available(s.outbox, w.accepted, r, q);
    var f :| f in w.accepted && f.sender == r && f.sequence == q;
    assert f in Inbound(w, Opposite(r));
  }

  lemma ReadyHasReadAll(w: World, r: Role)
    requires Good(w) && PartyOf(w, r).Finalized? && PartyOf(w, Opposite(r)).Active?
             && PartyOf(w, Opposite(r)).state.phase == Ready
    ensures PartyOf(w, r).state.nextOutbound == PartyOf(w, Opposite(r)).state.nextInbound
  {
    hide SentBy, OutboxFits, ContentsFit, BindingsFit, Correspond, LanesFit;
  }

  lemma NextInboundPositive(w: World, r: Role)
    requires Good(w) && !PartyOf(w, r).Absent?
    ensures PartyOf(w, r).state.nextInbound >= 1
  {
    hide SentBy, OutboxFits, ContentsFit, BindingsFit, Correspond, LanesFit;
  }

  /** Where more actions lead, if they are all possible. */
  function Onward(w: World, more: seq<Action>): Option<World>
    decreases |more|
  {
    if more == [] then Some(w)
    else match Step(w, more[0]) case None => None case Some(next) => Onward(next, more[1..])
  }

  predicate Finalizes(w: World, r: Role, more: seq<Action>) {
    Onward(w, more).Some? && PartyOf(Onward(w, more).value, r).Finalized?
  }

  /** Some run goes on from here to where the side has finalized. */
  ghost predicate CanEverFinalize(w: World, r: Role) {
    exists more :: Finalizes(w, r, more)
  }

  /** Ready, with a frame it can never send again and whose append nobody will answer any more. */
  predicate Stranded(w: World, r: Role, f: Transport) {
    match PartyOf(w, r)
    case Active(s) =>
      s.phase == Ready && !InboundOpen(w, Opposite(r)) && f in s.outbox && AnswerOf(w, r) != Some(f)
    case Cancelled(_) => true
    case _ => false
  }

  lemma StrandedStays(w: World, r: Role, f: Transport, a: Action)
    requires Stranded(w, r, f) && Step(w, a).Some?
    ensures Stranded(Step(w, a).value, r, f)
  {
    hide Resumable, ProcessOfferer, ProcessResponder;
    if a == AcknowledgePublished(r) && PartyOf(w, r).Active? {
      var s, answer := PartyOf(w, r).state, AnswerOf(w, r).value;
      assert f.frameID == answer.frameID ==> f == answer;
      assert f in Unacknowledged(s.outbox, {answer.frameID});
    }
  }

  lemma {:induction false} StrandedForEver(w: World, r: Role, f: Transport, more: seq<Action>)
    requires Stranded(w, r, f)
    ensures !Finalizes(w, r, more)
    decreases |more|
  {
    hide Step;
    if more == [] {
      NotFinalized(w, r, f);
    } else if Step(w, more[0]).Some? {
      StrandedStays(w, r, f, more[0]);
      StrandedForEver(Step(w, more[0]).value, r, f, more[1..]);
    }
  }

  lemma NotFinalized(w: World, r: Role, f: Transport)
    requires Stranded(w, r, f)
    ensures !PartyOf(w, r).Finalized?
  {
  }

  /** A side all of whose frames were just answered records that and finalizes. */
  lemma AnsweredFinalizes(w: World, r: Role) returns (more: seq<Action>)
    requires PartyOf(w, r).Active? && Resumable(PartyOf(w, r).state) && PartyOf(w, r).state.phase == Ready
    requires forall f :: f in PartyOf(w, r).state.outbox ==> AnswerOf(w, r) == Some(f)
    ensures Finalizes(w, r, more)
  {
    hide Resumable;
    var s := PartyOf(w, r).state;
    if s.outbox == [] {
      more := [Finalize(r)];
      assert more[1..] == [];
      assert Onward(Step(w, Finalize(r)).value, []).Some?;
    } else {
      more := [AcknowledgePublished(r), Finalize(r)];
      var f := s.outbox[0];
      assert forall i :: 0 <= i < |s.outbox| ==> s.outbox[i] in s.outbox;
      assert FrameIDs(s.outbox) == {f.frameID};
      AcknowledgedStaysResumable(s, {f.frameID});
      var next := Acknowledge(s, {f.frameID}).value;
      HasFrame(next.outbox);
      assert next.outbox == [];
      var v := WithAnswer(WithParty(w, r, Active(next)), r, None);
      assert Step(w, more[0]) == Some(v);
      assert more[1..] == [Finalize(r)] && more[1..][1..] == [];
      assert Step(v, Finalize(r)).Some?;
      assert Onward(v, [Finalize(r)]) == Onward(Step(v, Finalize(r)).value, []);
    }
  }

  /** No two frames of the outbox share their random identifier. */
  ghost predicate DistinctFrames(outbox: seq<Transport>) {
    forall f, g :: f in outbox && g in outbox && f.frameID == g.frameID ==> f == g
  }

  lemma OnwardFirst(w: World, a: Action, more: seq<Action>)
    requires Step(w, a).Some?
    ensures Onward(w, [a] + more) == Onward(Step(w, a).value, more)
  {
    hide Step;
    assert ([a] + more)[1..] == more;
  }

  /** As long as its frames have a lane to go to, a ready side can publish them all, record that, and finalize. */
  lemma {:induction false} OpenLaneFinalizes(w: World, r: Role) returns (more: seq<Action>)
    requires PartyOf(w, r).Active? && Resumable(PartyOf(w, r).state) && PartyOf(w, r).state.phase == Ready
    requires InboundOpen(w, Opposite(r)) && DistinctFrames(PartyOf(w, r).state.outbox)
    ensures Finalizes(w, r, more)
    decreases |PartyOf(w, r).state.outbox|
  {
    hide Resumable, Onward;
    var s := PartyOf(w, r).state;
    HasFrame(s.outbox);
    if s.outbox == [] {
      more := AnsweredFinalizes(w, r);
    } else {
      var next := PublishedOne(w, r);
      var v := Step(w, Publish(r, 0)).value;
      var rest := OpenLaneFinalizes(next, r);
      OnwardFirst(v, AcknowledgePublished(r), rest);
      OnwardFirst(w, Publish(r, 0), [AcknowledgePublished(r)] + rest);
      more := [Publish(r, 0)] + ([AcknowledgePublished(r)] + rest);
    }
  }

  /** The first frame of the outbox is taken and recorded as taken. */
  lemma PublishedOne(w: World, r: Role) returns (next: World)
    requires PartyOf(w, r).Active? && Resumable(PartyOf(w, r).state) && PartyOf(w, r).state.outbox != []
    requires InboundOpen(w, Opposite(r)) && DistinctFrames(PartyOf(w, r).state.outbox)
    ensures Step(w, Publish(r, 0)).Some? && Step(Step(w, Publish(r, 0)).value, AcknowledgePublished(r)) == Some(next)
    ensures var s := PartyOf(w, r).state;
            && PartyOf(next, r).Active? && Resumable(PartyOf(next, r).state) && PartyOf(next, r).state.phase == s.phase
            && InboundOpen(next, Opposite(r)) && DistinctFrames(PartyOf(next, r).state.outbox)
            && |PartyOf(next, r).state.outbox| < |s.outbox|
  {
    hide Resumable;
    var s := PartyOf(w, r).state;
    var f := s.outbox[0];
    var v := Step(w, Publish(r, 0)).value;
    assert forall i :: 0 <= i < |s.outbox| ==> s.outbox[i] in s.outbox;
    assert f.frameID in FrameIDs(s.outbox);
    AcknowledgedStaysResumable(s, {f.frameID});
    UnacknowledgedShrinks(s.outbox, f);
    next := WithAnswer(WithParty(v, r, Active(Acknowledge(s, {f.frameID}).value)), r, None);
  }

  lemma UnacknowledgedShrinks(outbox: seq<Transport>, f: Transport)
    requires f in outbox
    ensures |Unacknowledged(outbox, {f.frameID})| < |outbox|
  {
    var front, last := outbox[..|outbox| - 1], outbox[|outbox| - 1];
    if last.frameID != f.frameID {
      assert outbox == front + [last];
      UnacknowledgedShrinks(front, f);
    }
  }

  /**
   * What finalizing does cost: once its peer has deleted the lane its frames go
   * to, a ready side can publish no more, and it can ever finalize, by any
   * actions of anyone, exactly when its outbox is empty, but for a frame whose
   * append its running process has just seen answered.
   */
  lemma {:induction false} LateAcknowledgementBlocksFinalizing(worlds: seq<World>, actions: seq<Action>,
                                                               n: nat, r: Role)
    requires Trace(worlds, actions) && n < |worlds|
    requires var w := worlds[n];
             PartyOf(w, r).Active? && PartyOf(w, r).state.phase == Ready && !InboundOpen(w, Opposite(r))
    ensures var w := worlds[n]; var outbox := PartyOf(w, r).state.outbox;
            && (CanEverFinalize(w, r) <==> forall f :: f in outbox ==> AnswerOf(w, r) == Some(f))
            && (AnswerOf(w, r).None? ==> (CanEverFinalize(w, r) <==> outbox == []))
            && (Step(w, Finalize(r)).Some? <==> outbox == [])
            && forall index :: Step(w, Publish(r, index)).None?
  {
    hide Trace, SentBy, OutboxFits, ContentsFit, BindingsFit, CountersFit, Correspond, LanesFit, Onward;
    TraceGood(worlds, actions, n);
    var w := worlds[n];
    var outbox := PartyOf(w, r).state.outbox;
    if f :| f in outbox && AnswerOf(w, r) != Some(f) {
      forall more ensures !Finalizes(w, r, more) {
        StrandedForEver(w, r, f, more);
      }
    } else {
      var more := AnsweredFinalizes(w, r);
      HasFrame(outbox);
    }
  }

  lemma HasFrame(outbox: seq<Transport>)
    ensures outbox != [] ==> exists f :: f in outbox
  {
    if outbox != [] {
      assert outbox[0] in outbox;
    }
  }
}
