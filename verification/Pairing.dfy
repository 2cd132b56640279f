/**
 * One side of contact pairing (src/contact-pairing-v2.js): its persisted state
 * and every transition as a function of it. Encryption is ideal: a frame is a
 * term that names the session, sender, sequence and value it was sealed with.
 * Digests of introductions are the introductions themselves.
 */
module Pairing {
  import opened Wrappers
  import opened Collections

  datatype Role = Offerer | Responder

  function Opposite(r: Role): Role {
    if r == Offerer then Responder else Offerer
  }

  datatype Phase = AwaitingOpen | AwaitingAcceptance | AwaitingIntroduction | AwaitingConfirmation | Ready

  /** Derived from the rendezvous transcript alone. */
  datatype RelationshipID = RelationshipOf(transcript: nat)

  /** Signed by a participant for one transcript; `salt` stands for its fresh keys, times and signature. */
  datatype Introduction = Introduction(participant: nat, transcript: nat, salt: nat)

  datatype Confirmation = Confirmation(relationshipID: RelationshipID, offerer: Introduction, responder: Introduction)

  datatype Kind = ContactAcceptance | ContactOffer | ConfirmationKind

  datatype Value = IntroductionValue(introduction: Introduction) | ConfirmationValue(confirmation: Confirmation)

  datatype SessionFrame = SessionFrame(transcript: nat, senderRole: Role, sequence: nat, kind: Kind, value: Value)

  datatype Content = Open(transcript: nat) | Sealed(frame: SessionFrame)

  /** A ciphertext frame of one relay lane. */
  datatype Transport = Transport(frameID: nat, sender: Role, sequence: nat, content: Content)

  datatype Session = Session(transcript: nat, localRole: Role, nextOutbound: nat, nextInbound: nat)

  datatype State = State(
    role: Role,
    phase: Phase,
    participant: nat,
    redeemed: bool,
    session: Option<Session>,
    relationshipID: Option<RelationshipID>,
    localIntroduction: Option<Introduction>,
    peerIntroduction: Option<Introduction>,
    confirmation: Option<Confirmation>,
    nextOutbound: nat,
    nextInbound: nat,
    outbox: seq<Transport>)

  datatype PairingError =
    | InvalidState
    | InvalidPhase
    | ReplayedFrame
    | DecryptionFailed
    | AlreadyRedeemed
    | UnexpectedFrame
    | InvalidIntroduction
    | ConfirmationMismatch
    | Expired
    | InvalidAcknowledgement
    | OutboundNotAccepted

  /** What the random source and the clock give one step; `live` says that nothing has expired. */
  datatype Draw = Draw(salt: nat, frameID: nat, live: bool)

  // ---- What resuming accepts ----

  /** Transport counters, then session counters, of each role and phase. */
  predicate CountersFit(s: State) {
    match (s.role, s.phase)
    case (Offerer, AwaitingOpen) => s.nextOutbound == 1 && s.nextInbound == 1
    case (Offerer, AwaitingAcceptance) => s.nextOutbound == 1 && s.nextInbound == 2 && SessionCounters(s.session, 1, 1)
    case (Offerer, AwaitingConfirmation) => s.nextOutbound == 2 && s.nextInbound == 3
      && SessionCounters(s.session, 2, 2)
    case (Offerer, Ready) => s.nextOutbound == 3 && s.nextInbound == 4 && SessionCounters(s.session, 3, 3)
    case (Responder, AwaitingIntroduction) => s.nextOutbound == 3 && s.nextInbound == 1
      && SessionCounters(s.session, 2, 1)
    case (Responder, AwaitingConfirmation) => s.nextOutbound == 4 && s.nextInbound == 2
      && SessionCounters(s.session, 3, 2)
    case (Responder, Ready) => s.nextOutbound == 4 && s.nextInbound == 3 && SessionCounters(s.session, 3, 3)
    case _ => false
  }

  predicate SessionCounters(session: Option<Session>, outbound: nat, inbound: nat) {
    session.Some? ==> session.value.nextOutbound == outbound && session.value.nextInbound == inbound
  }

  /** Which of the session's results each phase holds. */
  predicate ContentsFit(s: State) {
    match s.phase
    case AwaitingOpen =>
      s.session.None? && s.relationshipID.None? && s.localIntroduction.None? && s.peerIntroduction.None?
        && s.confirmation.None?
    case AwaitingAcceptance =>
      s.session.Some? && s.relationshipID.Some? && s.localIntroduction.None? && s.peerIntroduction.None?
        && s.confirmation.None?
    case AwaitingIntroduction =>
      s.session.Some? && s.relationshipID.Some? && s.localIntroduction.Some? && s.peerIntroduction.None?
        && s.confirmation.None?
    case _ =>
      s.session.Some? && s.relationshipID.Some? && s.localIntroduction.Some? && s.peerIntroduction.Some?
        && s.confirmation.Some?
  }

  function MakeConfirmation(relationshipID: RelationshipID, role: Role, local: Introduction,
                            peer: Introduction): Confirmation {
    if role == Offerer then Confirmation(relationshipID, local, peer) else Confirmation(relationshipID, peer, local)
  }

  predicate BindingsFit(s: State) {
    s.session.Some? ==>
      && s.session.value.localRole == s.role
      && s.relationshipID == Some(RelationshipOf(s.session.value.transcript))
      && (s.localIntroduction.Some? ==> s.localIntroduction.value.transcript == s.session.value.transcript)
      && (s.peerIntroduction.Some? ==> s.peerIntroduction.value.transcript == s.session.value.transcript)
      && (s.confirmation.Some? ==>
            && s.localIntroduction.Some? && s.peerIntroduction.Some?
            && s.confirmation.value
               == MakeConfirmation(s.relationshipID.value, s.role, s.localIntroduction.value, s.peerIntroduction.value))
  }

  predicate OutboxFits(s: State) {
    && (forall i :: 0 <= i < |s.outbox| ==>
          var f := s.outbox[i];
          && f.sender == s.role && f.sequence < s.nextOutbound
          && (if f.content.Open? then s.role == Responder else f.content.frame.senderRole == s.role))
    && (forall i, j :: 0 <= i < j < |s.outbox| ==> s.outbox[i].sequence != s.outbox[j].sequence)
  }

  /** A persisted state that resuming takes back. */
  predicate Resumable(s: State) {
    && (s.role == Responder ==> !s.redeemed)
    && CountersFit(s) && ContentsFit(s) && BindingsFit(s) && OutboxFits(s)
  }

  // ---- Starting ----

  function PrepareOfferer(participant: nat): State {
    State(Offerer, AwaitingOpen, participant, false, None, None, None, None, None, 1, 1, [])
  }

  function PrepareResponder(participant: nat, transcript: nat, salt: nat, openFrameID: nat,
                            acceptanceFrameID: nat): State {
    var introduction := Introduction(participant, transcript, salt);
    var open := Transport(openFrameID, Responder, 1, Open(transcript));
    var acceptance :=
      Transport(acceptanceFrameID, Responder, 2,
                Sealed(SessionFrame(transcript, Responder, 1, ContactAcceptance, IntroductionValue(introduction))));
    State(Responder, AwaitingIntroduction, participant, false, Some(Session(transcript, Responder, 2, 1)),
          Some(RelationshipOf(transcript)), Some(introduction), None, None, 3, 1, [open, acceptance])
  }

  // ---- Processing a frame ----

  /** Opens a frame of the session if it is the peer's next one and of the expected kind. */
  function OpenFrame(session: Session, f: SessionFrame, expected: Kind, live: bool)
    : Result<(Session, Value), PairingError>
  {
    if !live then Err(Expired)
    else if f.transcript != session.transcript || f.senderRole != Opposite(session.localRole)
      || f.sequence != session.nextInbound then
      Err(UnexpectedFrame)
    else if f.kind != expected then Err(UnexpectedFrame)
    else Ok((session.(nextInbound := session.nextInbound + 1), f.value))
  }

  function SealFrame(session: Session, kind: Kind, value: Value): (SessionFrame, Session) {
    (SessionFrame(session.transcript, session.localRole, session.nextOutbound, kind, value),
     session.(nextOutbound := session.nextOutbound + 1))
  }

  function AcceptOpen(s: State, transcript: nat, draw: Draw): Result<State, PairingError> {
    if s.redeemed then Err(AlreadyRedeemed)
    else if !draw.live then Err(Expired)
    else
      Ok(s.(phase := AwaitingAcceptance, redeemed := true, session := Some(Session(transcript, Offerer, 1, 1)),
            relationshipID := Some(RelationshipOf(transcript)), nextInbound := s.nextInbound + 1))
  }

  /** The peer's introduction arrived; `answer` is the kind of frame this side replies with. */
  function AcceptIntroduction(s: State, session: Session, peer: Introduction, local: Introduction, draw: Draw)
    : Result<State, PairingError>
    requires s.relationshipID.Some?
  {
    if peer.transcript != session.transcript then Err(InvalidIntroduction)
    else
      var confirmation := MakeConfirmation(s.relationshipID.value, s.role, local, peer);
      var (frame, next) :=
        if s.role == Offerer then SealFrame(session, ContactOffer, IntroductionValue(local))
        else SealFrame(session, ConfirmationKind, ConfirmationValue(confirmation));
      Ok(s.(phase := AwaitingConfirmation, session := Some(next), localIntroduction := Some(local),
            peerIntroduction := Some(peer), confirmation := Some(confirmation), nextOutbound := s.nextOutbound + 1,
            nextInbound := s.nextInbound + 1,
            outbox := s.outbox + [Transport(draw.frameID, s.role, s.nextOutbound, Sealed(frame))]))
  }

  function ProcessOfferer(s: State, content: Content, draw: Draw): Result<State, PairingError>
    requires s.role == Offerer && Resumable(s)
  {
    if s.phase == AwaitingOpen then
      if !content.Open? then Err(InvalidPhase) else AcceptOpen(s, content.transcript, draw)
    else if !content.Sealed? then Err(InvalidPhase)
    else if s.phase == AwaitingAcceptance then
      match OpenFrame(s.session.value, content.frame, ContactAcceptance, draw.live)
      case Err(e) => Err(e)
      case Ok((session, value)) =>
        if !value.IntroductionValue? then Err(InvalidIntroduction)
        else
          AcceptIntroduction(s, session, value.introduction, Introduction(s.participant, session.transcript, draw.salt),
                             draw)
    else if s.phase == AwaitingConfirmation then
      match OpenFrame(s.session.value, content.frame, ConfirmationKind, draw.live)
      case Err(e) => Err(e)
      case Ok((session, value)) =>
        if value != ConfirmationValue(s.confirmation.value) then Err(ConfirmationMismatch)
        else
          var (frame, next) := SealFrame(session, ConfirmationKind, ConfirmationValue(s.confirmation.value));
          Ok(s.(phase := Ready, session := Some(next), nextOutbound := s.nextOutbound + 1,
                nextInbound := s.nextInbound + 1,
                outbox := s.outbox + [Transport(draw.frameID, Offerer, s.nextOutbound, Sealed(frame))]))
    else Err(InvalidPhase)
  }

  function ProcessResponder(s: State, content: Content, draw: Draw): Result<State, PairingError>
    requires s.role == Responder && Resumable(s)
  {
    if !content.Sealed? then Err(InvalidPhase)
    else if s.phase == AwaitingIntroduction then
      match OpenFrame(s.session.value, content.frame, ContactOffer, draw.live)
      case Err(e) => Err(e)
      case Ok((session, value)) =>
        if !value.IntroductionValue? then Err(InvalidIntroduction)
        else AcceptIntroduction(s, session, value.introduction, s.localIntroduction.value, draw)
    else if s.phase == AwaitingConfirmation then
      match OpenFrame(s.session.value, content.frame, ConfirmationKind, draw.live)
      case Err(e) => Err(e)
      case Ok((session, value)) =>
        if value != ConfirmationValue(s.confirmation.value) then Err(ConfirmationMismatch)
        else Ok(s.(phase := Ready, session := Some(session), nextInbound := s.nextInbound + 1))
    else Err(InvalidPhase)
  }

  /** One frame from the relay: resume, open, take the step of the phase, and resume the result. */
  function Process(s: State, f: Transport, draw: Draw): Result<State, PairingError> {
    if !Resumable(s) then Err(InvalidState)
    else if s.phase == Ready then Err(InvalidPhase)
    else if f.sequence != s.nextInbound then Err(ReplayedFrame)
    else if f.sender != Opposite(s.role) then Err(DecryptionFailed)
    else
      match (if s.role == Offerer then ProcessOfferer(s, f.content, draw) else ProcessResponder(s, f.content, draw))
      case Err(e) => Err(e)
      case Ok(next) => if Resumable(next) then Ok(next) else Err(InvalidState)
  }

  function FrameIDs(outbox: seq<Transport>): set<nat> {
    set i | 0 <= i < |outbox| :: outbox[i].frameID
  }

  function Unacknowledged(outbox: seq<Transport>, frameIDs: set<nat>): (r: seq<Transport>)
    ensures forall f :: f in r <==> f in outbox && f.frameID !in frameIDs
    ensures |r| <= |outbox|
  {
    if outbox == [] then []
    else
      var front, last := Unacknowledged(outbox[..|outbox| - 1], frameIDs), outbox[|outbox| - 1];
      assert outbox == outbox[..|outbox| - 1] + [last];
      if last.frameID in frameIDs then front else front + [last]
  }

  /** Removes frames the relay took; naming none, or one that is not there, is refused. */
  function Acknowledge(s: State, frameIDs: set<nat>): Result<State, PairingError> {
    if !Resumable(s) then Err(InvalidState)
    else if frameIDs == {} || !(frameIDs <= FrameIDs(s.outbox)) then Err(InvalidAcknowledgement)
    else
      var next := s.(outbox := Unacknowledged(s.outbox, frameIDs));
      if Resumable(next) then Ok(next) else Err(InvalidState)
  }

  /** Whether this side may become a relationship. */
  function Finalizable(s: State): Result<RelationshipID, PairingError> {
    if !Resumable(s) then Err(InvalidState)
    else if s.phase != Ready then Err(InvalidPhase)
    else if s.outbox != [] then Err(OutboundNotAccepted)
    else Ok(s.relationshipID.value)
  }

  // ---- Resuming never rejects what a transition made ----

  lemma OutboxStaysFit(s: State, next: State)
    requires OutboxFits(s) && next.role == s.role && next.nextOutbound >= s.nextOutbound
    requires next.outbox == s.outbox
             || (|next.outbox| == |s.outbox| + 1 && next.outbox[..|s.outbox|] == s.outbox
                 && var f := next.outbox[|s.outbox|];
                    f.sender == s.role && f.sequence == s.nextOutbound < next.nextOutbound && f.content.Sealed?
                    && f.content.frame.senderRole == s.role)
    ensures OutboxFits(next)
  {
    if next.outbox != s.outbox {
      assert forall i :: 0 <= i < |s.outbox| ==> next.outbox[i] == s.outbox[i];
    }
  }

  /** Every frame a valid state accepts leads to a valid state, so the check on the result never fires. */
  lemma TransitionsStayResumable(s: State, f: Transport, draw: Draw)
    requires Resumable(s)
    ensures Process(s, f, draw) != Err(InvalidState)
    ensures Process(s, f, draw).Ok? ==>
              var next := Process(s, f, draw).value;
              Resumable(next) && next.role == s.role && next.nextInbound == s.nextInbound + 1
                && next.participant == s.participant
  {
    hide OutboxFits;
    var r := if s.role == Offerer then ProcessOfferer(s, f.content, draw) else ProcessResponder(s, f.content, draw);
    if s.phase != Ready && f.sequence == s.nextInbound && f.sender == Opposite(s.role) && r.Ok? {
      OutboxStaysFit(s, r.value);
    }
  }

  lemma {:induction false} UnacknowledgedInOrder(outbox: seq<Transport>, frameIDs: set<nat>)
    ensures Subsequence(Unacknowledged(outbox, frameIDs), outbox)
  {
    if outbox != [] {
      UnacknowledgedInOrder(outbox[..|outbox| - 1], frameIDs);
    }
  }

  lemma UnacknowledgedFits(s: State, frameIDs: set<nat>)
    requires OutboxFits(s)
    ensures OutboxFits(s.(outbox := Unacknowledged(s.outbox, frameIDs)))
  {
    hide Unacknowledged, Subsequence;
    var kept := Unacknowledged(s.outbox, frameIDs);
    UnacknowledgedInOrder(s.outbox, frameIDs);
    forall i | 0 <= i < |kept| ensures kept[i] in s.outbox {
      var _ := SubsequenceMember(kept, s.outbox, i);
    }
    forall i, j | 0 <= i < j < |kept| ensures kept[i].sequence != kept[j].sequence {
      var p, q := SubsequencePair(kept, s.outbox, i, j);
    }
  }

  /** Acknowledging takes exactly the named frames out of the outbox, and nothing else changes. */
  lemma AcknowledgedStaysResumable(s: State, frameIDs: set<nat>)
    requires Resumable(s)
    ensures Acknowledge(s, frameIDs) != Err(InvalidState)
    ensures Acknowledge(s, frameIDs).Ok? <==> frameIDs != {} && frameIDs <= FrameIDs(s.outbox)
    ensures Acknowledge(s, frameIDs).Err? ==> Acknowledge(s, frameIDs) == Err(InvalidAcknowledgement)
    ensures Acknowledge(s, frameIDs).Ok? ==>
              var next := Acknowledge(s, frameIDs).value;
              && Resumable(next) && next == s.(outbox := next.outbox) && Subsequence(next.outbox, s.outbox)
              && forall f :: f in next.outbox <==> f in s.outbox && f.frameID !in frameIDs
  {
    hide OutboxFits;
    UnacknowledgedFits(s, frameIDs);
    UnacknowledgedInOrder(s.outbox, frameIDs);
  }

  lemma OffererStartsResumable(participant: nat)
    ensures Resumable(PrepareOfferer(participant))
  {
  }

  lemma ResponderStartsResumable(participant: nat,
                                 transcript: nat, salt: nat, openFrameID: nat, acceptanceFrameID: nat)
    ensures Resumable(PrepareResponder(participant, transcript, salt, openFrameID, acceptanceFrameID))
  {
  }

  /** A repeated, early or late frame changes nothing: only the next one of the lane is ever taken. */
  lemma OnlyTheNextFrame(s: State, f: Transport, draw: Draw)
    requires Process(s, f, draw).Ok?
    ensures f.sequence == s.nextInbound && f.sender == Opposite(s.role)
    ensures forall g: Transport, other: Draw :: g.sequence <= f.sequence ==>
              Process(Process(s, f, draw).value, g, other).Err?
  {
    hide ProcessOfferer, ProcessResponder, Resumable;
    assert Resumable(s);
    TransitionsStayResumable(s, f, draw);
  }

  // ---- Which frame is the next one, and what it does ----

  function TranscriptOf(s: State): nat {
    if s.session.Some? then s.session.value.transcript else 0
  }

  /** The one frame that each phase waits for, by the protocol of the two lanes. */
  predicate Awaited(s: State, f: Transport) {
    var t := TranscriptOf(s);
    match (s.role, s.phase)
    case (Offerer, AwaitingOpen) =>
      f.sender == Responder && f.sequence == 1 && f.content.Open? && !s.redeemed
    case (Offerer, AwaitingAcceptance) =>
      f.sender == Responder && f.sequence == 2 && Introduces(f.content, t, Responder, ContactAcceptance)
    case (Offerer, AwaitingConfirmation) =>
      f.sender == Responder && f.sequence == 3
        && f.content == Sealed(SessionFrame(t, Responder, 2, ConfirmationKind,
                                            ConfirmationValue(Agreement(s, Offerer))))
    case (Responder, AwaitingIntroduction) =>
      f.sender == Offerer && f.sequence == 1 && Introduces(f.content, t, Offerer, ContactOffer)
    case (Responder, AwaitingConfirmation) =>
      f.sender == Offerer && f.sequence == 2
        && f.content == Sealed(SessionFrame(t, Offerer, 2, ConfirmationKind,
                                            ConfirmationValue(Agreement(s, Responder))))
    case _ => false
  }

  /** The first sealed frame of a side, with an introduction of this very pairing. */
  predicate Introduces(content: Content, transcript: nat, sender: Role, kind: Kind) {
    && content.Sealed? && content.frame.value.IntroductionValue?
    && content.frame.value.introduction.transcript == transcript
    && content.frame == SessionFrame(transcript, sender, 1, kind, content.frame.value)
  }

  /** The state after the awaited frame, and the frame it queues in answer. */
  function Answered(s: State, f: Transport, draw: Draw): State {
    var t := TranscriptOf(s);
    match (s.role, s.phase)
    case (Offerer, AwaitingOpen) =>
      var started := if f.content.Open? then f.content.transcript else 0;
      State(Offerer, AwaitingAcceptance, s.participant, true, Some(Session(started, Offerer, 1, 1)),
            Some(RelationshipOf(started)), None, None, None, 1, 2, s.outbox)
    case (Offerer, AwaitingAcceptance) =>
      var local, peer := Introduction(s.participant, t, draw.salt), IntroducedBy(f);
      State(Offerer, AwaitingConfirmation, s.participant, s.redeemed, Some(Session(t, Offerer, 2, 2)),
            Some(RelationshipOf(t)), Some(local), Some(peer), Some(Confirmation(RelationshipOf(t), local, peer)), 2, 3,
            s.outbox + [Transport(draw.frameID, Offerer, 1,
                                  Sealed(SessionFrame(t, Offerer, 1, ContactOffer, IntroductionValue(local))))])
    case (Offerer, AwaitingConfirmation) =>
      State(Offerer, Ready, s.participant, s.redeemed, Some(Session(t, Offerer, 3, 3)), Some(RelationshipOf(t)),
            s.localIntroduction, s.peerIntroduction, s.confirmation, 3, 4,
            s.outbox + [Transport(draw.frameID, Offerer, 2,
                                  Sealed(SessionFrame(t, Offerer, 2, ConfirmationKind,
                                                      ConfirmationValue(Agreement(s, Offerer)))))])
    case (Responder, AwaitingIntroduction) =>
      var after := s.(peerIntroduction := Some(IntroducedBy(f)));
      State(Responder, AwaitingConfirmation, s.participant, s.redeemed, Some(Session(t, Responder, 3, 2)),
            Some(RelationshipOf(t)), s.localIntroduction, after.peerIntroduction, Some(Agreement(after, Responder)),
            4, 2,
            s.outbox + [Transport(draw.frameID, Responder, 3,
                                  Sealed(SessionFrame(t, Responder, 2, ConfirmationKind,
                                                      ConfirmationValue(Agreement(after, Responder)))))])
    case _ =>
      State(Responder, Ready, s.participant, s.redeemed, Some(Session(t, Responder, 3, 3)), Some(RelationshipOf(t)),
            s.localIntroduction, s.peerIntroduction, s.confirmation, 4, 3, s.outbox)
  }

  function IntroducedBy(f: Transport): Introduction {
    if f.content.Sealed? && f.content.frame.value.IntroductionValue? then f.content.frame.value.introduction
    else Introduction(0, 0, 0)
  }

  /** Both introductions under the relationship, the offerer's first. */
  function Agreement(s: State, r: Role): Confirmation {
    var none := Introduction(0, 0, 0);
    var local := if s.localIntroduction.Some? then s.localIntroduction.value else none;
    var peer := if s.peerIntroduction.Some? then s.peerIntroduction.value else none;
    var id := RelationshipOf(TranscriptOf(s));
    if r == Offerer then Confirmation(id, local, peer) else Confirmation(id, peer, local)
  }

  /**
   * Over all states and frames: a frame is accepted exactly when it is the one
   * awaited and in time, and then the state and the queued answer are those of
   * the protocol. The awaited frame after its time is refused as expired.
   */
  lemma AcceptsExactly(s: State, f: Transport, draw: Draw)
    requires Resumable(s)
    ensures Process(s, f, draw).Ok? <==> Awaited(s, f) && draw.live
    ensures Process(s, f, draw).Ok? ==> Process(s, f, draw).value == Answered(s, f, draw)
    ensures Awaited(s, f) && !draw.live ==> Process(s, f, draw) == Err(Expired)
  {
    hide OutboxFits;
    TransitionsStayResumable(s, f, draw);
  }

  /**
   * Why any other frame is refused: in this order, for its place in the lane,
   * its form, its time, its place in the session, and what it says.
   */
  lemma RefusedFor(s: State, f: Transport, draw: Draw)
    requires Resumable(s) && !(Awaited(s, f) && draw.live)
    ensures Process(s, f, draw) == Err(
                                     if s.phase == Ready then InvalidPhase
                                     else if f.sequence != s.nextInbound then ReplayedFrame
                                     else if f.sender == s.role then DecryptionFailed
                                     else if f.content.Open? != (s.phase == AwaitingOpen) then InvalidPhase
                                     else if f.content.Open? then if s.redeemed then AlreadyRedeemed else Expired
                                     else if !draw.live then Expired
                                     else if !InPlace(s, f.content.frame) then UnexpectedFrame
                                     else if s.phase == AwaitingConfirmation then ConfirmationMismatch
                                     else InvalidIntroduction)
  {
    hide OutboxFits;
    TransitionsStayResumable(s, f, draw);
  }

  /** The peer's next frame of this session, of the kind its turn has. */
  predicate InPlace(s: State, frame: SessionFrame) {
    && frame.transcript == TranscriptOf(s) && frame.senderRole != s.role
    && if s.phase == AwaitingConfirmation then frame.sequence == 2 && frame.kind == ConfirmationKind
       else frame.sequence == 1 && frame.kind == if s.role == Offerer then ContactAcceptance else ContactOffer
  }

  /** The state of a role and phase that holds these introductions and this outbox. */
  function Shape(s: State): State {
    var t := TranscriptOf(s); var id := Some(RelationshipOf(t));
    var local, peer, agreed := s.localIntroduction, s.peerIntroduction, Some(Agreement(s, s.role));
    match (s.role, s.phase)
    case (Offerer, AwaitingOpen) =>
      State(Offerer, AwaitingOpen, s.participant, s.redeemed, None, None, None, None, None, 1, 1, s.outbox)
    case (Offerer, AwaitingAcceptance) =>
      State(Offerer, AwaitingAcceptance, s.participant, s.redeemed, Some(Session(t, Offerer, 1, 1)), id, None, None,
            None, 1, 2, s.outbox)
    case (Offerer, Ready) =>
      State(Offerer, Ready, s.participant, s.redeemed, Some(Session(t, Offerer, 3, 3)), id, local, peer, agreed, 3, 4,
            s.outbox)
    case (Offerer, _) =>
      State(Offerer, AwaitingConfirmation, s.participant, s.redeemed, Some(Session(t, Offerer, 2, 2)), id, local, peer,
            agreed, 2, 3, s.outbox)
    case (Responder, AwaitingIntroduction) =>
      State(Responder, AwaitingIntroduction, s.participant, false, Some(Session(t, Responder, 2, 1)), id, local, None,
            None, 3, 1, s.outbox)
    case (Responder, Ready) =>
      State(Responder, Ready, s.participant, false, Some(Session(t, Responder, 3, 3)), id, local, peer, agreed, 4, 3,
            s.outbox)
    case (Responder, _) =>
      State(Responder, AwaitingConfirmation, s.participant, false, Some(Session(t, Responder, 3, 2)), id, local, peer,
            agreed, 4, 2, s.outbox)
  }

  /**
   * What resuming accepts: of each role and phase exactly the states with that
   * phase's counters and results, introductions of this pairing where the phase
   * has them, and an outbox of frames this side has sealed, none twice. Any
   * other state takes no step.
   */
  lemma ResumesExactly(s: State, f: Transport, draw: Draw, frameIDs: set<nat>)
    ensures Resumable(s) <==>
            && s == Shape(s)
            && (s.phase == AwaitingConfirmation || s.phase == Ready || s.phase == AwaitingIntroduction ==>
                  s.localIntroduction.Some? && s.localIntroduction.value.transcript == TranscriptOf(s))
            && (s.phase == AwaitingConfirmation || s.phase == Ready ==>
                  s.peerIntroduction.Some? && s.peerIntroduction.value.transcript == TranscriptOf(s))
            && (forall i :: 0 <= i < |s.outbox| ==>
                  && s.outbox[i].sender == s.role && s.outbox[i].sequence < s.nextOutbound
                  && (s.outbox[i].content.Open? ==> s.role == Responder)
                  && (s.outbox[i].content.Sealed? ==> s.outbox[i].content.frame.senderRole == s.role))
            && forall i, j :: 0 <= i < j < |s.outbox| ==> s.outbox[i].sequence != s.outbox[j].sequence
    ensures !Resumable(s) ==>
              && Process(s, f, draw) == Err(InvalidState) && Acknowledge(s, frameIDs) == Err(InvalidState)
              && Finalizable(s) == Err(InvalidState)
  {
  }

  /** Only a ready side with nothing left to publish finalizes, into the relationship of its rendezvous. */
  lemma FinalizesExactly(s: State, id: RelationshipID)
    requires Resumable(s)
    ensures Finalizable(s) == Ok(id) <==> s.phase == Ready && s.outbox == [] && id == RelationshipOf(TranscriptOf(s))
    ensures s.phase != Ready ==> Finalizable(s) == Err(InvalidPhase)
    ensures s.phase == Ready && s.outbox != [] ==> Finalizable(s) == Err(OutboundNotAccepted)
  {
    hide OutboxFits;
  }
}
