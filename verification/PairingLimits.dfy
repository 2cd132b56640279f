/**
 * What finalizing can cost the other side of a pairing
 * (src/contact-pairing-v2.js, src/browser-pairing-service.js): a run in which
 * the offerer stops between a relay's taking its last frame and its own record
 * of that, and the responder finalizes meanwhile.
 */
module PairingLimits {
  import opened Wrappers
  import opened Pairing
  import opened PairingRuns

  const TRANSCRIPT := 7

  function Mine(participant: nat): Introduction {
    Introduction(participant, TRANSCRIPT, participant)
  }

  function Both(): Confirmation {
    Confirmation(RelationshipOf(TRANSCRIPT), Mine(1), Mine(2))
  }

  function Frame(id: nat, sender: Role, sequence: nat, sealed: nat, kind: Kind, value: Value): Transport {
    Transport(id, sender, sequence, Sealed(SessionFrame(TRANSCRIPT, sender, sealed, kind, value)))
  }

  const OPENING := Transport(10, Responder, 1, Open(TRANSCRIPT))
  const ACCEPTANCE := Frame(11, Responder, 2, 1, ContactAcceptance, IntroductionValue(Mine(2)))
  const OFFER := Frame(20, Offerer, 1, 1, ContactOffer, IntroductionValue(Mine(1)))
  const ANSWER := Frame(12, Responder, 3, 2, ConfirmationKind, ConfirmationValue(Both()))
  const LAST := Frame(21, Offerer, 2, 2, ConfirmationKind, ConfirmationValue(Both()))

  /** The offerer after it processed `n` frames, none of its own acknowledged beyond `outbox`. */
  function OffererAt(n: nat, outbox: seq<Transport>): State
    requires n <= 3
  {
    var id := RelationshipOf(TRANSCRIPT);
    if n == 0 then PrepareOfferer(1)
    else if n == 1 then
      State(Offerer, AwaitingAcceptance, 1, true, Some(Session(TRANSCRIPT, Offerer, 1, 1)), Some(id), None, None, None,
            1, 2, [])
    else
      State(Offerer, if n == 2 then AwaitingConfirmation else Ready, 1, true, Some(Session(TRANSCRIPT, Offerer, n, n)),
            Some(id),
            Some(Mine(1)), Some(Mine(2)), Some(Both()), n, n + 1, outbox)
  }

  /** The responder after it processed `n` frames. */
  function ResponderAt(n: nat, outbox: seq<Transport>): State
    requires n <= 2
  {
    var id := RelationshipOf(TRANSCRIPT);
    if n == 0 then
      State(Responder, AwaitingIntroduction, 2, false, Some(Session(TRANSCRIPT, Responder, 2, 1)), Some(id),
            Some(Mine(2)), None,
            None, 3, 1, outbox)
    else
      State(Responder, if n == 1 then AwaitingConfirmation else Ready, 2, false,
            Some(Session(TRANSCRIPT, Responder, 3, n + 1)),
            Some(id), Some(Mine(2)), Some(Mine(1)), Some(Both()), 4, n + 1, outbox)
  }

  function Between(o: State, r: Party, toOfferer: seq<Transport>, toResponder: seq<Transport>,
                   offererAnswer: Option<Transport>, responderAnswer: Option<Transport>): World {
    World(PairingRuns.Active(o), r, toOfferer, toResponder, true, true,
          (set f | f in toOfferer) + (set f | f in toResponder), offererAnswer, responderAnswer)
  }

  /** The responder is active, and `n`, `outbox` and `answer` say how far it is. */
  function Pair(o: State, n: nat, outbox: seq<Transport>, toOfferer: seq<Transport>, toResponder: seq<Transport>,
                offererAnswer: Option<Transport>, responderAnswer: Option<Transport>): World
    requires n <= 2
  {
    Between(o, PairingRuns.Active(ResponderAt(n, outbox)), toOfferer, toResponder, offererAnswer, responderAnswer)
  }

  const FIRST := [OPENING, ACCEPTANCE]
  const ALL := [OPENING, ACCEPTANCE, ANSWER]

  /** The worlds of the run, before each of its actions and at its end. */
  function Scene(n: nat): World
    requires n <= 17
  {
    if n == 0 then Between(OffererAt(0, []), Absent, [], [], None, None)
    else if n == 1 then Pair(OffererAt(0, []), 0, FIRST, [], [], None, None)
    else if n == 2 then Pair(OffererAt(0, []), 0, FIRST, [OPENING], [], None, Some(OPENING))
    else if n == 3 then Pair(OffererAt(0, []), 0, [ACCEPTANCE], [OPENING], [], None, None)
    else if n == 4 then Pair(OffererAt(0, []), 0, [ACCEPTANCE], FIRST, [], None, Some(ACCEPTANCE))
    else if n == 5 then Pair(OffererAt(0, []), 0, [], FIRST, [], None, None)
    else if n == 6 then Pair(OffererAt(1, []), 0, [], FIRST, [], None, None)
    else if n == 7 then Pair(OffererAt(2, [OFFER]), 0, [], FIRST, [], None, None)
    else if n == 8 then Pair(OffererAt(2, [OFFER]), 0, [], FIRST, [OFFER], Some(OFFER), None)
    else if n == 9 then Pair(OffererAt(2, []), 0, [], FIRST, [OFFER], None, None)
    else if n == 10 then Pair(OffererAt(2, []), 1, [ANSWER], FIRST, [OFFER], None, None)
    else if n == 11 then Pair(OffererAt(2, []), 1, [ANSWER], ALL, [OFFER], None, Some(ANSWER))
    else if n == 12 then Pair(OffererAt(2, []), 1, [], ALL, [OFFER], None, None)
    else if n == 13 then Pair(OffererAt(3, [LAST]), 1, [], ALL, [OFFER], None, None)
    else if n == 14 then Pair(OffererAt(3, [LAST]), 1, [], ALL, [OFFER, LAST], Some(LAST), None)
    else if n == 15 then Pair(OffererAt(3, [LAST]), 1, [], ALL, [OFFER, LAST], None, None)
    else if n == 16 then Pair(OffererAt(3, [LAST]), 2, [], ALL, [OFFER, LAST], None, None)
    else
      Between(OffererAt(3, [LAST]), Finalized(ResponderAt(2, [])), ALL, [OFFER, LAST], None, None)
        .(toResponder := [], responderLaneOpen := false)
  }

  /**
   * Everything is published and recorded on the answer, but for the offerer's
   * last frame: it crashes before recording that.
   */
  function Script(): seq<Action> {
    [Respond(2, TRANSCRIPT, 2, 10, 11), Publish(Responder, 0), AcknowledgePublished(Responder), Publish(Responder, 0),
     AcknowledgePublished(Responder), Deliver(Offerer, 0, Draw(1, 19, true)), Deliver(Offerer, 1, Draw(1, 20, true)),
     Publish(Offerer, 0), AcknowledgePublished(Offerer), Deliver(Responder, 0, Draw(2, 12, true)),
     Publish(Responder, 0),
     AcknowledgePublished(Responder), Deliver(Offerer, 2, Draw(1, 21, true)), Publish(Offerer, 0), Crash(Offerer),
     Deliver(Responder, 1, Draw(2, 13, true)), Finalize(Responder)]
  }

  lemma OffererPublishes(o: State, r: Party, toOfferer: seq<Transport>, toResponder: seq<Transport>)
    requires |o.outbox| > 0
    ensures Step(Between(o, r, toOfferer, toResponder, None, None), Publish(Offerer, 0))
         == Some(Between(o, r, toOfferer, toResponder + [o.outbox[0]], Some(o.outbox[0]), None))
  {
    var before := Between(o, r, toOfferer, toResponder, None, None);
    var after := Between(o, r, toOfferer, toResponder + [o.outbox[0]], Some(o.outbox[0]), None);
    assert after.accepted == before.accepted + {o.outbox[0]};
  }

  lemma ResponderPublishes(o: State, r: State, toOfferer: seq<Transport>, toResponder: seq<Transport>)
    requires |r.outbox| > 0
    ensures Step(Between(o, PairingRuns.Active(r), toOfferer, toResponder, None, None), Publish(Responder, 0))
         == Some(Between(o, PairingRuns.Active(r), toOfferer + [r.outbox[0]], toResponder, None, Some(r.outbox[0])))
  {
    var before := Between(o, PairingRuns.Active(r), toOfferer, toResponder, None, None);
    var after := Between(o, PairingRuns.Active(r), toOfferer + [r.outbox[0]], toResponder, None, Some(r.outbox[0]));
    assert after.accepted == before.accepted + {r.outbox[0]};
  }

  lemma Publishes(n: nat)
    requires n == 1 || n == 3 || n == 7 || n == 10 || n == 13
    ensures Step(Scene(n), Script()[n]) == Some(Scene(n + 1))
  {
    hide Between, Step, ResponderAt, OffererAt;
    Shapes();
    if n == 1 {
      ResponderPublishes(OffererAt(0, []), ResponderAt(0, FIRST), [], []);
      assert [] + [OPENING] == [OPENING];
    } else if n == 3 {
      ResponderPublishes(OffererAt(0, []), ResponderAt(0, [ACCEPTANCE]), [OPENING], []);
      assert [OPENING] + [ACCEPTANCE] == FIRST;
    } else if n == 7 {
      OffererPublishes(OffererAt(2, [OFFER]), PairingRuns.Active(ResponderAt(0, [])), FIRST, []);
      assert [] + [OFFER] == [OFFER];
    } else if n == 10 {
      ResponderPublishes(OffererAt(2, []), ResponderAt(1, [ANSWER]), FIRST, [OFFER]);
      assert FIRST + [ANSWER] == ALL;
    } else {
      OffererPublishes(OffererAt(3, [LAST]), PairingRuns.Active(ResponderAt(1, [])), ALL, [OFFER]);
      assert [OFFER] + [LAST] == [OFFER, LAST];
    }
  }

  lemma Shapes()
    ensures ResponderAt(0, FIRST).outbox == FIRST && ResponderAt(0, [ACCEPTANCE]).outbox == [ACCEPTANCE]
    ensures ResponderAt(1, [ANSWER]).outbox == [ANSWER]
    ensures OffererAt(2, [OFFER]).outbox == [OFFER] && OffererAt(3, [LAST]).outbox == [LAST]
            && OffererAt(3, [LAST]).phase == Ready
  {
  }

  /** What is left when the first of at most two frames is recorded as taken. */
  lemma TakesFirst(s: State)
    requires Resumable(s) && (|s.outbox| == 1 || (|s.outbox| == 2 && s.outbox[0].frameID != s.outbox[1].frameID))
    requires Resumable(s.(outbox := s.outbox[1..]))
    ensures Acknowledge(s, {s.outbox[0].frameID}) == Ok(s.(outbox := s.outbox[1..]))
  {
    hide Resumable;
    var id := s.outbox[0].frameID;
    assert id in FrameIDs(s.outbox);
    assert s.outbox[..1][..0] == [];
    assert Unacknowledged(s.outbox[..1], {id}) == [];
    if |s.outbox| == 1 {
      assert s.outbox[..1] == s.outbox && s.outbox[1..] == [];
    } else {
      assert s.outbox[..|s.outbox| - 1] == s.outbox[..1] && s.outbox[1..] == [] + [s.outbox[1]];
    }
  }

  lemma Acknowledges(n: nat)
    requires n == 2 || n == 4 || n == 8 || n == 11
    ensures Step(Scene(n), Script()[n]) == Some(Scene(n + 1))
  {
    hide Resumable, Acknowledge;
    ScenesResume(0);
    ScenesResume(1);
    ScenesResume(2);
    FirstResumes();
    var w := Scene(n);
    var s := if n == 8 then w.offerer.state else w.responder.state;
    assert n == 2 ==> s.outbox[0].frameID == 10 && s.outbox[1].frameID == 11 && s.outbox[1..] == [ACCEPTANCE];
    assert n != 2 ==> |s.outbox| == 1 && s.outbox[1..] == [];
    TakesFirst(s);
  }

  lemma FirstResumes()
    ensures Resumable(ResponderAt(0, FIRST)) && Resumable(ResponderAt(0, [ACCEPTANCE]))
  {
  }

  lemma Ends(n: nat)
    requires n == 0 || n == 14 || n == 16
    ensures Step(Scene(n), Script()[n]) == Some(Scene(n + 1))
  {
    hide Resumable;
    ScenesResume(2);
  }

  lemma SceneStep(n: nat)
    requires n < 17
    ensures |Script()| == 17 && Step(Scene(n), Script()[n]) == Some(Scene(n + 1))
  {
    hide Scene, Step;
    if n == 0 || n == 14 || n == 16 {
      Ends(n);
    } else if n == 2 || n == 4 || n == 8 || n == 11 {
      Acknowledges(n);
    } else if n == 5 || n == 6 || n == 9 || n == 12 || n == 15 {
      Delivers(n);
    } else {
      Publishes(n);
    }
  }

  lemma StartsInitial()
    ensures Initial(Scene(0))
  {
    hide Script;
  }

  function Scenes(): seq<World> {
    seq(18, n requires 0 <= n < 18 => Scene(n))
  }

  /**
   * The offerer can be left behind: it is ready and a relay took its last
   * frame, but it crashed before recording that. The lane the frame went to is
   * gone with the finalized responder, and from there no run at all leads to
   * where the offerer has finalized, although its peer has.
   */
  lemma OffererLeftBehind()
    ensures Trace(Scenes(), Script())
    ensures var w := Scenes()[17];
            && w.responder.Finalized? && w.offerer.Active? && w.offerer.state.phase == Ready
               && w.offerer.state.outbox != []
            && w.offerer.state.outbox[0] in w.accepted
            && !CanEverFinalize(w, Offerer) && forall index :: Step(w, Publish(Offerer, index)).None?
  {
    hide Step, Script, OffererAt, ResponderAt, CanEverFinalize;
    SceneStep(0);
    Shapes();
    StartsInitial();
    forall n | 0 <= n < 17 ensures Step(Scenes()[n], Script()[n]) == Some(Scenes()[n + 1]) {
      SceneStep(n);
    }
    LateAcknowledgementBlocksFinalizing(Scenes(), Script(), 17, Offerer);
    assert LAST in Scenes()[17].offerer.state.outbox;
  }

  lemma ScenesResume(n: nat)
    requires n <= 3
    ensures Resumable(OffererAt(n, [])) && (n == 2 ==> Resumable(OffererAt(n, [OFFER])))
            && (n == 3 ==> Resumable(OffererAt(n, [LAST])))
    ensures n <= 2 ==> Resumable(ResponderAt(n, [])) && (n == 1 ==> Resumable(ResponderAt(n, [ANSWER])))
  {
  }

  lemma OffererTakes(n: nat, f: Transport, draw: Draw)
    requires n < 3 && draw.live && draw.salt == 1
    requires f == if n == 0 then OPENING else if n == 1 then ACCEPTANCE else ANSWER
    requires n > 0 ==> draw.frameID == if n == 1 then 20 else 21
    ensures Process(OffererAt(n, []), f, draw)
              == Ok(OffererAt(n + 1, if n == 0 then [] else if n == 1 then [OFFER] else [LAST]))
  {
    hide Resumable;
    ScenesResume(n);
    ScenesResume(n + 1);
    assert [] + [OFFER] == [OFFER] && [] + [LAST] == [LAST];
    assert ProcessOfferer(OffererAt(n, []), f.content, draw)
        == Ok(OffererAt(n + 1, if n == 0 then [] else if n == 1 then [OFFER] else [LAST]));
  }

  lemma ResponderTakes(n: nat, f: Transport, draw: Draw)
    requires n < 2 && draw.live && draw.frameID == if n == 0 then 12 else 13
    requires f == if n == 0 then OFFER else LAST
    ensures Process(ResponderAt(n, []), f, draw) == Ok(ResponderAt(n + 1, if n == 0 then [ANSWER] else []))
  {
    hide Resumable;
    ScenesResume(n);
    ScenesResume(n + 1);
    assert [] + [ANSWER] == [ANSWER];
    assert ProcessResponder(ResponderAt(n, []), f.content, draw)
      == Ok(ResponderAt(n + 1, if n == 0 then [ANSWER] else []));
  }

  lemma Delivers(n: nat)
    requires n == 5 || n == 6 || n == 9 || n == 12 || n == 15
    ensures Step(Scene(n), Script()[n]) == Some(Scene(n + 1))
  {
    hide Process;
    if n == 5 {
      OffererTakes(0, OPENING, Draw(1, 19, true));
    } else if n == 6 {
      OffererTakes(1, ACCEPTANCE, Draw(1, 20, true));
    } else if n == 12 {
      OffererTakes(2, ANSWER, Draw(1, 21, true));
    } else if n == 9 {
      ResponderTakes(0, OFFER, Draw(2, 12, true));
    } else {
      ResponderTakes(1, LAST, Draw(2, 13, true));
    }
  }
}
