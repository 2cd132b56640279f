/**
 * Where the obvious claims about the durable outbox are stronger than the code
 * (src/durable-pairwise-messaging-v2.js): inputs on which they fail.
 */
module OutboxLimits {
  import opened Wrappers
  import opened Collections
  import opened PacketFrame
  import opened PacketSealing
  import opened Outbox
  import opened OutboxHistory

  function SomeHashes(): Hashes {
    Hashes((b, p) => 0, (r, p, f) => 0, (c, r, o, t, n) => 0)
  }

  function Weightless(): Platform {
    Platform(SomeHashes(), (s: State) => 0)
  }

  function SomePacket(): Packet {
    Packet(1, 1, SealedFrame(0, seq(12, i => 0), [], seq(4068, i => 0)), SendProof(0, 0, 0, 0))
  }

  function SomeDelivery(): Delivery {
    Delivery(1, 0, [SomePacket()], 0, false)
  }

  function AskIn(transactionID: nat, freshSession: nat): Request {
    Request(transactionID, 0, false, false, [SomeDelivery()], freshSession)
  }

  function Ask(transactionID: nat): Request {
    AskIn(transactionID, 5)
  }

  /** A candidate within both bounds is saved as it is. */
  lemma SaveFits(e: Platform, c: State)
    requires |c.intents| <= 256 && e.size(c) <= MAXIMUM_STATE_BYTES && c.generation < MAX_SAFE_INTEGER
    requires var t := c.(generation := c.generation + 1); StateValid(e.h, t) && e.size(t) <= MAXIMUM_STATE_BYTES
    ensures Commit(e, c) == Some(c.(generation := c.generation + 1))
  {
    hide StateValid, PendingOnly;
    ShortEnough(c.intents, Target(c.intents, 0));
    assert c.(intents := c.intents) == c;
  }

  lemma SaveSmall(c: State)
    requires c.generation < MAX_SAFE_INTEGER && |c.intents| <= 256
             && StateValid(Weightless().h, c.(generation := c.generation + 1))
    ensures Commit(Weightless(), c) == Some(c.(generation := c.generation + 1))
  {
    hide StateValid;
    SaveFits(Weightless(), c);
  }

  // ---- Bootstrap order fails after a permanent bootstrap failure ----

  function First(status: Status, attempts: nat): Intent {
    if status == Prepared || status == Publishing then
      Intent(1, 5, 1, 0, false, Some(SignedPrekeyBootstrap), [SomeDelivery()], status, attempts)
    else Intent(1, 5, 1, 0, false, None, [], status, attempts)
  }

  function Second(status: Status, attempts: nat, progress: nat): Intent {
    if status == Prepared || status == Publishing then
      Intent(2, 5, 2, 0, false, Some(Ordinary),
             [SomeDelivery().(nextPacketIndex := progress, accepted := progress == 1)], status, attempts)
    else Intent(2, 5, 2, 0, false, None, [], status, attempts)
  }

  function StateOf(generation: nat, next: nat, intents: seq<Intent>): State {
    State(generation, Some(5), [5], next, intents, [])
  }

  function Opened(): Log {
    Log([], map[5 := 1], {5}, {})
  }

  function Failed(): Log {
    Opened().(failed := {1})
  }

  lemma {:induction false} PendingBound(intents: seq<Intent>)
    ensures PendingCount(intents) <= |intents|
  {
    if intents != [] {
      PendingBound(intents[..|intents| - 1]);
    }
  }

  lemma OneValid(generation: nat, x: Intent)
    requires 1 <= generation <= 9
    requires x == First(x.status, x.attemptCount) && x.status != RetryableFailure && x.attemptCount <= 8
    ensures StateValid(Weightless().h, StateOf(generation, 2, [x]))
  {
    PendingBound([x]);
    assert DeliveryValid(Weightless().h, SomeDelivery());
  }

  lemma TwoValid(generation: nat, y: Intent, progress: nat)
    requires 1 <= generation <= 9 && progress <= 1
    requires y == Second(y.status, y.attemptCount, progress) && y.status != RetryableFailure && y.attemptCount <= 8
    ensures StateValid(Weightless().h, StateOf(generation, 3, [First(Discarded, 1), y]))
  {
    PendingBound([First(Discarded, 1), y]);
    assert DeliveryValid(Weightless().h, SomeDelivery().(nextPacketIndex := progress, accepted := progress == 1));
  }

  /** The worlds of a run whose bootstrap fails for good and is then discarded. */
  function Scene(n: nat): World
    requires n <= 9
  {
    var sent := [Attempt(2, 0, 0, SomePacket(), true)];
    if n == 0 then World(State(1, None, [], 1, [], []), [], Log([], map[], {}, {}), None)
    else if n == 1 then World(StateOf(2, 2, [First(Prepared, 0)]), [], Opened(), None)
    else if n == 2 then World(StateOf(3, 2, [First(Publishing, 1)]), [], Opened(), Some(0))
    else if n == 3 then World(StateOf(4, 2, [First(PermanentFailure, 1)]), [], Failed(), None)
    else if n == 4 then World(StateOf(5, 2, [First(Discarded, 1)]), [], Failed(), None)
    else if n == 5 then World(StateOf(6, 3, [First(Discarded, 1), Second(Prepared, 0, 0)]), [], Failed(), None)
    else if n == 6 then World(StateOf(7, 3, [First(Discarded, 1), Second(Publishing, 1, 0)]), [], Failed(), Some(1))
    else if n == 7 then World(StateOf(7, 3, [First(Discarded, 1), Second(Publishing, 1, 0)]), sent, Failed(), Some(1))
    else if n == 8 then World(StateOf(8, 3, [First(Discarded, 1), Second(Publishing, 1, 1)]), sent, Failed(), Some(1))
    else World(StateOf(9, 3, [First(Discarded, 1), Second(RelayAccepted, 1, 0)]), sent,
               Failed().(acceptances := [Acceptance(5, 2)]), None)
  }

  function Script(): seq<Action> {
    [Prepare(Ask(1)), Publish, Fail(true), Discard(1), Prepare(Ask(2)), Publish, Send(0, true), Advance(0), Accept]
  }

  lemma SceneBegins()
    ensures Step(Weightless(), Scene(0), Prepare(Ask(1))) == Some(Scene(1))
  {
    hide StateValid, Commit;
    var s := Scene(0).state;
    assert PendingOnly(s.intents) == [];
    assert WithCapacity(s) == Some(s);
    assert [] + [First(Prepared, 0)] == [First(Prepared, 0)] && [] + [5] == [5];
    var c := StateOf(1, 2, [First(Prepared, 0)]);
    assert PrepareCandidate(s, Ask(1)) == Some(c);
    OneValid(2, First(Prepared, 0));
    SaveSmall(c);
    assert map[][5 := 1] == map[5 := 1] && {} + {5} == {5};
  }

  lemma ScenePublishesFirst()
    ensures Step(Weightless(), Scene(1), Publish) == Some(Scene(2))
  {
    hide StateValid, Commit;
    assert FirstBlocking(Scene(1).state.intents) == 0;
    assert [First(Prepared, 0)][0 := First(Publishing, 1)] == [First(Publishing, 1)];
    OneValid(3, First(Publishing, 1));
    SaveSmall(StateOf(2, 2, [First(Publishing, 1)]));
  }

  lemma SceneFails()
    ensures Step(Weightless(), Scene(2), Fail(true)) == Some(Scene(3))
  {
    hide StateValid, Commit;
    assert FirstBlocking(Scene(2).state.intents) == 0;
    assert [First(Publishing, 1)][0 := First(PermanentFailure, 1)] == [First(PermanentFailure, 1)];
    assert !SomeDelivery().accepted && !AnyAccepted([SomeDelivery()]);
    OneValid(4, First(PermanentFailure, 1));
    SaveSmall(StateOf(3, 2, [First(PermanentFailure, 1)]));
    assert {} + {1} == {1};
    assert !HasDependent(Scene(2).state, 0);
  }

  lemma SceneDiscards()
    ensures Step(Weightless(), Scene(3), Discard(1)) == Some(Scene(4))
  {
    hide StateValid, Commit;
    OneValid(5, First(Discarded, 1));
    var s := Scene(3).state;
    assert FindTransaction(s.intents, 1) == 0;
    assert DiscardIntents(s.intents, s.intents[0]) == [First(Discarded, 1)];
    SaveSmall(StateOf(4, 2, [First(Discarded, 1)]));
  }

  lemma ScenePreparesAgain()
    ensures Step(Weightless(), Scene(4), Prepare(Ask(2))) == Some(Scene(5))
  {
    hide StateValid, Commit, WithCapacity;
    var s := Scene(4).state;
    assert FindTransaction(s.intents, 2) == 1 by {
      assert FindTransaction([], 2) == 0;
    }
    FewHaveRoom(s);
    assert [First(Discarded, 1)] + [Second(Prepared, 0, 0)] == [First(Discarded, 1), Second(Prepared, 0, 0)];
    var c := StateOf(5, 3, [First(Discarded, 1), Second(Prepared, 0, 0)]);
    SaveSmallPair(5, Second(Prepared, 0, 0), 0);
    assert SomeDelivery().(nextPacketIndex := 0, accepted := false) == SomeDelivery();
    assert Scene(5).log == Scene(4).log;
    assert PrepareCandidate(s, Ask(2)) == Some(c);
  }

  lemma FewHaveRoom(s: State)
    requires |s.intents| <= 3
    ensures WithCapacity(s) == Some(s)
  {
    hide PendingOnly;
    PendingBound(s.intents);
    ShortEnough(s.intents, Target(s.intents, 1));
    assert s.(intents := s.intents) == s;
  }

  lemma SaveSmallPair(generation: nat, y: Intent, progress: nat)
    requires 1 <= generation <= 8 && progress <= 1
    requires y == Second(y.status, y.attemptCount, progress) && y.status != RetryableFailure && y.attemptCount <= 8
    ensures Commit(Weightless(), StateOf(generation, 3, [First(Discarded, 1), y]))
         == Some(StateOf(generation + 1, 3, [First(Discarded, 1), y]))
  {
    hide StateValid, Commit;
    TwoValid(generation + 1, y, progress);
    SaveSmall(StateOf(generation, 3, [First(Discarded, 1), y]));
  }

  lemma ScenePublishes()
    ensures Step(Weightless(), Scene(5), Publish) == Some(Scene(6))
  {
    hide StateValid, Commit;
    SecondIsCurrent(Second(Prepared, 0, 0), Second(Publishing, 1, 0));
    SaveSmallPair(6, Second(Publishing, 1, 0), 0);
  }

  lemma SceneSends()
    ensures Step(Weightless(), Scene(6), Send(0, true)) == Some(Scene(7))
  {
    hide StateValid, Commit;
    SecondIsCurrent(Second(Publishing, 1, 0), Second(Publishing, 1, 0));
    assert [] + [Attempt(2, 0, 0, SomePacket(), true)] == [Attempt(2, 0, 0, SomePacket(), true)];
  }

  lemma SecondIsCurrent(x: Intent, y: Intent)
    requires Blocking(x)
    ensures FirstBlocking([First(Discarded, 1), x]) == 1
    ensures [First(Discarded, 1), x][1 := y] == [First(Discarded, 1), y]
  {
    assert [First(Discarded, 1), x][1..] == [x];
  }

  lemma SceneAccepts()
    ensures Step(Weightless(), Scene(7), Advance(0)) == Some(Scene(8))
    ensures Step(Weightless(), Scene(8), Accept) == Some(Scene(9))
  {
    hide StateValid, Commit;
    SecondIsCurrent(Second(Publishing, 1, 0), Second(Publishing, 1, 1));
    SecondIsCurrent(Second(Publishing, 1, 1), Second(RelayAccepted, 1, 0));
    SaveSmallPair(7, Second(Publishing, 1, 1), 1);
    SaveSmallPair(8, Second(RelayAccepted, 1, 0), 0);
    var sent := Scene(7).attempts;
    assert sent[0] == Attempt(2, 0, 0, SomePacket(), true);
    assert Acknowledged(sent, 2, 0, 0);
    var after := SomeDelivery().(nextPacketIndex := 1, accepted := true);
    assert [SomeDelivery()][0 := after] == [after];
    assert Second(Publishing, 1, 1).deliveries[0].accepted;
    assert AnyAccepted(Second(Publishing, 1, 1).deliveries);
    assert [] + [Acceptance(5, 2)] == [Acceptance(5, 2)];
  }

  lemma SceneStep(n: nat)
    requires n < 9
    ensures |Script()| == 9 && Step(Weightless(), Scene(n), Script()[n]) == Some(Scene(n + 1))
  {
    hide Step, Scene;
    SceneBegins();
    ScenePublishesFirst();
    SceneFails();
    SceneDiscards();
    ScenePreparesAgain();
    ScenePublishes();
    SceneSends();
    SceneAccepts();
  }

  function Scenes(): seq<World> {
    seq(10, n requires 0 <= n < 10 => Scene(n))
  }

  /**
   * A bootstrap that failed for good is discarded like any other intent, its
   * session stays in use, and a later intent is accepted in that session
   * although no bootstrap of it ever was.
   */
  lemma BootstrapOrderCanFail()
    ensures Initial(Weightless(), Scenes()[0]) && Trace(Weightless(), Scenes(), Script())
            && SteadyUntil(Weightless(), Scenes(), Script(), 9)
    ensures var log := Scenes()[9].log;
            && log.acceptances == [Acceptance(5, 2)] && log.bootstraps == map[5 := 1] && log.failed == {1}
            && Acceptance(5, 1) !in log.acceptances
  {
    hide Step, Script, Scene, ProgressCandidate;
    SceneStep(0);
    InitialScene();
    forall n | 0 <= n < 9 ensures Step(Weightless(), Scenes()[n], Script()[n]) == Some(Scenes()[n + 1]) {
      SceneStep(n);
    }
  }

  lemma InitialScene()
    ensures Initial(Weightless(), Scene(0)) && Scene(9).log == Failed().(acceptances := [Acceptance(5, 2)])
  {
    assert PendingOnly([]) == [];
  }

  // ---- A place kept across a save can name another intent ----

  function NameLength(x: Status): nat {
    match x
    case Prepared => 8
    case Publishing => 10
    case RetryableFailure => 16
    case RelayAccepted => 13
    case PermanentFailure => 16
    case Discarded => 9
  }

  function Names(intents: seq<Intent>): nat {
    if intents == [] then 0 else NameLength(intents[0].status) + Names(intents[1..])
  }

  /** Of an encoding, the status names of the intents and one octet for each entry of the histories. */
  function Weighed(): Platform {
    Platform(SomeHashes(), (s: State) => Names(s.intents) + RecordCount(s.records))
  }

  function Gone(): Intent {
    Intent(1, 5, 1, 0, false, None, [], Discarded, 0)
  }

  function Opening(status: Status, attempts: nat): Intent {
    Intent(2, 6, 2, 0, false, Some(SignedPrekeyBootstrap), [SomeDelivery()], status, attempts)
  }

  function Later(progress: nat): Intent {
    Intent(3, 6, 3, 0, false, Some(Ordinary), [SomeDelivery().(nextPacketIndex := progress, accepted := progress == 1)],
           Prepared, 0)
  }

  function Sent(): Intent {
    Intent(3, 6, 3, 0, false, None, [], RelayAccepted, 0)
  }

  /** Histories that fill the byte budget but for the names of one discarded and two prepared intents. */
  function Filled(): seq<seq<nat>> {
    [seq(MAXIMUM_STATE_BYTES - 25, i => 0)]
  }

  function InSix(generation: nat, next: nat, intents: seq<Intent>, records: seq<seq<nat>>): State {
    State(generation, Some(6), [6], next, intents, records)
  }

  function TwoSessions(): Log {
    Log([], map[5 := 1, 6 := 2], {5, 6}, {})
  }

  /** The worlds of a run in which a full byte budget drops a discarded intent in the middle of a turn. */
  function Tight(n: nat): World
    requires n <= 9
  {
    var sent := [Attempt(3, 0, 0, SomePacket(), true)];
    if n == 0 then World(State(1, None, [], 1, [], []), [], Log([], map[], {}, {}), None)
    else if n == 1 then World(StateOf(2, 2, [First(Prepared, 0)]), [], Opened(), None)
    else if n == 2 then World(State(3, None, [], 2, [Gone()], []), [], Opened(), None)
    else if n == 3 then World(InSix(4, 3, [Gone(), Opening(Prepared, 0)], []), [], TwoSessions(), None)
    else if n == 4 then World(InSix(5, 4, [Gone(), Opening(Prepared, 0), Later(0)], []), [], TwoSessions(), None)
    else if n == 5 then World(InSix(6, 4, [Gone(), Opening(Prepared, 0), Later(0)], Filled()), [], TwoSessions(), None)
    else if n == 6 then World(InSix(7, 4, [Opening(Publishing, 1), Later(0)], Filled()), [], TwoSessions(), Some(1))
    else if n == 7 then World(InSix(7, 4, [Opening(Publishing, 1), Later(0)], Filled()), sent, TwoSessions(), Some(1))
    else if n == 8 then World(InSix(8, 4, [Opening(Publishing, 1), Later(1)], Filled()), sent, TwoSessions(), Some(1))
    else World(InSix(9, 4, [Opening(Publishing, 1), Sent()], Filled()), sent,
               TwoSessions().(acceptances := [Acceptance(6, 3)]), None)
  }

  function TightScript(): seq<Action> {
    [Prepare(AskIn(1, 5)), Discard(1), Prepare(AskIn(2, 6)), Prepare(AskIn(3, 6)), Receive([6], Some(6), Filled()),
     Publish,
     Send(0, true), Advance(0), Accept]
  }

  lemma NamesOf(x: Intent, y: Intent, z: Intent)
    ensures Names([x]) == NameLength(x.status)
    ensures Names([x, y]) == NameLength(x.status) + NameLength(y.status)
    ensures Names([x, y, z]) == NameLength(x.status) + NameLength(y.status) + NameLength(z.status)
  {
    assert [x][1..] == [] && [x, y][1..] == [y] && [y][1..] == [];
    assert [x, y, z][1..] == [y, z] && [y, z][1..] == [z] && [z][1..] == [];
    assert Names([y, z]) == NameLength(y.status) + Names([z]);
  }

  lemma FilledCount()
    ensures RecordCount(Filled()) == MAXIMUM_STATE_BYTES - 25 && RecordCount([]) == 0
  {
    assert Filled()[1..] == [];
  }

  lemma SessionValid(x: Intent, progress: nat)
    requires progress <= 1
    requires x == Gone() || x == Opening(Prepared, 0) || x == Opening(Publishing, 1) || x == Later(progress)
             || x == Sent()
    ensures IntentValid(SomeHashes(), x, [6]) && (x.status == Discarded ==> IntentValid(SomeHashes(), x, []))
  {
    assert DeliveryValid(SomeHashes(), SomeDelivery().(nextPacketIndex := progress, accepted := progress == 1));
    assert DeliveryValid(SomeHashes(), SomeDelivery());
  }

  lemma ShortListValid(s: State)
    requires 1 <= s.generation <= 9 && 1 <= s.nextSequence <= 4 && s.sessions == [6] && s.activeSession == Some(6)
    requires |s.intents| <= 3 && SequencesIncrease(s.intents, s.nextSequence)
    requires forall i :: 0 <= i < |s.intents| ==>
               IntentValid(SomeHashes(), s.intents[i], [6]) && s.intents[i].transactionID == s.intents[i].sequence
    ensures StateValid(SomeHashes(), s)
  {
    hide IntentValid, PendingOnly;
    PendingBound(s.intents);
  }

  /** Every state of the run from the second session on is valid. */
  lemma TightValid(generation: nat, next: nat, intents: seq<Intent>, records: seq<seq<nat>>, progress: nat)
    requires 1 <= generation <= 9 && progress <= 1
    requires || (next == 3 && intents == [Gone(), Opening(Prepared, 0)])
             || (next == 4 && intents == [Gone(), Opening(Prepared, 0), Later(0)])
             || (next == 4 && intents == [Opening(Publishing, 1), Later(progress)])
             || (next == 4 && intents == [Opening(Publishing, 1), Sent()])
    ensures StateValid(SomeHashes(), InSix(generation, next, intents, records))
  {
    hide IntentValid, StateValid;
    forall i | 0 <= i < |intents| ensures IntentValid(SomeHashes(), intents[i], [6]) {
      SessionValid(intents[i], if intents[i] == Later(0) then 0 else progress);
    }
    ShortListValid(InSix(generation, next, intents, records));
  }

  /** Within the budget the run's candidates are saved as they are. */
  lemma TightSaves(generation: nat, next: nat, intents: seq<Intent>, records: seq<seq<nat>>, progress: nat)
    requires 1 <= generation <= 8 && progress <= 1 && (records == [] || records == Filled())
    requires || (next == 3 && intents == [Gone(), Opening(Prepared, 0)])
             || (next == 4 && intents == [Gone(), Opening(Prepared, 0), Later(0)])
             || (next == 4 && intents == [Opening(Publishing, 1), Later(progress)])
             || (next == 4 && intents == [Opening(Publishing, 1), Sent()])
    ensures Commit(Weighed(), InSix(generation, next, intents, records))
              == Some(InSix(generation + 1, next, intents, records))
  {
    hide StateValid, Commit, Names, RecordCount, Filled;
    TightValid(generation + 1, next, intents, records, progress);
    FilledCount();
    NamesOf(intents[0], intents[1], if |intents| == 3 then intents[2] else intents[0]);
    SaveFits(Weighed(), InSix(generation, next, intents, records));
  }

  lemma TightBegins()
    ensures Step(Weighed(), Tight(0), Prepare(AskIn(1, 5))) == Some(Tight(1))
  {
    hide StateValid, Commit;
    var s := Tight(0).state;
    assert PendingOnly(s.intents) == [];
    assert WithCapacity(s) == Some(s);
    assert [] + [First(Prepared, 0)] == [First(Prepared, 0)] && [] + [5] == [5];
    var c := StateOf(1, 2, [First(Prepared, 0)]);
    assert PrepareCandidate(s, AskIn(1, 5)) == Some(c);
    OneValid(2, First(Prepared, 0));
    NamesOf(First(Prepared, 0), Gone(), Gone());
    SaveFits(Weighed(), c);
    assert map[][5 := 1] == map[5 := 1] && {} + {5} == {5};
  }

  lemma TightDiscards()
    ensures Step(Weighed(), Tight(1), Discard(1)) == Some(Tight(2))
  {
    hide StateValid, Commit;
    var s := Tight(1).state;
    var c := State(2, None, [], 2, [Gone()], []);
    assert FindTransaction(s.intents, 1) == 0;
    assert !AnyAccepted([SomeDelivery()]);
    assert DiscardIntents(s.intents, s.intents[0]) == [Gone()];
    assert WithoutSession([5], 5) == [] by {
      assert [5][1..] == [];
    }
    assert DiscardCandidate(s, 1) == Ok(c);
    GoneValid();
    NamesOf(Gone(), Gone(), Gone());
    SaveFits(Weighed(), c);
  }

  lemma GoneValid()
    ensures StateValid(SomeHashes(), State(3, None, [], 2, [Gone()], []))
  {
    PendingBound([Gone()]);
  }

  lemma TightOpens()
    ensures Step(Weighed(), Tight(2), Prepare(AskIn(2, 6))) == Some(Tight(3))
  {
    hide StateValid, Commit, WithCapacity;
    var s := Tight(2).state;
    assert FindTransaction(s.intents, 2) == 1 by {
      assert s.intents[1..] == [];
    }
    FewHaveRoom(s);
    assert [] + [6] == [6] && [Gone()] + [Opening(Prepared, 0)] == [Gone(), Opening(Prepared, 0)];
    assert PrepareCandidate(s, AskIn(2, 6)) == Some(InSix(3, 3, [Gone(), Opening(Prepared, 0)], []));
    TightSaves(3, 3, [Gone(), Opening(Prepared, 0)], [], 0);
    assert map[5 := 1][6 := 2] == map[5 := 1, 6 := 2] && {5} + {6} == {5, 6};
  }

  lemma TightPrepares()
    ensures Step(Weighed(), Tight(3), Prepare(AskIn(3, 6))) == Some(Tight(4))
  {
    hide StateValid, Commit, WithCapacity;
    var s := Tight(3).state;
    assert FindTransaction(s.intents, 3) == 2 by {
      assert s.intents[1..] == [Opening(Prepared, 0)] && s.intents[1..][1..] == [];
    }
    FewHaveRoom(s);
    assert SomeDelivery().(nextPacketIndex := 0, accepted := false) == SomeDelivery();
    assert [Gone(), Opening(Prepared, 0)] + [Later(0)] == [Gone(), Opening(Prepared, 0), Later(0)];
    assert PrepareCandidate(s, AskIn(3, 6)) == Some(InSix(4, 4, [Gone(), Opening(Prepared, 0), Later(0)], []));
    TightSaves(4, 4, [Gone(), Opening(Prepared, 0), Later(0)], [], 0);
  }

  lemma TightFills()
    ensures Step(Weighed(), Tight(4), Receive([6], Some(6), Filled())) == Some(Tight(5))
  {
    hide StateValid, Commit, Filled;
    TightSaves(5, 4, [Gone(), Opening(Prepared, 0), Later(0)], Filled(), 0);
    var w := Tight(4);
    assert InboundSessions(w, [6], Some(6));
    assert w.state.(sessions := [6], activeSession := Some(6), records := Filled())
        == InSix(5, 4, [Gone(), Opening(Prepared, 0), Later(0)], Filled());
    SameUsed(w, [6]);
  }

  lemma SameUsed(w: World, sessions: seq<nat>)
    requires forall x :: x in sessions ==> x in w.log.used
    ensures w.log.(used := w.log.used + set x | x in sessions) == w.log
  {
    assert w.log.used + (set x | x in sessions) == w.log.used;
  }

  /** The candidate is two octets over the budget: the longer name of one status. */
  lemma TightPublishes()
    ensures Step(Weighed(), Tight(5), Publish) == Some(Tight(6)) && !Steady(Weighed(), Tight(5), Publish)
  {
    hide Commit, Filled, LengthCompacted, StateValid;
    var s := Tight(5).state;
    OpeningIsSecond(Opening(Prepared, 0));
    OpeningIsSecond(Opening(Publishing, 1));
    assert s.intents[1 := Opening(Publishing, 1)] == TightCandidate().intents;
    assert PublishCandidate(s) == Some(TightCandidate());
    TightTrims();
  }

  function TightCandidate(): State {
    InSix(6, 4, [Gone(), Opening(Publishing, 1), Later(0)], Filled())
  }

  lemma TightTrims()
    ensures LengthCompacted(TightCandidate()) == TightCandidate()
            && Weighed().size(TightCandidate()) > MAXIMUM_STATE_BYTES
    ensures Commit(Weighed(), TightCandidate()) == Some(InSix(7, 4, [Opening(Publishing, 1), Later(0)], Filled()))
  {
    hide StateValid, Filled, Names, RecordCount, PendingOnly, Target, CompactTerminal, DropOne;
    var c := TightCandidate();
    OpeningIsSecond(Opening(Publishing, 1));
    FilledCount();
    NamesOf(Gone(), Opening(Publishing, 1), Later(0));
    NamesOf(Opening(Publishing, 1), Later(0), Gone());
    TightIsShort();
    FrontGoesFirst(c);
    assert RemoveAt(c.intents, 0) == [Opening(Publishing, 1), Later(0)];
    var t := InSix(6, 4, [Opening(Publishing, 1), Later(0)], Filled());
    assert TrimToBudget(Weighed().size, c) == TrimToBudget(Weighed().size, t) == t;
    TightValid(7, 4, t.intents, Filled(), 0);
  }

  lemma TightIsShort()
    ensures LengthCompacted(TightCandidate()) == TightCandidate()
  {
    hide PendingOnly, Filled;
    var c := TightCandidate();
    ShortEnough(c.intents, Target(c.intents, 0));
    assert c.(intents := c.intents) == c;
  }

  lemma OpeningIsSecond(x: Intent)
    requires Blocking(x)
    ensures FirstBlocking([Gone(), x, Later(0)]) == 1
  {
    assert [Gone(), x, Later(0)][1..] == [x, Later(0)];
  }

  lemma TightSends()
    ensures Step(Weighed(), Tight(6), Send(0, true)) == Some(Tight(7))
  {
    hide Filled;
    assert SomeDelivery().(nextPacketIndex := 0, accepted := false) == SomeDelivery();
    assert [] + [Attempt(3, 0, 0, SomePacket(), true)] == [Attempt(3, 0, 0, SomePacket(), true)];
  }

  lemma TightAdvances()
    ensures Step(Weighed(), Tight(7), Advance(0)) == Some(Tight(8))
  {
    hide StateValid, Commit, Filled;
    var sent := Tight(7).attempts;
    assert sent[0] == Attempt(3, 0, 0, SomePacket(), true);
    assert Acknowledged(sent, 3, 0, 0);
    var after := SomeDelivery().(nextPacketIndex := 1, accepted := true);
    assert [SomeDelivery().(nextPacketIndex := 0, accepted := false)][0 := after] == [after];
    assert [Opening(Publishing, 1), Later(0)][1 := Later(1)] == [Opening(Publishing, 1), Later(1)];
    assert AdvanceCandidate(Tight(7).state, 1, 0) == InSix(7, 4, [Opening(Publishing, 1), Later(1)], Filled());
    TightSaves(7, 4, [Opening(Publishing, 1), Later(1)], Filled(), 1);
  }

  lemma TightAccepts()
    ensures Step(Weighed(), Tight(8), Accept) == Some(Tight(9))
  {
    hide StateValid, Commit, Filled;
    assert Later(1).deliveries[0].accepted;
    assert AnyAccepted(Later(1).deliveries);
    assert [Opening(Publishing, 1), Later(1)][1 := Sent()] == [Opening(Publishing, 1), Sent()];
    TightSaves(8, 4, [Opening(Publishing, 1), Sent()], Filled(), 0);
    assert [] + [Acceptance(6, 3)] == [Acceptance(6, 3)];
  }

  lemma TightStep(n: nat)
    requires n < 9
    ensures |TightScript()| == 9 && Step(Weighed(), Tight(n), TightScript()[n]) == Some(Tight(n + 1))
  {
    hide Step, Tight, Filled, Weighed, Steady, NamesAnother, AskIn;
    if n == 0 {
      TightBegins();
    } else if n == 1 {
      TightDiscards();
    } else if n == 2 {
      TightOpens();
    } else if n == 3 {
      TightPrepares();
    } else if n == 4 {
      TightFills();
    } else if n == 5 {
      TightPublishes();
    } else if n == 6 {
      TightSends();
    } else if n == 7 {
      TightAdvances();
    } else {
      TightAccepts();
    }
  }

  function TightWorlds(): seq<World> {
    seq(10, n requires 0 <= n < 10 => Tight(n))
  }

  /**
   * A byte budget that is full makes the save that marks an intent drop a
   * discarded one before it. The kept place then names the next intent, whose
   * packets are sent while the marked one still blocks it: it is accepted out of
   * order, and before the bootstrap of its session, which never failed.
   */
  lemma ByteBudgetShiftsIndex()
    ensures Initial(Weighed(), TightWorlds()[0]) && Trace(Weighed(), TightWorlds(), TightScript())
    ensures !Steady(Weighed(), TightWorlds()[5], Publish) && TightScript()[5] == Publish
            && NamesAnother(TightWorlds()[6], 2, 3)
    ensures Overtaken(TightWorlds()[9].state, 2, 3) && BootstrapOvertaken(TightWorlds()[9].log, 6, 2, 3)
  {
    hide Step, Tight, TightScript, Filled, Steady, NamesAnother, Overtaken, BootstrapOvertaken;
    TightStep(0);
    TightEnds();
    TightPublishes();
    forall n | 0 <= n < 9 ensures Step(Weighed(), TightWorlds()[n], TightScript()[n]) == Some(TightWorlds()[n + 1]) {
      TightStep(n);
    }
  }

  lemma TightEnds()
    ensures Initial(Weighed(), Tight(0)) && TightScript()[5] == Publish && NamesAnother(Tight(6), 2, 3)
    ensures Overtaken(Tight(9).state, 2, 3) && BootstrapOvertaken(Tight(9).log, 6, 2, 3)
  {
    hide Filled;
    assert PendingOnly([]) == [];
    assert FirstBlocking(Tight(6).state.intents) == 0;
    var intents := Tight(9).state.intents;
    assert Blocking(intents[0]) && intents[0].sequence == 2 && intents[1].status == RelayAccepted
      && intents[1].sequence == 3;
    assert Tight(9).log.acceptances[0] == Acceptance(6, 3);
  }

  /** One intent is being published, and the kept place names another. */
  predicate NamesAnother(w: World, published: nat, named: nat) {
    && w.index.Some? && w.index.value < |w.state.intents| && w.state.intents[w.index.value].sequence == named
    && Current(w.state).Some? && Current(w.state).value.status == Publishing
       && Current(w.state).value.sequence == published
    && published != named
  }

  /** An intent still blocks, and one behind it was accepted. */
  ghost predicate Overtaken(s: State, blocking: nat, accepted: nat) {
    exists i, j :: 0 <= i < j < |s.intents| && Blocking(s.intents[i]) && s.intents[i].sequence == blocking
                   && s.intents[j].status == RelayAccepted && s.intents[j].sequence == accepted
  }

  /** An intent of a session opened here was accepted, its bootstrap neither was nor failed for good. */
  predicate BootstrapOvertaken(log: Log, session: nat, bootstrap: nat, accepted: nat) {
    && session in log.bootstraps && log.bootstraps[session] == bootstrap && bootstrap !in log.failed
    && Acceptance(session, accepted) in log.acceptances && Acceptance(session, bootstrap) !in log.acceptances
  }

  // ---- A discard can answer with another intent ----

  /** Removing a compactable entry at or before a place leaves a later entry there, or none. */
  lemma RemovedBefore(intents: seq<Intent>, after: seq<Intent>, next: nat, i: nat)
    requires SequencesIncrease(intents, next) && i < |intents| && CanBeCompacted(intents, i)
    requires Subsequence(after, RemoveAt(intents, FirstCompactable(intents, 0)))
    ensures i < |after| ==> after[i].sequence > intents[i].sequence
  {
    hide CanBeCompacted, Subsequence;
    var j := FirstCompactable(intents, 0);
    var rest := RemoveAt(intents, j);
    if i < |after| {
      var p := SubsequenceMember(after, rest, i);
      assert rest[p] == intents[p + 1];
    }
  }

  /**
   * Whatever a save removes of a candidate, for its length or for its bytes, the
   * first compactable entry is among it.
   */
  lemma SaveRemovesFirst(size: State -> nat, c: State)
    requires FirstCompactable(c.intents, 0) < |c.intents|
    requires |c.intents| > Target(c.intents, 0) || size(c) > MAXIMUM_STATE_BYTES
    ensures Subsequence(Compacted(size, c).intents, RemoveAt(c.intents, FirstCompactable(c.intents, 0)))
  {
    hide CanBeCompacted, Subsequence, PendingOnly, Target, RemoveAt, FirstCompactable;
    var target := Target(c.intents, 0);
    var rest := RemoveAt(c.intents, FirstCompactable(c.intents, 0));
    if |c.intents| > target {
      CompactTerminalKeeps(rest, target);
      TrimToBudgetTrims(size, LengthCompacted(c));
      SubsequenceTransitive(Compacted(size, c).intents, LengthCompacted(c).intents, rest);
    } else {
      ShortEnough(c.intents, target);
      assert c.(intents := c.intents) == c;
      TrimToBudgetTrims(size, c.(intents := rest));
    }
  }

  /**
   * The intent a discard answers with is the discarded one exactly when the
   * candidate fits both its length bound, which then counts one pending intent
   * fewer, and the byte budget.
   */
  lemma DiscardAnswersItself(size: State -> nat, s: State, transactionID: nat)
    requires SequencesIncrease(s.intents, s.nextSequence) && DiscardCandidate(s, transactionID).Ok?
    ensures var i := FindTransaction(s.intents, transactionID);
            var c := DiscardCandidate(s, transactionID).value;
            var saved := Compacted(size, c).intents;
            (i < |saved| && saved[i].sequence == s.intents[i].sequence)
            <==> |c.intents| <= Target(c.intents, 0) && size(c) <= MAXIMUM_STATE_BYTES
  {
    hide PendingOnly, Target, CompactTerminal, CanBeCompacted, Subsequence, TrimToBudget;
    var i := FindTransaction(s.intents, transactionID);
    var c := DiscardCandidate(s, transactionID).value;
    DiscardedCompacts(s, c, transactionID);
    if |c.intents| > Target(c.intents, 0) || size(c) > MAXIMUM_STATE_BYTES {
      SaveRemovesFirst(size, c);
      RemovedBefore(c.intents, Compacted(size, c).intents, s.nextSequence, i);
    } else {
      ShortEnough(c.intents, Target(c.intents, 0));
      NothingToTrim(size, c);
    }
  }

  lemma NothingToTrim(size: State -> nat, c: State)
    requires size(c) <= MAXIMUM_STATE_BYTES && LengthCompacted(c).intents == c.intents
    ensures Compacted(size, c) == c
  {
    hide CompactTerminal, Target;
    assert c.(intents := c.intents) == c;
  }

  /** 256 intents that were discarded, and one that was not yet. */
  function Crowd(last: Status): seq<Intent> {
    seq(256, i requires 0 <= i < 256 => Intent(i + 1, 5, i + 1, 0, false, None, [], Discarded, 0))
    + [Intent(257, 5, 257, 0, false, if last == Prepared then Some(Ordinary) else None,
              if last == Prepared then [SomeDelivery()] else [], last, 0)]
  }

  /**
   * A full outbox with one pending intent is valid; discarding that one puts it
   * over its bound, and the answer names no intent.
   */
  lemma DiscardCanMissItself()
    ensures var s := StateOf(1, 258, Crowd(Prepared)); var c := DiscardCandidate(s, 257);
            && StateValid(Weightless().h, s) && |s.intents| == PendingCount(s.intents) + 256
            && FindTransaction(s.intents, 257) == 256 && c.Ok? && |c.value.intents| > Target(c.value.intents, 0)
            && Commit(Weightless(), c.value).Some? && |Commit(Weightless(), c.value).value.intents| == 256
  {
    hide StateValid, Commit, PendingOnly, DiscardCandidate, FindTransaction, CompactTerminal, Target;
    CrowdCounts();
    CrowdValid(1, Prepared);
    CrowdDiscards();
    CrowdCompacts();
    SavedCrowd();
  }

  lemma CrowdDiscards()
    ensures FindTransaction(Crowd(Prepared), 257) == 256
    ensures DiscardCandidate(StateOf(1, 258, Crowd(Prepared)), 257) == Ok(StateOf(1, 258, Crowd(Discarded)))
  {
    hide FindTransaction;
    var s := StateOf(1, 258, Crowd(Prepared));
    FindLast(s.intents, 256);
    var named := s.intents[256];
    assert named == Intent(257, 5, 257, 0, false, Some(Ordinary), [SomeDelivery()], Prepared, 0);
    assert DiscardIntents(s.intents, named) == Crowd(Discarded);
  }

  lemma CrowdCounts()
    ensures PendingOnly(Crowd(Prepared)) == [Crowd(Prepared)[256]] && PendingOnly(Crowd(Discarded)) == []
            && |Crowd(Prepared)| == 257
  {
    hide PendingOnly;
    var front := Crowd(Prepared)[..256];
    assert Crowd(Prepared) == front + [Crowd(Prepared)[256]];
    PendingOnlyAppend(front, [Crowd(Prepared)[256]]);
    NonePending(front);
    OnePending(Crowd(Prepared)[256]);
    NonePending(Crowd(Discarded));
  }

  lemma CrowdValid(generation: nat, last: Status)
    requires 1 <= generation <= 9 && last == Prepared
    ensures StateValid(SomeHashes(), StateOf(generation, 258, Crowd(last)))
  {
    hide PendingOnly;
    CrowdCounts();
    assert DeliveryValid(SomeHashes(), SomeDelivery());
    var intents := Crowd(last);
    forall i | 0 <= i < |intents| ensures IntentValid(SomeHashes(), intents[i], [5]) {
    }
  }

  lemma {:induction false} FindLast(intents: seq<Intent>, n: nat)
    requires n < |intents| && forall i :: 0 <= i < n ==> intents[i].transactionID != intents[n].transactionID
    ensures FindTransaction(intents, intents[n].transactionID) == n
    decreases n
  {
    if n > 0 {
      FindLast(intents[1..], n - 1);
    }
  }

  lemma CrowdCompacts()
    ensures Target(Crowd(Discarded), 0) == 256
    ensures CompactTerminal(Crowd(Discarded), 256) == Crowd(Discarded)[1..]
  {
    hide PendingOnly;
    CrowdCounts();
    var intents := Crowd(Discarded);
    assert FirstCompactable(intents, 0) == 0;
    assert RemoveAt(intents, 0) == intents[1..];
    ShortEnough(intents[1..], 256);
  }

  lemma SavedCrowd()
    ensures Commit(Weightless(), StateOf(1, 258, Crowd(Discarded))) == Some(StateOf(2, 258, Crowd(Discarded)[1..]))
  {
    hide StateValid, PendingOnly, CompactTerminal, Target;
    CrowdCompacts();
    RestOfCrowdValid();
  }

  lemma RestOfCrowdValid()
    ensures StateValid(SomeHashes(), StateOf(2, 258, Crowd(Discarded)[1..]))
  {
    hide PendingOnly;
    hide IntentValid;
    var t := StateOf(2, 258, Crowd(Discarded)[1..]);
    NonePending(t.intents);
    forall i | 0 <= i < |t.intents| ensures IntentValid(SomeHashes(), t.intents[i], [5]) {
      DiscardedOfCrowd(i + 1);
    }
  }

  lemma DiscardedOfCrowd(i: nat)
    requires i < |Crowd(Discarded)|
    ensures IntentValid(SomeHashes(), Crowd(Discarded)[i], [5])
  {
  }

  lemma DiscardedCompacts(s: State, c: State, transactionID: nat)
    requires SequencesIncrease(s.intents, s.nextSequence) && DiscardCandidate(s, transactionID) == Ok(c)
    ensures var i := FindTransaction(s.intents, transactionID);
            && |c.intents| == |s.intents| && i < |c.intents| && CanBeCompacted(c.intents, i)
            && c.intents[i].sequence == s.intents[i].sequence && SequencesIncrease(c.intents, s.nextSequence)
  {
    hide AnyAccepted, AbandonsBootstrap, WithoutSession;
    var named := s.intents[FindTransaction(s.intents, transactionID)];
    assert c.intents == DiscardIntents(s.intents, named);
    forall k | 0 <= k < |s.intents| ensures c.intents[k].sequence == s.intents[k].sequence {
    }
  }

  // ---- Eviction can build a candidate the guard refuses ----

  /** Every intent that is not discarded still has its session. */
  predicate SessionsCovered(c: State) {
    forall k :: 0 <= k < |c.intents| && c.intents[k].status != Discarded ==> c.intents[k].sessionID in c.sessions
  }

  /** What is refused is decided on what compaction leaves of the candidate. */
  lemma RefusedUncovered(e: Platform, c: State)
    requires !SessionsCovered(Compacted(e.size, c))
    ensures Commit(e, c).None?
  {
    hide IntentValid, PendingOnly, Compacted;
    var t := Compacted(e.size, c);
    var k :| 0 <= k < |t.intents| && t.intents[k].status != Discarded && t.intents[k].sessionID !in t.sessions;
    UncoveredInvalid(e.h, t.intents[k], t.sessions);
  }

  lemma UncoveredInvalid(h: Hashes, x: Intent, sessions: seq<nat>)
    requires x.status != Discarded && x.sessionID !in sessions
    ensures !IntentValid(h, x, sessions)
  {
  }

  /** What sealing produced for the routes of a request, as saving checks it. */
  predicate RequestValid(h: Hashes, r: Request) {
    && 0 < |r.deliveries| <= 8
    && (forall d :: 0 <= d < |r.deliveries| ==> DeliveryValid(h, r.deliveries[d]))
    && (forall c, d :: 0 <= c < d < |r.deliveries| ==> r.deliveries[c].routeID != r.deliveries[d].routeID)
  }

  /** The candidate of a preparation that evicts a session, and what it evicts. */
  ghost predicate Evicts(s: State, r: Request, roomy: State, evicted: nat, c: State) {
    && WithCapacity(s) == Some(roomy) && roomy.sessions == s.sessions && Subsequence(roomy.intents, s.intents)
    && evicted in s.sessions && !Protected(roomy, evicted)
    && c.intents == roomy.intents + [NewIntent(s, r, r.freshSession, true)]
    && (forall x :: x in c.sessions <==> (x in s.sessions && x != evicted) || x == r.freshSession)
    && |c.sessions| == MAXIMUM_SESSIONS && (forall i, j :: 0 <= i < j < |c.sessions| ==> c.sessions[i] != c.sessions[j])
    && c.generation == s.generation && c.nextSequence == s.nextSequence + 1
    && c.activeSession == (if r.retiresSession then None else Some(r.freshSession))
    && PendingCount(roomy.intents) < MAXIMUM_PENDING_INTENTS && |roomy.intents| < MAXIMUM_RETAINED_INTENTS
    && forall i :: 0 <= i < |s.intents| ==> s.intents[i].transactionID != r.transactionID
  }

  lemma EvictionFacts(h: Hashes, s: State, r: Request) returns (roomy: State, evicted: nat)
    requires StateValid(h, s) && s.activeSession.None? && |s.sessions| == MAXIMUM_SESSIONS
             && r.freshSession !in s.sessions
    requires PrepareCandidate(s, r).Some?
    ensures Evicts(s, r, roomy, evicted, PrepareCandidate(s, r).value)
    ensures evicted == s.sessions[FirstUnprotected(roomy, 0)]
  {
    hide PendingOnly, SequencesIncrease, IntentValid, CompactTerminal, Target, Protected, FreshDeliveries;
    roomy := WithCapacity(s).value;
    CompactTerminalKeeps(s.intents, Target(s.intents, 1));
    var i := FirstUnprotected(roomy, 0);
    evicted := s.sessions[i];
    var u := roomy.(sessions := RemoveAt(roomy.sessions, i));
    assert ReserveSession(roomy) == ReserveSession(u) == Some(u);
    EvictedOnly(s.sessions, i);
    var c := PrepareCandidate(s, r).value;
    assert c.sessions == u.sessions + [r.freshSession];
  }

  lemma EvictedOnly(sessions: seq<nat>, i: nat)
    requires i < |sessions| && forall j, k :: 0 <= j < k < |sessions| ==> sessions[j] != sessions[k]
    ensures forall x :: x in RemoveAt(sessions, i) <==> x in sessions && x != sessions[i]
    ensures forall j, k :: 0 <= j < k < |RemoveAt(sessions, i)| ==> RemoveAt(sessions, i)[j] != RemoveAt(sessions, i)[k]
  {
    forall x | x in sessions && x != sessions[i] ensures x in RemoveAt(sessions, i) {
      StaysWithout(sessions, i, x);
    }
  }

  /** Nothing but a session that is missing can be wrong with an intent of the candidate. */
  lemma CandidateIntent(h: Hashes, s: State, r: Request, roomy: State, evicted: nat, c: State, x: Intent)
    requires StateValid(h, s) && RequestValid(h, r) && Evicts(s, r, roomy, evicted, c) && x in c.intents
    ensures forall sessions :: (x.status == Discarded || x.sessionID in sessions) ==> IntentValid(h, x, sessions)
    ensures x.status == Discarded || x.sessionID in c.sessions || (x.sessionID == evicted && x.status == RelayAccepted)
    ensures evicted in c.sessions ==> evicted == r.freshSession
  {
    hide PendingOnly, Subsequence, SequencesIncrease, DeliveryValid;
    var k :| 0 <= k < |c.intents| && c.intents[k] == x;
    if k < |roomy.intents| {
      assert roomy.intents[k] == x;
      var p := SubsequenceMember(roomy.intents, s.intents, k);
      assert IntentValid(h, s.intents[p], s.sessions);
    }
  }

  /** Everything else that saving checks of the candidate holds of whatever compaction leaves of it. */
  lemma RestIsValid(e: Platform, s: State, r: Request, roomy: State, evicted: nat, c: State)
    requires StateValid(e.h, s) && RequestValid(e.h, r) && Evicts(s, r, roomy, evicted, c)
    requires s.generation < MAX_SAFE_INTEGER && s.nextSequence < MAX_SAFE_INTEGER
    requires SessionsCovered(Compacted(e.size, c))
    ensures StateValid(e.h, Compacted(e.size, c).(generation := c.generation + 1))
  {
    hide PendingOnly, Subsequence, IntentValid, DeliveryValid, Compacted, Protected, RequestValid;
    var t := Compacted(e.size, c);
    CompactionTrims(e.size, c);
    Members(t.intents, c.intents);
    Members(t.sessions, c.sessions);
    SubsequenceShorter(t.intents, c.intents);
    SubsequenceShorter(t.sessions, c.sessions);
    CandidateIncreases(s, r, roomy, evicted, c);
    TrimKeepsOrder(t.intents, c.intents, c.nextSequence);
    DistinctStay(t.sessions, c.sessions);
    forall i | 0 <= i < |t.intents| ensures IntentValid(e.h, t.intents[i], t.sessions) {
      CandidateIntent(e.h, s, r, roomy, evicted, c, t.intents[i]);
    }
    forall i, j | 0 <= i < j < |t.intents| ensures t.intents[i].transactionID != t.intents[j].transactionID {
      var p, q := SubsequencePair(t.intents, c.intents, i, j);
      CandidateTransactions(e.h, s, r, roomy, evicted, c, p, q);
    }
    CandidatePending(s, r, roomy, evicted, c);
    assert t.activeSession.Some? ==> Needed(t, t.activeSession.value);
  }

  lemma DistinctStay(a: seq<nat>, b: seq<nat>)
    requires Subsequence(a, b) && forall i, j :: 0 <= i < j < |b| ==> b[i] != b[j]
    ensures forall i, j :: 0 <= i < j < |a| ==> a[i] != a[j]
  {
    hide Subsequence;
    forall i, j | 0 <= i < j < |a| ensures a[i] != a[j] {
      var p, q := SubsequencePair(a, b, i, j);
    }
  }

  lemma CandidateIncreases(s: State, r: Request, roomy: State, evicted: nat, c: State)
    requires SequencesIncrease(s.intents, s.nextSequence) && Evicts(s, r, roomy, evicted, c)
    ensures SequencesIncrease(c.intents, c.nextSequence)
  {
    hide Subsequence, PendingOnly, Protected;
    TrimKeepsOrder(roomy.intents, s.intents, s.nextSequence);
  }

  lemma CandidateTransactions(h: Hashes, s: State, r: Request, roomy: State, evicted: nat, c: State, p: nat, q: nat)
    requires StateValid(h, s) && Evicts(s, r, roomy, evicted, c) && p < q < |c.intents|
    ensures c.intents[p].transactionID != c.intents[q].transactionID
  {
    hide Subsequence, PendingOnly, Protected, IntentValid, SequencesIncrease;
    assert c.intents[p] == roomy.intents[p];
    if q < |roomy.intents| {
      var i, j := SubsequencePair(roomy.intents, s.intents, p, q);
    } else {
      var i := SubsequenceMember(roomy.intents, s.intents, p);
    }
  }

  lemma CandidatePending(s: State, r: Request, roomy: State, evicted: nat, c: State)
    requires Evicts(s, r, roomy, evicted, c)
    ensures PendingCount(c.intents) <= MAXIMUM_PENDING_INTENTS
  {
    hide Subsequence, PendingOnly, Protected;
    PendingOnlyAppend(roomy.intents, [NewIntent(s, r, r.freshSession, true)]);
    OnePending(NewIntent(s, r, r.freshSession, true));
  }

  /**
   * Four sessions and none active: preparing evicts the first session nothing
   * protects, and the save goes through exactly when what compaction leaves is
   * within the byte budget and no relay-accepted intent in it belongs to the
   * evicted session.
   */
  lemma EvictionPassesExactly(e: Platform, s: State, r: Request) returns (roomy: State, evicted: nat)
    requires StateValid(e.h, s) && s.activeSession.None? && |s.sessions| == MAXIMUM_SESSIONS
             && r.freshSession !in s.sessions
    requires s.generation < MAX_SAFE_INTEGER && s.nextSequence < MAX_SAFE_INTEGER
    requires RequestValid(e.h, r) && PrepareCandidate(s, r).Some?
    ensures WithCapacity(s) == Some(roomy) && roomy.sessions == s.sessions
            && evicted == s.sessions[FirstUnprotected(roomy, 0)]
    ensures var c := PrepareCandidate(s, r).value;
            Commit(e, c).Some? <==>
            && e.size(Compacted(e.size, c).(generation := c.generation + 1)) <= MAXIMUM_STATE_BYTES
            && forall x :: x in Compacted(e.size, c).intents && x.status == RelayAccepted ==> x.sessionID != evicted
  {
    hide PendingOnly, SequencesIncrease, Subsequence, IntentValid, Compacted, StateValid, PrepareCandidate;
    hide RequestValid, Protected, DeliveryValid, Needed;
    roomy, evicted := EvictionFacts(e.h, s, r);
    var c := PrepareCandidate(s, r).value;
    var t := Compacted(e.size, c);
    CompactionTrims(e.size, c);
    Members(t.intents, c.intents);
    Members(t.sessions, c.sessions);
    EvictedMember(t.intents, evicted);
    forall k | 0 <= k < |t.intents| && t.intents[k].status != Discarded
      ensures t.intents[k].sessionID in t.sessions <==>
                !(t.intents[k].status == RelayAccepted && t.intents[k].sessionID == evicted)
    {
      var x := t.intents[k];
      assert x in t.intents && x in c.intents;
      CandidateIntent(e.h, s, r, roomy, evicted, c, x);
      NeededHere(t, k);
    }
    if SessionsCovered(t) {
      RestIsValid(e, s, r, roomy, evicted, c);
    } else {
      RefusedUncovered(e, c);
    }
  }

  /**
   * The same on the state before the call, when neither bound trims anything:
   * the outbox has room, the candidate fits the byte budget, and then the save
   * goes through exactly when no relay-accepted intent belongs to the first
   * session that nothing protects.
   */
  lemma EvictionPassesUntrimmed(e: Platform, s: State, r: Request)
    requires StateValid(e.h, s) && s.activeSession.None? && |s.sessions| == MAXIMUM_SESSIONS
             && r.freshSession !in s.sessions
    requires s.generation < MAX_SAFE_INTEGER && s.nextSequence < MAX_SAFE_INTEGER
    requires RequestValid(e.h, r) && PrepareCandidate(s, r).Some?
    requires |s.intents| <= Target(s.intents, 1)
    requires var c := PrepareCandidate(s, r).value;
             e.size(c) <= MAXIMUM_STATE_BYTES && e.size(c.(generation := c.generation + 1)) <= MAXIMUM_STATE_BYTES
    ensures var i := FirstUnprotected(s, 0);
            && i < |s.sessions|
            && (Commit(e, PrepareCandidate(s, r).value).Some? <==>
                forall x :: x in s.intents && x.status == RelayAccepted ==> x.sessionID != s.sessions[i])
  {
    hide PendingOnly, StateValid, PrepareCandidate, RequestValid, Protected, CompactTerminal, Commit, Target;
    hide Compacted;
    var roomy, evicted := EvictionPassesExactly(e, s, r);
    ShortEnough(s.intents, Target(s.intents, 1));
    assert s.(intents := s.intents) == s;
    assert roomy == s;
    CandidateFits(e.h, s, r);
    var c := PrepareCandidate(s, r).value;
    ShortEnough(c.intents, Target(c.intents, 0));
    NothingToTrim(e.size, c);
    assert c.intents == s.intents + [NewIntent(s, r, r.freshSession, true)];
  }

  /** One more pending intent has its own room below the length bound of a save. */
  lemma CandidateFits(h: Hashes, s: State, r: Request)
    requires StateValid(h, s) && s.activeSession.None? && |s.sessions| == MAXIMUM_SESSIONS
             && r.freshSession !in s.sessions
    requires PrepareCandidate(s, r).Some? && |s.intents| <= Target(s.intents, 1)
    ensures var c := PrepareCandidate(s, r).value;
            && c.intents == s.intents + [NewIntent(s, r, r.freshSession, true)] && |c.intents| <= Target(c.intents, 0)
            && FirstUnprotected(s, 0) < |s.sessions|
  {
    hide PendingOnly, StateValid, PrepareCandidate, Protected, Subsequence;
    ShortEnough(s.intents, Target(s.intents, 1));
    assert s.(intents := s.intents) == s;
    var roomy, evicted := EvictionFacts(h, s, r);
    assert roomy == s;
    PendingOnlyAppend(s.intents, [NewIntent(s, r, r.freshSession, true)]);
    OnePending(NewIntent(s, r, r.freshSession, true));
    MissingProtects(s, evicted);
  }

  lemma MissingProtects(s: State, evicted: nat)
    requires evicted in s.sessions && !Protected(s, evicted)
    ensures FirstUnprotected(s, 0) < |s.sessions|
  {
    hide Protected;
    var k :| 0 <= k < |s.sessions| && s.sessions[k] == evicted;
  }

  lemma NeededHere(t: State, k: nat)
    requires k < |t.intents|
    ensures Needed(t, t.intents[k].sessionID)
  {
  }

  lemma EvictedMember(intents: seq<Intent>, evicted: nat)
    ensures (forall x :: x in intents && x.status == RelayAccepted ==> x.sessionID != evicted)
       <==> (forall k :: 0 <= k < |intents| && intents[k].status == RelayAccepted ==> intents[k].sessionID != evicted)
  {
  }

  function Crowded(): State {
    State(1, None, [5, 6, 7, 8], 2, [Intent(1, 5, 1, 0, false, None, [], RelayAccepted, 1)], [])
  }

  /** A valid state with four sessions and one accepted intent: no new session can be opened at all. */
  lemma EvictionCanBeRefused()
    ensures StateValid(Weightless().h, Crowded()) && RequestValid(Weightless().h, AskIn(2, 9))
    ensures var c := PrepareCandidate(Crowded(), AskIn(2, 9));
            c.Some? && c.value.sessions == [6, 7, 8, 9] && Commit(Weightless(), c.value).None?
  {
    hide StateValid, Commit, PrepareCandidate;
    CrowdedIsValid();
    CrowdedEvicts();
    CrowdedIsRefused();
  }

  /** The candidate: the first session gave way to a new one. */
  function CrowdedCandidate(): State {
    State(1, Some(9), [6, 7, 8, 9], 3, Crowded().intents + [NewIntent(Crowded(), AskIn(2, 9), 9, true)], [])
  }

  lemma CrowdedIsValid()
    ensures StateValid(SomeHashes(), Crowded()) && RequestValid(SomeHashes(), AskIn(2, 9))
  {
    PendingBound(Crowded().intents);
    assert DeliveryValid(SomeHashes(), SomeDelivery());
  }

  lemma CrowdedIsNew()
    ensures FindTransaction(Crowded().intents, 2) == |Crowded().intents| == 1
  {
    assert Crowded().intents[1..] == [];
  }

  lemma CrowdedMakesRoom()
    ensures ReserveSession(Crowded()) == Some(Crowded().(sessions := [6, 7, 8]))
  {
    var s := Crowded();
    var u := s.(sessions := [6, 7, 8]);
    assert FirstUnprotected(s, 0) == 0 && RemoveAt(s.sessions, 0) == [6, 7, 8];
    assert ReserveSession(s) == ReserveSession(u) == Some(u);
  }

  lemma CrowdedEvicts()
    ensures PrepareCandidate(Crowded(), AskIn(2, 9)) == Some(CrowdedCandidate())
  {
    hide WithCapacity, ReserveSession, FindTransaction, NewIntent;
    CrowdedIsNew();
    FewHaveRoom(Crowded());
    CrowdedMakesRoom();
    assert [6, 7, 8] + [9] == [6, 7, 8, 9];
  }

  lemma CrowdedIsRefused()
    ensures Commit(Weightless(), CrowdedCandidate()).None?
  {
    hide PendingOnly, StateValid;
    var c := CrowdedCandidate();
    ShortEnough(c.intents, Target(c.intents, 0));
    NothingToTrim(Weightless().size, c);
    assert c.intents[0] == Crowded().intents[0] && c.intents[0].sessionID == 5;
    RefusedUncovered(Weightless(), c);
  }
}
