/**
 * Every run of the durable outbox (src/durable-pairwise-messaging-v2.js). An
 * action is one save or one packet handed to a relay, so a crash is a run that
 * stops after any action, and restarting continues from the last saved state.
 */
module OutboxHistory {
  import opened Wrappers
  import opened Collections
  import opened PacketFrame
  import opened PacketSealing
  import opened Outbox

  /** One packet handed to a relay; `accepted` says whether the relay took it, whoever learns of it. */
  datatype Attempt = Attempt(sequence: nat, delivery: nat, index: nat, packet: Packet, accepted: bool)

  datatype Acceptance = Acceptance(sessionID: nat, sequence: nat)

  /**
   * What happened so far: intents published, sessions opened here with the
   * sequence of their bootstrap intent, every session identifier ever used,
   * and the bootstrap intents that failed for good.
   */
  datatype Log = Log(acceptances: seq<Acceptance>, bootstraps: map<nat, nat>, used: set<nat>, failed: set<nat>)

  /**
   * `index` is the place of the intent being published: the loop finds it once
   * and keeps it over every save of a turn. Nothing else runs meanwhile, so any
   * other action means that the turn ended, by itself or by a failure.
   */
  datatype World = World(state: State, attempts: seq<Attempt>, log: Log, index: Option<nat>)

  /** A logical request, what sealing produced for its routes, and the identifier a new session would get. */
  datatype Request = Request(
    transactionID: nat,
    content: nat,
    control: bool,
    retiresSession: bool,
    deliveries: seq<Delivery>,
    freshSession: nat)

  datatype Action =
    | Prepare(request: Request)
    | Receive(sessions: seq<nat>, activeSession: Option<nat>, records: seq<seq<nat>>)
    | Publish
    | Refresh(delivery: nat, at: int, nonce: Id)
    | Send(delivery: nat, relayAccepts: bool)
    | Advance(delivery: nat)
    | Accept
    | Fail(deterministic: bool)
    | Discard(transactionID: nat)

  // ---- Candidates ----

  function FindTransaction(intents: seq<Intent>, transactionID: nat): (i: nat)
    ensures i <= |intents| && (i < |intents| ==> intents[i].transactionID == transactionID)
    ensures forall k :: 0 <= k < i ==> intents[k].transactionID != transactionID
  {
    if intents == [] then 0
    else if intents[0].transactionID == transactionID then 0
    else
      var rest := FindTransaction(intents[1..], transactionID);
      assert forall k :: 1 <= k < rest + 1 ==> intents[k] == intents[1..][k - 1];
      rest + 1
  }

  predicate FreshDeliveries(deliveries: seq<Delivery>) {
    forall d :: 0 <= d < |deliveries| ==> deliveries[d].nextPacketIndex == 0 && !deliveries[d].accepted
  }

  /** The outbox with room for one more intent. */
  function WithCapacity(s: State): Option<State> {
    var compact := s.(intents := CompactTerminal(s.intents, Target(s.intents, 1)));
    if |compact.intents| >= MAXIMUM_RETAINED_INTENTS
      || PendingCount(compact.intents) >= MAXIMUM_PENDING_INTENTS then None
    else Some(compact)
  }

  /** The session the next envelope uses: the active one, or one opened for it. */
  function WithSession(s: State, freshSession: nat): Option<State> {
    if s.activeSession.Some? then Some(s)
    else
      match ReserveSession(s)
      case None => None
      case Some(t) => Some(t.(sessions := t.sessions + [freshSession], activeSession := Some(freshSession)))
  }

  function NewIntent(s: State, r: Request, session: nat, opens: bool): Intent {
    Intent(s.nextSequence, session, r.transactionID, r.content, r.control,
           Some(if opens then SignedPrekeyBootstrap else Ordinary), r.deliveries, Prepared, 0)
  }

  function PrepareCandidate(s: State, r: Request): Option<State> {
    if FindTransaction(s.intents, r.transactionID) < |s.intents| || r.deliveries == []
      || !FreshDeliveries(r.deliveries) then
      None
    else
      match WithCapacity(s)
      case None => None
      case Some(roomy) =>
        match WithSession(roomy, r.freshSession)
        case None => None
        case Some(t) =>
          if t.activeSession.None? then None
          else
            var intent := NewIntent(s, r, t.activeSession.value, s.activeSession.None?);
            Some(t.(nextSequence := s.nextSequence + 1, intents := t.intents + [intent],
                    activeSession := if r.retiresSession then None else t.activeSession))
  }

  function Current(s: State): Option<Intent> {
    var i := FirstBlocking(s.intents);
    if i < |s.intents| then Some(s.intents[i]) else None
  }

  function WithIntent(s: State, i: nat, x: Intent): State
    requires i < |s.intents|
  {
    s.(intents := s.intents[i := x])
  }

  function WithCurrent(s: State, x: Intent): State
    requires FirstBlocking(s.intents) < |s.intents|
  {
    WithIntent(s, FirstBlocking(s.intents), x)
  }

  function PublishCandidate(s: State): Option<State> {
    match Current(s)
    case None => None
    case Some(x) =>
      if x.status == PermanentFailure then None
      else
        var attempts := if x.attemptCount + 1 < MAXIMUM_ATTEMPTS then x.attemptCount + 1 else MAXIMUM_ATTEMPTS;
        Some(WithCurrent(s, x.(status := Publishing, attemptCount := attempts)))
  }

  /** A delivery of the intent at the kept place has a packet to send next, whatever intent that is by now. */
  predicate Deliverable(s: State, i: nat, d: nat) {
    && i < |s.intents| && d < |s.intents[i].deliveries|
    && var delivery := s.intents[i].deliveries[d];
       !delivery.accepted && delivery.nextPacketIndex < |delivery.packets|
  }

  function NextPacket(s: State, i: nat, d: nat): Packet
    requires Deliverable(s, i, d)
  {
    var delivery := s.intents[i].deliveries[d];
    delivery.packets[delivery.nextPacketIndex]
  }

  function WithDelivery(s: State, i: nat, d: nat, delivery: Delivery): State
    requires Deliverable(s, i, d)
  {
    var x := s.intents[i];
    WithIntent(s, i, x.(deliveries := x.deliveries[d := delivery]))
  }

  function RefreshCandidate(h: Hashes, s: State, i: nat, d: nat, at: int, nonce: Id): Option<State> {
    if !Deliverable(s, i, d) || !SendProofExpired(NextPacket(s, i, d), at) then None
    else
      var delivery := s.intents[i].deliveries[d];
      match RefreshSendProof(h, NextPacket(s, i, d), delivery.routeID, delivery.sendCapability, at, nonce)
      case Err(_) => None
      case Ok(packet) =>
        Some(WithDelivery(s, i, d, delivery.(packets := delivery.packets[delivery.nextPacketIndex := packet])))
  }

  function AdvanceCandidate(s: State, i: nat, d: nat): State
    requires Deliverable(s, i, d)
  {
    var delivery := s.intents[i].deliveries[d];
    WithDelivery(s, i, d, delivery.(nextPacketIndex := delivery.nextPacketIndex + 1,
                                    accepted := delivery.nextPacketIndex + 1 == |delivery.packets|))
  }

  predicate AnyAccepted(deliveries: seq<Delivery>) {
    exists d :: 0 <= d < |deliveries| && deliveries[d].accepted
  }

  function AcceptCandidate(s: State, i: nat): Option<State> {
    if i >= |s.intents| || !AnyAccepted(s.intents[i].deliveries) then None
    else Some(WithIntent(s, i, s.intents[i].(status := RelayAccepted, envelope := None, deliveries := [])))
  }

  predicate HasDependent(s: State, i: nat)
    requires i < |s.intents|
  {
    PendingInSession(s.intents[i + 1..], s.intents[i].sessionID)
  }

  function FailCandidate(s: State, i: nat, deterministic: bool): Option<State> {
    if i >= |s.intents| || AnyAccepted(s.intents[i].deliveries) then None
    else if deterministic && !HasDependent(s, i) then
      Some(WithIntent(s, i, s.intents[i].(status := PermanentFailure, envelope := None, deliveries := [])))
    else
      Some(WithIntent(s, i, s.intents[i].(status := RetryableFailure)))
  }

  function Discarding(x: Intent): Intent {
    x.(status := Discarded, envelope := None, deliveries := [])
  }

  predicate AbandonsBootstrap(x: Intent) {
    x.envelope == Some(SignedPrekeyBootstrap)
  }

  predicate Doomed(named: Intent, x: Intent) {
    x.sequence == named.sequence || (AbandonsBootstrap(named) && x.sessionID == named.sessionID)
  }

  function DiscardIntents(intents: seq<Intent>, named: Intent): (r: seq<Intent>)
    ensures |r| == |intents|
    ensures forall i :: 0 <= i < |r| ==>
              r[i] == if Doomed(named, intents[i]) then Discarding(intents[i]) else intents[i]
  {
    seq(|intents|, i requires 0 <= i < |intents| =>
                     if Doomed(named, intents[i]) then Discarding(intents[i]) else intents[i])
  }

  function WithoutSession(sessions: seq<nat>, session: nat): (r: seq<nat>)
    ensures forall x :: x in r <==> x in sessions && x != session
  {
    if sessions == [] then []
    else if sessions[0] == session then WithoutSession(sessions[1..], session)
    else [sessions[0]] + WithoutSession(sessions[1..], session)
  }

  datatype DiscardError = UnknownIntent | AlreadyAccepted | ControlDiscardForbidden | BootstrapDiscardForbidden

  /** The checks of a discard in their order, then its candidate. */
  function DiscardCandidate(s: State, transactionID: nat): Result<State, DiscardError> {
    var i := FindTransaction(s.intents, transactionID);
    if i == |s.intents| then Err(UnknownIntent)
    else
      var named := s.intents[i];
      if named.status == RelayAccepted then Err(AlreadyAccepted)
      else if named.control then Err(ControlDiscardForbidden)
      else if AbandonsBootstrap(named)
              && (AnyAccepted(named.deliveries)
                  || exists k ::
                       0 <= k < |s.intents| && Doomed(named, s.intents[k]) && s.intents[k].status == RelayAccepted) then
        Err(BootstrapDiscardForbidden)
      else
        var abandoned := AbandonsBootstrap(named);
        Ok(s.(intents := DiscardIntents(s.intents, named),
              sessions := if abandoned then WithoutSession(s.sessions, named.sessionID) else s.sessions,
              activeSession := if abandoned && s.activeSession == Some(named.sessionID) then None else s.activeSession))
  }

  // ---- Actions ----

  predicate Acknowledged(attempts: seq<Attempt>, sequence: nat, d: nat, index: nat) {
    exists k :: 0 <= k < |attempts| && attempts[k].accepted && attempts[k].sequence == sequence
      && attempts[k].delivery == d && attempts[k].index == index
  }

  function Saved(e: Platform, w: World, candidate: State, log: Log, index: Option<nat>): Option<World> {
    match Commit(e, candidate)
    case None => None
    case Some(t) => Some(World(t, w.attempts, log, index))
  }

  /** The kept place; none is like one beyond the last intent. */
  function Place(w: World): nat {
    if w.index.Some? then w.index.value else |w.state.intents|
  }

  function StepPrepare(e: Platform, w: World, r: Request): Option<World> {
    if w.state.activeSession.None? && r.freshSession in w.log.used then None
    else
      match PrepareCandidate(w.state, r)
      case None => None
      case Some(c) =>
        var log :=
          if w.state.activeSession.None? then
            w.log.(bootstraps := w.log.bootstraps[r.freshSession := w.state.nextSequence],
                   used := w.log.used + {r.freshSession})
          else w.log;
        Saved(e, w, c, log, None)
  }

  /**
   * Any inbound effect on sessions: existing ones may go, new ones are new, and
   * the active one may change with them.
   */
  predicate InboundSessions(w: World, sessions: seq<nat>, activeSession: Option<nat>) {
    && (forall x :: x in sessions ==> x in w.state.sessions || x !in w.log.used)
    && (activeSession.Some? && activeSession != w.state.activeSession ==>
          activeSession.value in sessions && activeSession.value !in w.log.used)
  }

  function StepReceive(e: Platform, w: World, sessions: seq<nat>, activeSession: Option<nat>,
                       records: seq<seq<nat>>): Option<World> {
    if !InboundSessions(w, sessions, activeSession) then None
    else
      Saved(e, w, w.state.(sessions := sessions, activeSession := activeSession, records := records),
            w.log.(used := w.log.used + set x | x in sessions), None)
  }

  function StepSend(w: World, d: nat, relayAccepts: bool): Option<World> {
    if !Deliverable(w.state, Place(w), d) then None
    else
      var x := w.state.intents[Place(w)];
      var attempt := Attempt(x.sequence, d, x.deliveries[d].nextPacketIndex, NextPacket(w.state, Place(w), d),
                             relayAccepts);
      Some(w.(attempts := w.attempts + [attempt]))
  }

  function StepAdvance(e: Platform, w: World, d: nat): Option<World> {
    if !Deliverable(w.state, Place(w), d) then None
    else
      var x := w.state.intents[Place(w)];
      if !Acknowledged(w.attempts, x.sequence, d, x.deliveries[d].nextPacketIndex) then None
      else Saved(e, w, AdvanceCandidate(w.state, Place(w), d), w.log, w.index)
  }

  function StepAccept(e: Platform, w: World): Option<World> {
    match AcceptCandidate(w.state, Place(w))
    case None => None
    case Some(c) =>
      var x := w.state.intents[Place(w)];
      Saved(e, w, c, w.log.(acceptances := w.log.acceptances + [Acceptance(x.sessionID, x.sequence)]), None)
  }

  function StepFail(e: Platform, w: World, deterministic: bool): Option<World> {
    match FailCandidate(w.state, Place(w), deterministic)
    case None => None
    case Some(c) =>
      var x := w.state.intents[Place(w)];
      var permanent := deterministic && !HasDependent(w.state, Place(w));
      Saved(e, w, c, if permanent && AbandonsBootstrap(x) then w.log.(failed := w.log.failed + {x.sequence}) else w.log,
            None)
  }

  /** The world after an action, or nothing when the code does not take it or its save is refused. */
  function Step(e: Platform, w: World, a: Action): Option<World> {
    match a
    case Prepare(r) => StepPrepare(e, w, r)
    case Receive(sessions, activeSession, records) => StepReceive(e, w, sessions, activeSession, records)
    case Publish =>
      (match PublishCandidate(w.state)
       case None => None
       case Some(c) => Saved(e, w, c, w.log, Some(FirstBlocking(w.state.intents))))
    case Refresh(d, at, nonce) =>
      (match RefreshCandidate(e.h, w.state, Place(w), d, at, nonce)
       case None => None
       case Some(c) => Saved(e, w, c, w.log, w.index))
    case Send(d, relayAccepts) => StepSend(w, d, relayAccepts)
    case Advance(d) => StepAdvance(e, w, d)
    case Accept => StepAccept(e, w)
    case Fail(deterministic) => StepFail(e, w, deterministic)
    case Discard(transactionID) =>
      (match DiscardCandidate(w.state, transactionID) case Err(_) => None case Ok(c) => Saved(e, w, c, w.log, None))
  }

  /** The candidate that a turn of the publishing loop saves before it settles the intent. */
  function ProgressCandidate(h: Hashes, w: World, a: Action): Option<State> {
    match a
    case Publish => PublishCandidate(w.state)
    case Refresh(d, at, nonce) => RefreshCandidate(h, w.state, Place(w), d, at, nonce)
    case Advance(d) => if Deliverable(w.state, Place(w), d) then Some(AdvanceCandidate(w.state, Place(w), d)) else None
    case _ => None
  }

  /**
   * Saving the candidate leaves the first blocking intent at its place: nothing
   * stands before it, or nothing is trimmed for bytes.
   */
  predicate KeepsPlace(size: State -> nat, c: State) {
    FirstBlocking(c.intents) == 0 || size(LengthCompacted(c)) <= MAXIMUM_STATE_BYTES
  }

  /** If the action is a save in the middle of a turn, it leaves the intent being published at its place. */
  predicate Steady(e: Platform, w: World, a: Action) {
    var c := ProgressCandidate(e.h, w, a);
    c.Some? ==> KeepsPlace(e.size, c.value)
  }

  /** The state a new relationship saves first. */
  predicate Initial(e: Platform, w: World) {
    && StateValid(e.h, w.state)
    && w.state.intents == [] && w.state.sessions == [] && w.state.activeSession == None
    && w.attempts == [] && w.log == Log([], map[], {}, {}) && w.index.None?
  }

  function Run(e: Platform, start: World, actions: seq<Action>): Option<World> {
    if actions == [] then Some(start)
    else
      match Run(e, start, actions[..|actions| - 1])
      case None => None
      case Some(w) => Step(e, w, actions[|actions| - 1])
  }

  // ---- Invariant ----

  /** An attempt for a pending intent is at most one packet ahead of it and is the very packet it holds. */
  ghost predicate AttemptFits(x: Intent, a: Attempt) {
    Pending(x) && a.sequence == x.sequence ==>
      && a.delivery < |x.deliveries| && a.index < |x.deliveries[a.delivery].packets|
      && a.index <= x.deliveries[a.delivery].nextPacketIndex
      && SameOnRelay(a.packet, x.deliveries[a.delivery].packets[a.index])
  }

  ghost predicate ProgressAcknowledged(x: Intent, attempts: seq<Attempt>) {
    Pending(x) ==>
      forall d, i: nat :: 0 <= d < |x.deliveries| && i < x.deliveries[d].nextPacketIndex
        ==> Acknowledged(attempts, x.sequence, d, i)
  }

  predicate SamePlace(a: Attempt, b: Attempt) {
    a.sequence == b.sequence && a.delivery == b.delivery && a.index == b.index
  }

  ghost predicate AttemptsAgree(attempts: seq<Attempt>) {
    forall j, k :: 0 <= j < |attempts| && 0 <= k < |attempts| && SamePlace(attempts[j], attempts[k])
      ==> SameOnRelay(attempts[j].packet, attempts[k].packet)
  }

  ghost predicate Retry(intents: seq<Intent>, next: nat, attempts: seq<Attempt>) {
    && (forall k :: 0 <= k < |attempts| ==> attempts[k].sequence < next)
    && AttemptsAgree(attempts)
    && (forall x, k :: x in intents && 0 <= k < |attempts| ==> AttemptFits(x, attempts[k]))
    && (forall x :: x in intents ==> ProgressAcknowledged(x, attempts))
  }

  ghost predicate BootstrapAccepted(log: Log, session: nat)
    requires session in log.bootstraps
  {
    Acceptance(session, log.bootstraps[session]) in log.acceptances
  }

  ghost predicate NothingAccepted(log: Log, session: nat) {
    forall k :: 0 <= k < |log.acceptances| ==> log.acceptances[k].sessionID != session
  }

  ghost predicate Waits(x: Intent, session: nat, sequence: nat) {
    x.sequence == sequence && x.sessionID == session && Pending(x) && AbandonsBootstrap(x)
  }

  ghost predicate Waiting(intents: seq<Intent>, log: Log, session: nat)
    requires session in log.bootstraps
  {
    NothingAccepted(log, session) && exists x :: x in intents && Waits(x, session, log.bootstraps[session])
  }

  ghost predicate Dead(s: State, log: Log, session: nat) {
    && session !in s.sessions && NothingAccepted(log, session)
    && forall x :: x in s.intents && x.sessionID == session ==> x.status == Discarded
  }

  /** Where the bootstrap of a session opened here can be. */
  ghost predicate Settled(s: State, log: Log, session: nat)
    requires session in log.bootstraps
  {
    BootstrapAccepted(log, session) || log.bootstraps[session] in log.failed || Waiting(s.intents, log, session)
      || Dead(s, log, session)
  }

  ghost predicate IntentLogged(x: Intent, log: Log) {
    && x.sessionID in log.used
    && (x.sessionID in log.bootstraps ==> log.bootstraps[x.sessionID] <= x.sequence)
    && (AbandonsBootstrap(x) ==> x.sessionID in log.bootstraps && log.bootstraps[x.sessionID] == x.sequence)
    && (x.sequence in log.failed ==> !Pending(x))
    && (forall k :: 0 <= k < |log.acceptances| && log.acceptances[k].sequence == x.sequence ==>
        x.status == RelayAccepted)
  }

  ghost predicate LogFits(log: Log, next: nat) {
    && (forall b :: b in log.bootstraps ==> b in log.used && log.bootstraps[b] < next)
    && (forall n :: n in log.failed ==> n < next)
    && (forall k :: 0 <= k < |log.acceptances| ==>
          log.acceptances[k].sessionID in log.used && log.acceptances[k].sequence < next
          && log.acceptances[k].sequence !in log.failed)
  }

  /** Acceptance `k` of a session opened here is its bootstrap, follows it, or the bootstrap failed for good. */
  ghost predicate Follows(log: Log, k: nat)
    requires k < |log.acceptances|
  {
    var a := log.acceptances[k];
    a.sessionID in log.bootstraps ==>
      || log.bootstraps[a.sessionID] in log.failed
      || Acceptance(a.sessionID, log.bootstraps[a.sessionID]) in log.acceptances[..k + 1]
  }

  ghost predicate Boot(s: State, log: Log) {
    && LogFits(log, s.nextSequence)
    && (forall x :: x in s.sessions ==> x in log.used)
    && (forall x :: x in s.intents ==> IntentLogged(x, log))
    && (forall b :: b in log.bootstraps ==> Settled(s, log, b))
    && (forall k :: 0 <= k < |log.acceptances| ==> Follows(log, k))
  }

  /** What every run keeps. */
  ghost predicate Sane(e: Platform, w: World) {
    StateValid(e.h, w.state) && Retry(w.state.intents, w.state.nextSequence, w.attempts)
  }

  /** The outbox is bounded, which the failures in it and the kept place make last. Every run keeps this too. */
  ghost predicate Bounded(w: World) {
    && |w.state.intents| <= PendingCount(w.state.intents) + 256 && Near(w.state.intents, FAILURE_REACH)
    && (w.index.Some? ==> PlaceNear(w.state.intents, w.index.value))
  }

  /** While a place is kept, the first blocking intent is pending and does not stand behind it, nor far before it. */
  predicate PlaceNear(intents: seq<Intent>, place: nat) {
    var first := FirstBlocking(intents);
    && first < |intents| && Pending(intents[first]) && first <= place
    && |intents| + place <= first + 2 * FAILURE_REACH
  }

  /** What a run keeps as long as the kept place names the first blocking intent. */
  ghost predicate Orderly(s: State, log: Log) {
    InOrder(s.intents) && Boot(s, log)
  }

  ghost predicate Good(e: Platform, w: World) {
    Sane(e, w) && Bounded(w) && Orderly(w.state, w.log)
  }

  predicate Aligned(w: World) {
    w.index.Some? ==>
      && w.index.value == FirstBlocking(w.state.intents) < |w.state.intents|
      && w.state.intents[w.index.value].status == Publishing
  }

  // ---- Saving keeps the invariant of the candidate ----

  lemma CommitFacts(e: Platform, c: State)
    requires Commit(e, c).Some?
    ensures var t := Commit(e, c).value;
            && StateValid(e.h, t) && t.nextSequence == c.nextSequence && t.activeSession == c.activeSession
            && Subsequence(t.intents, c.intents) && Subsequence(t.sessions, c.sessions)
            && PendingOnly(t.intents) == PendingOnly(c.intents)
  {
    hide Compacted, StateValid, PendingOnly, Subsequence;
    CompactionTrims(e.size, c);
  }

  lemma Members<T>(a: seq<T>, b: seq<T>)
    requires Subsequence(a, b)
    ensures forall x :: x in a ==> x in b
  {
    hide Subsequence;
    forall x | x in a ensures x in b {
      var i :| 0 <= i < |a| && a[i] == x;
      var p := SubsequenceMember(a, b, i);
    }
  }

  lemma SavedRetry(a: seq<Intent>, b: seq<Intent>, next: nat, attempts: seq<Attempt>)
    requires Retry(b, next, attempts) && forall x :: x in a ==> x in b
    ensures Retry(a, next, attempts)
  {
    hide AttemptFits, ProgressAcknowledged, AttemptsAgree;
  }

  lemma SavedSettled(c: State, t: State, log: Log, b: nat)
    requires b in log.bootstraps && Settled(c, log, b)
    requires (forall x :: x in t.intents ==> x in c.intents) && (forall x :: x in t.sessions ==> x in c.sessions)
    requires forall x :: x in c.intents && Pending(x) ==> x in t.intents
    ensures Settled(t, log, b)
  {
    hide AbandonsBootstrap, NothingAccepted, BootstrapAccepted;
    if Waiting(c.intents, log, b) {
      var x :| x in c.intents && Waits(x, b, log.bootstraps[b]);
      assert x in t.intents && Waits(x, b, log.bootstraps[b]);
    }
  }

  lemma SavedBoot(c: State, t: State, log: Log)
    requires Boot(c, log) && t.nextSequence == c.nextSequence
    requires (forall x :: x in t.intents ==> x in c.intents) && (forall x :: x in t.sessions ==> x in c.sessions)
    requires forall x :: x in c.intents && Pending(x) ==> x in t.intents
    ensures Boot(t, log)
  {
    hide Settled, LogFits, IntentLogged, Follows, Pending;
    forall b | b in log.bootstraps ensures Settled(t, log, b) {
      SavedSettled(c, t, log, b);
    }
  }

  lemma SavedSane(e: Platform, c: State, attempts: seq<Attempt>)
    requires Commit(e, c).Some? && Retry(c.intents, c.nextSequence, attempts)
    ensures var t := Commit(e, c).value; StateValid(e.h, t) && Retry(t.intents, t.nextSequence, attempts)
  {
    hide Commit, StateValid, Retry, Subsequence, PendingOnly, Pending;
    var t := Commit(e, c).value;
    CommitFacts(e, c);
    Members(t.intents, c.intents);
    SavedRetry(t.intents, c.intents, c.nextSequence, attempts);
  }

  lemma SavedOrderly(e: Platform, c: State, log: Log)
    requires Commit(e, c).Some? && InOrder(c.intents) && Boot(c, log)
    ensures Orderly(Commit(e, c).value, log)
  {
    hide Commit, StateValid, InOrder, Boot, Subsequence, PendingOnly, Pending;
    var t := Commit(e, c).value;
    CommitFacts(e, c);
    Members(t.intents, c.intents);
    Members(t.sessions, c.sessions);
    TrimKeepsOrder(t.intents, c.intents, 0);
    forall x | x in c.intents && Pending(x) ensures x in t.intents {
      PendingMembers(c.intents, x);
      PendingMembers(t.intents, x);
    }
    SavedBoot(c, t, log);
  }

  // ---- The intent being published ----

  lemma IntentFacts(e: Platform, w: World, i: nat)
    requires Sane(e, w) && i < |w.state.intents|
    ensures var x := w.state.intents[i];
            && x in w.state.intents && IntentValid(e.h, x, w.state.sessions)
            && ProgressAcknowledged(x, w.attempts)
            && forall k :: 0 <= k < |w.attempts| ==> AttemptFits(x, w.attempts[k])
  {
    hide IntentValid, ProgressAcknowledged, AttemptFits, SequencesIncrease, AttemptsAgree;
  }

  lemma CurrentLogged(w: World)
    requires Orderly(w.state, w.log) && Current(w.state).Some?
    ensures var i := FirstBlocking(w.state.intents);
            var x := Current(w.state).value;
            i < |w.state.intents| && x == w.state.intents[i] && x in w.state.intents && IntentLogged(x, w.log)
  {
    hide IntentLogged, Settled, LogFits, Follows, InOrder;
  }

  lemma ReplaceCurrentInOrder(intents: seq<Intent>, x: Intent)
    requires InOrder(intents) && FirstBlocking(intents) < |intents|
    ensures InOrder(intents[FirstBlocking(intents) := x])
  {
    hide FirstBlocking;
    var i := FirstBlocking(intents);
    var next := intents[i := x];
    forall p, q | 0 <= p < q < |next| && Blocking(next[p])
      ensures next[q].status == Prepared || next[q].status == Discarded
    {
      assert q > i ==> Blocking(intents[i]);
    }
  }

  lemma ReplaceRetry(intents: seq<Intent>, i: nat, x: Intent, next: nat, attempts: seq<Attempt>)
    requires Retry(intents, next, attempts) && i < |intents|
    requires ProgressAcknowledged(x, attempts) && forall k :: 0 <= k < |attempts| ==> AttemptFits(x, attempts[k])
    ensures Retry(intents[i := x], next, attempts)
  {
    hide AttemptFits, ProgressAcknowledged, AttemptsAgree;
    var after := intents[i := x];
    forall y | y in after ensures y == x || y in intents {
      var k :| 0 <= k < |after| && after[k] == y;
    }
  }

  /** Replacing an intent by one of the same identity: who is in the new list. */
  lemma ReplaceMembers(intents: seq<Intent>, i: nat, x: Intent)
    requires i < |intents|
    ensures x in intents[i := x]
    ensures forall y :: y in intents[i := x] ==> y == x || y in intents
    ensures forall y :: y in intents && y != intents[i] ==> y in intents[i := x]
  {
    var after := intents[i := x];
    assert after[i] == x;
    forall y | y in after ensures y == x || y in intents {
      var k :| 0 <= k < |after| && after[k] == y;
    }
    forall y | y in intents && y != intents[i] ensures y in after {
      var k :| 0 <= k < |intents| && intents[k] == y;
      assert after[k] == y;
    }
  }

  // ---- Progress on the intent being published ----

  /** The same intent still pending, with other progress. */
  ghost predicate Progressed(x: Intent, y: Intent) {
    && y.sequence == x.sequence && y.sessionID == x.sessionID && y.envelope == x.envelope
    && Pending(x) && Pending(y)
  }

  lemma ProgressSettled(s: State, i: nat, y: Intent, log: Log, b: nat)
    requires i < |s.intents| && Progressed(s.intents[i], y) && b in log.bootstraps && Settled(s, log, b)
    ensures Settled(s.(intents := s.intents[i := y]), log, b)
  {
    hide NothingAccepted, BootstrapAccepted;
    ReplaceMembers(s.intents, i, y);
    var after := s.intents[i := y];
    if Waiting(s.intents, log, b) {
      var z :| z in s.intents && Waits(z, b, log.bootstraps[b]);
      var z' := if z == s.intents[i] then y else z;
      assert z' in after && Waits(z', b, log.bootstraps[b]);
    }
  }

  lemma ProgressBoot(s: State, i: nat, y: Intent, log: Log)
    requires Boot(s, log) && i < |s.intents| && Progressed(s.intents[i], y)
    ensures Boot(s.(intents := s.intents[i := y]), log)
  {
    hide Settled, LogFits, Follows;
    ReplaceMembers(s.intents, i, y);
    assert IntentLogged(s.intents[i], log);
    forall b | b in log.bootstraps ensures Settled(s.(intents := s.intents[i := y]), log, b) {
      ProgressSettled(s, i, y, log, b);
    }
  }

  /** Only the intent at the kept place moves along. */
  lemma ProgressSane(e: Platform, w: World, i: nat, y: Intent)
    requires Sane(e, w) && i < |w.state.intents| && Commit(e, WithIntent(w.state, i, y)).Some?
    requires ProgressAcknowledged(y, w.attempts) && forall k :: 0 <= k < |w.attempts| ==> AttemptFits(y, w.attempts[k])
    ensures var t := Commit(e, WithIntent(w.state, i, y)).value;
            StateValid(e.h, t) && Retry(t.intents, t.nextSequence, w.attempts)
  {
    hide AttemptFits, ProgressAcknowledged, Retry, StateValid, Commit;
    ReplaceRetry(w.state.intents, i, y, w.state.nextSequence, w.attempts);
    SavedSane(e, WithIntent(w.state, i, y), w.attempts);
  }

  lemma ProgressOrderly(e: Platform, w: World, y: Intent)
    requires Orderly(w.state, w.log) && Current(w.state).Some? && Progressed(Current(w.state).value, y)
    requires Commit(e, WithCurrent(w.state, y)).Some?
    ensures Orderly(Commit(e, WithCurrent(w.state, y)).value, w.log)
  {
    hide Progressed, Boot, InOrder, Commit;
    ReplaceCurrentInOrder(w.state.intents, y);
    ProgressBoot(w.state, FirstBlocking(w.state.intents), y, w.log);
    SavedOrderly(e, WithCurrent(w.state, y), w.log);
  }

  lemma PublishSane(e: Platform, w: World)
    requires Sane(e, w) && Step(e, w, Publish).Some?
    ensures Sane(e, Step(e, w, Publish).value)
  {
    hide SameOnRelay, Acknowledged, Commit, StateValid, Retry;
    var i := FirstBlocking(w.state.intents);
    IntentFacts(e, w, i);
    var x := w.state.intents[i];
    var y := PublishCandidate(w.state).value.intents[i];
    SameProgress(x, y, w.attempts);
    ProgressSane(e, w, i, y);
  }

  lemma DeliverableIsPending(h: Hashes, s: State, i: nat, d: nat)
    requires Deliverable(s, i, d) && IntentValid(h, s.intents[i], s.sessions)
    ensures Pending(s.intents[i])
  {
  }

  lemma RefreshSane(e: Platform, w: World, d: nat, at: int, nonce: Id)
    requires Sane(e, w) && Step(e, w, Refresh(d, at, nonce)).Some?
    ensures Sane(e, Step(e, w, Refresh(d, at, nonce)).value)
  {
    hide Acknowledged, RefreshSendProof, IntentValid, Commit, StateValid, Retry;
    var i := Place(w);
    IntentFacts(e, w, i);
    DeliverableIsPending(e.h, w.state, i, d);
    var x := w.state.intents[i];
    var y := RefreshCandidate(e.h, w.state, i, d, at, nonce).value.intents[i];
    ProgressSane(e, w, i, y);
  }

  lemma AdvanceSane(e: Platform, w: World, d: nat)
    requires Sane(e, w) && Step(e, w, Advance(d)).Some?
    ensures Sane(e, Step(e, w, Advance(d)).value)
  {
    hide Acknowledged, SameOnRelay, IntentValid, Commit, StateValid, Retry;
    var i := Place(w);
    IntentFacts(e, w, i);
    DeliverableIsPending(e.h, w.state, i, d);
    var x := w.state.intents[i];
    var y := AdvanceCandidate(w.state, i, d).intents[i];
    ProgressSane(e, w, i, y);
  }

  /** While the place names the first blocking intent, a save in the middle of a turn only moves that one along. */
  lemma ProgressIsCurrent(e: Platform, w: World, a: Action) returns (y: Intent)
    requires Good(e, w) && Aligned(w) && ProgressCandidate(e.h, w, a).Some?
    ensures Current(w.state).Some? && Progressed(Current(w.state).value, y)
    ensures ProgressCandidate(e.h, w, a).value == WithCurrent(w.state, y) && y.status == Publishing
    ensures a.Publish? || w.index == Some(FirstBlocking(w.state.intents))
  {
    hide Good, RefreshSendProof, SendProofExpired;
    var i := FirstBlocking(w.state.intents);
    y := ProgressCandidate(e.h, w, a).value.intents[i];
  }

  lemma ProgressStepOrderly(e: Platform, w: World, a: Action)
    requires Good(e, w) && Aligned(w) && (a.Publish? || a.Refresh? || a.Advance?) && Step(e, w, a).Some?
    ensures Orderly(Step(e, w, a).value.state, Step(e, w, a).value.log)
  {
    hide Orderly, Sane, Commit, Progressed, Aligned, PublishCandidate, RefreshCandidate, AdvanceCandidate;
    hide WithCurrent, Deliverable, Acknowledged;
    var y := ProgressIsCurrent(e, w, a);
    assert Step(e, w, a).value.log == w.log;
    assert Commit(e, WithCurrent(w.state, y)) == Some(Step(e, w, a).value.state);
    ProgressOrderly(e, w, y);
  }

  // ---- A packet is handed to a relay ----

  lemma AcknowledgedGrows(attempts: seq<Attempt>, a: Attempt, sequence: nat, d: nat, index: nat)
    requires Acknowledged(attempts, sequence, d, index)
    ensures Acknowledged(attempts + [a], sequence, d, index)
  {
    var k :| 0 <= k < |attempts| && attempts[k].accepted && attempts[k].sequence == sequence
      && attempts[k].delivery == d && attempts[k].index == index;
    assert (attempts + [a])[k] == attempts[k];
  }

  lemma SendAgrees(attempts: seq<Attempt>, a: Attempt, x: Intent)
    requires AttemptsAgree(attempts) && Pending(x) && a.sequence == x.sequence
    requires forall k :: 0 <= k < |attempts| ==> AttemptFits(x, attempts[k])
    requires a.delivery < |x.deliveries| && a.index < |x.deliveries[a.delivery].packets|
    requires a.packet == x.deliveries[a.delivery].packets[a.index]
    ensures AttemptsAgree(attempts + [a])
  {
    var after := attempts + [a];
    forall j, k | 0 <= j < |after| && 0 <= k < |after| && SamePlace(after[j], after[k])
      ensures SameOnRelay(after[j].packet, after[k].packet)
    {
      assert j < |attempts| ==> AttemptFits(x, attempts[j]);
      assert k < |attempts| ==> AttemptFits(x, attempts[k]);
    }
  }

  lemma SendFits(intents: seq<Intent>, i: nat, a: Attempt, next: nat)
    requires SequencesIncrease(intents, next) && i < |intents| && a.sequence == intents[i].sequence
    requires AttemptFits(intents[i], a)
    ensures forall y :: y in intents ==> AttemptFits(y, a)
  {
    hide AttemptFits;
    forall y | y in intents ensures AttemptFits(y, a) {
      var k :| 0 <= k < |intents| && intents[k] == y;
      if k != i {
        OtherSequence(y, a);
      }
    }
  }

  lemma OtherSequence(y: Intent, a: Attempt)
    requires y.sequence != a.sequence
    ensures AttemptFits(y, a)
  {
  }

  lemma SendSane(e: Platform, w: World, d: nat, relayAccepts: bool)
    requires Sane(e, w) && Step(e, w, Send(d, relayAccepts)).Some?
    ensures Sane(e, Step(e, w, Send(d, relayAccepts)).value)
  {
    hide Acknowledged, SameOnRelay, IntentValid, AttemptsAgree, SequencesIncrease, FirstBlocking;
    var i := Place(w);
    IntentFacts(e, w, i);
    DeliverableIsPending(e.h, w.state, i, d);
    var x := w.state.intents[i];
    var a := Attempt(x.sequence, d, x.deliveries[d].nextPacketIndex, NextPacket(w.state, i, d), relayAccepts);
    SendAgrees(w.attempts, a, x);
    SamePacket(a.packet);
    assert AttemptFits(x, a);
    SendFits(w.state.intents, i, a, w.state.nextSequence);
    BelowNext(w.state.intents, w.state.nextSequence, i);
    SendRetry(w.state.intents, w.state.nextSequence, w.attempts, a);
  }

  lemma SamePacket(p: Packet)
    ensures SameOnRelay(p, p)
  {
  }

  lemma SendRetry(intents: seq<Intent>, next: nat, attempts: seq<Attempt>, a: Attempt)
    requires Retry(intents, next, attempts) && AttemptsAgree(attempts + [a]) && a.sequence < next
    requires forall y :: y in intents ==> AttemptFits(y, a)
    ensures Retry(intents, next, attempts + [a])
  {
    hide AttemptFits, Acknowledged, AttemptsAgree;
    forall y | y in intents ensures ProgressAcknowledged(y, attempts + [a]) {
      if Pending(y) {
        forall d, i: nat | 0 <= d < |y.deliveries| && i < y.deliveries[d].nextPacketIndex
          ensures Acknowledged(attempts + [a], y.sequence, d, i)
        {
          AcknowledgedGrows(attempts, a, y.sequence, d, i);
        }
      }
    }
  }

  // ---- The intent is settled ----

  /** The bootstrap of a session is older than its other intents, so it is published first. */
  lemma BootstrapComesFirst(s: State, x: Intent, y: Intent, log: Log)
    requires FirstBlocking(s.intents) < |s.intents| && x == s.intents[FirstBlocking(s.intents)]
    requires SequencesIncrease(s.intents, s.nextSequence)
    requires y in s.intents && Pending(y) && y.sequence <= x.sequence
    ensures y == x
  {
    var k :| 0 <= k < |s.intents| && s.intents[k] == y;
    assert k >= FirstBlocking(s.intents);
  }

  lemma AcceptedSettled(s: State, x: Intent, y: Intent, before: Log, after: Log, b: nat)
    requires FirstBlocking(s.intents) < |s.intents| && x == s.intents[FirstBlocking(s.intents)]
    requires Pending(x) && SequencesIncrease(s.intents, s.nextSequence) && IntentLogged(x, before)
    requires y == x.(status := RelayAccepted, envelope := None, deliveries := [])
    requires after == before.(acceptances := before.acceptances + [Acceptance(x.sessionID, x.sequence)])
    requires b in before.bootstraps && Settled(s, before, b)
    ensures Settled(WithCurrent(s, y), after, b)
    ensures b == x.sessionID ==> after.bootstraps[b] in after.failed || BootstrapAccepted(after, b)
  {
    var i := FirstBlocking(s.intents);
    ReplaceMembers(s.intents, i, y);
    var t := WithCurrent(s, y);
    assert after.acceptances[|before.acceptances|] == Acceptance(x.sessionID, x.sequence);
    if BootstrapAccepted(before, b) {
      var k :| 0 <= k < |before.acceptances| && before.acceptances[k] == Acceptance(b, before.bootstraps[b]);
      assert after.acceptances[k] == before.acceptances[k];
    } else if before.bootstraps[b] in before.failed {
    } else if Waiting(s.intents, before, b) {
      var z :| z in s.intents && Waits(z, b, before.bootstraps[b]);
      if b == x.sessionID {
        BootstrapComesFirst(s, x, z, before);
      } else {
        assert z in t.intents && Waits(z, b, after.bootstraps[b]);
      }
    } else {
      assert Dead(s, before, b);
      assert x in s.intents;
    }
  }

  lemma AcceptedLog(x: Intent, before: Log, after: Log, next: nat)
    requires LogFits(before, next) && IntentLogged(x, before) && Pending(x) && x.sequence < next
    requires after == before.(acceptances := before.acceptances + [Acceptance(x.sessionID, x.sequence)])
    requires forall k :: 0 <= k < |before.acceptances| ==> Follows(before, k)
    requires x.sessionID in after.bootstraps ==>
               after.bootstraps[x.sessionID] in after.failed || BootstrapAccepted(after, x.sessionID)
    ensures LogFits(after, next) && forall k :: 0 <= k < |after.acceptances| ==> Follows(after, k)
  {
    var n := |before.acceptances|;
    forall k | 0 <= k < |after.acceptances| ensures Follows(after, k) {
      if k < n {
        assert Follows(before, k);
        assert after.acceptances[..k + 1] == before.acceptances[..k + 1];
      } else {
        assert after.acceptances[..n + 1] == after.acceptances;
      }
    }
  }

  lemma AcceptedIntents(s: State, x: Intent, y: Intent, before: Log, after: Log)
    requires FirstBlocking(s.intents) < |s.intents| && x == s.intents[FirstBlocking(s.intents)]
    requires SequencesIncrease(s.intents, s.nextSequence) && Pending(x)
    requires y == x.(status := RelayAccepted, envelope := None, deliveries := [])
    requires after == before.(acceptances := before.acceptances + [Acceptance(x.sessionID, x.sequence)])
    requires forall z :: z in s.intents ==> IntentLogged(z, before)
    ensures forall z :: z in WithCurrent(s, y).intents ==> IntentLogged(z, after)
  {
    var i := FirstBlocking(s.intents);
    var t := WithCurrent(s, y);
    forall z | z in t.intents ensures IntentLogged(z, after) {
      var k :| 0 <= k < |t.intents| && t.intents[k] == z;
      assert IntentLogged(s.intents[k], before);
      if k != i {
        assert z.sequence != x.sequence;
      }
    }
  }

  lemma AcceptSane(e: Platform, w: World)
    requires Sane(e, w) && Step(e, w, Accept).Some?
    ensures Sane(e, Step(e, w, Accept).value)
  {
    hide Commit, StateValid, Retry, AnyAccepted;
    var i := Place(w);
    var y := AcceptCandidate(w.state, i).value.intents[i];
    FinalIntentFits(y, w.attempts);
    ProgressSane(e, w, i, y);
  }

  lemma AcceptOrderly(e: Platform, w: World)
    requires Good(e, w) && Aligned(w) && Step(e, w, Accept).Some?
    ensures Orderly(Step(e, w, Accept).value.state, Step(e, w, Accept).value.log)
  {
    hide IntentValid, IntentLogged, InOrder, FirstBlocking, LogFits, Follows, Settled, Commit, AnyAccepted;
    hide SequencesIncrease, Retry;
    CurrentLogged(w);
    var s, i, x := w.state, FirstBlocking(w.state.intents), Current(w.state).value;
    var y := x.(status := RelayAccepted, envelope := None, deliveries := []);
    var after := w.log.(acceptances := w.log.acceptances + [Acceptance(x.sessionID, x.sequence)]);
    var c := WithCurrent(s, y);
    ReplaceCurrentInOrder(s.intents, y);
    forall b | b in after.bootstraps ensures Settled(c, after, b) {
      AcceptedSettled(s, x, y, w.log, after, b);
    }
    if x.sessionID in after.bootstraps {
      AcceptedSettled(s, x, y, w.log, after, x.sessionID);
    }
    BelowNext(s.intents, s.nextSequence, i);
    AcceptedLog(x, w.log, after, s.nextSequence);
    AcceptedIntents(s, x, y, w.log, after);
    SavedOrderly(e, c, after);
  }

  lemma BelowNext(intents: seq<Intent>, next: nat, i: nat)
    requires SequencesIncrease(intents, next) && i < |intents|
    ensures intents[i].sequence < next
  {
  }

  lemma FinalIntentFits(y: Intent, attempts: seq<Attempt>)
    requires !Pending(y)
    ensures ProgressAcknowledged(y, attempts) && forall k :: 0 <= k < |attempts| ==> AttemptFits(y, attempts[k])
  {
  }

  lemma FailedSettled(s: State, x: Intent, y: Intent, before: Log, after: Log, b: nat)
    requires FirstBlocking(s.intents) < |s.intents| && x == s.intents[FirstBlocking(s.intents)] && Pending(x)
    requires y == x.(status := PermanentFailure, envelope := None, deliveries := [])
    requires IntentLogged(x, before)
    requires after == if AbandonsBootstrap(x) then before.(failed := before.failed + {x.sequence}) else before
    requires b in before.bootstraps && Settled(s, before, b)
    ensures Settled(WithCurrent(s, y), after, b)
  {
    ReplaceMembers(s.intents, FirstBlocking(s.intents), y);
    var t := WithCurrent(s, y);
    if Waiting(s.intents, before, b) {
      var z :| z in s.intents && Waits(z, b, before.bootstraps[b]);
      if z != x {
        assert z in t.intents && Waits(z, b, after.bootstraps[b]);
      }
    }
  }

  lemma FailedIntents(s: State, x: Intent, y: Intent, before: Log, after: Log)
    requires FirstBlocking(s.intents) < |s.intents| && x == s.intents[FirstBlocking(s.intents)] && Pending(x)
    requires SequencesIncrease(s.intents, s.nextSequence)
    requires y == x.(status := PermanentFailure, envelope := None, deliveries := [])
    requires after == if AbandonsBootstrap(x) then before.(failed := before.failed + {x.sequence}) else before
    requires forall z :: z in s.intents ==> IntentLogged(z, before)
    ensures forall z :: z in WithCurrent(s, y).intents ==> IntentLogged(z, after)
  {
    var i := FirstBlocking(s.intents);
    var t := WithCurrent(s, y);
    forall z | z in t.intents ensures IntentLogged(z, after) {
      var k :| 0 <= k < |t.intents| && t.intents[k] == z;
      assert IntentLogged(s.intents[k], before);
      if k != i {
        assert z.sequence != x.sequence;
      }
    }
  }

  lemma FailedLog(x: Intent, before: Log, after: Log, next: nat)
    requires LogFits(before, next) && IntentLogged(x, before) && Pending(x) && x.sequence < next
    requires after == if AbandonsBootstrap(x) then before.(failed := before.failed + {x.sequence}) else before
    requires forall k :: 0 <= k < |before.acceptances| ==> Follows(before, k)
    ensures LogFits(after, next) && forall k :: 0 <= k < |after.acceptances| ==> Follows(after, k)
  {
    forall k | 0 <= k < |after.acceptances| ensures Follows(after, k) {
      assert Follows(before, k);
    }
  }

  /** An intent without retry material cannot be made pending again: the save is refused. */
  lemma RevivedIsRefused(e: Platform, c: State, i: nat)
    requires i < |c.intents| && Pending(c.intents[i]) && c.intents[i].envelope.None?
    ensures Commit(e, c).None?
  {
    hide PendingOnly, Subsequence, Compacted, Pending;
    if Commit(e, c).Some? {
      var t := Commit(e, c).value;
      CommitFacts(e, c);
      PendingMembers(c.intents, c.intents[i]);
      PendingMembers(t.intents, c.intents[i]);
      var k :| 0 <= k < |t.intents| && t.intents[k] == c.intents[i];
      assert IntentValid(e.h, t.intents[k], t.sessions);
    }
  }

  lemma FailSane(e: Platform, w: World, deterministic: bool)
    requires Sane(e, w) && Step(e, w, Fail(deterministic)).Some?
    ensures Sane(e, Step(e, w, Fail(deterministic)).value)
  {
    hide Commit, StateValid, Retry, AnyAccepted, HasDependent, AttemptFits, ProgressAcknowledged;
    var i := Place(w);
    IntentFacts(e, w, i);
    var x := w.state.intents[i];
    var c := FailCandidate(w.state, i, deterministic).value;
    var y := c.intents[i];
    if Pending(y) {
      if !Pending(x) {
        RevivedIsRefused(e, c, i);
      }
      SameProgress(x, y, w.attempts);
    } else {
      FinalIntentFits(y, w.attempts);
    }
    ProgressSane(e, w, i, y);
  }

  lemma FailOrderly(e: Platform, w: World, deterministic: bool)
    requires Good(e, w) && Aligned(w) && Step(e, w, Fail(deterministic)).Some?
    ensures Orderly(Step(e, w, Fail(deterministic)).value.state, Step(e, w, Fail(deterministic)).value.log)
  {
    hide IntentValid, IntentLogged, InOrder, FirstBlocking, LogFits, Follows, Settled, Commit, AnyAccepted;
    hide SequencesIncrease, AbandonsBootstrap, HasDependent, Retry;
    CurrentLogged(w);
    var s, i, x := w.state, FirstBlocking(w.state.intents), Current(w.state).value;
    if deterministic && !HasDependent(s, i) {
      var y := x.(status := PermanentFailure, envelope := None, deliveries := []);
      var after := if AbandonsBootstrap(x) then w.log.(failed := w.log.failed + {x.sequence}) else w.log;
      var c := WithCurrent(s, y);
      ReplaceCurrentInOrder(s.intents, y);
      forall b | b in after.bootstraps ensures Settled(c, after, b) {
        FailedSettled(s, x, y, w.log, after, b);
      }
      BelowNext(s.intents, s.nextSequence, i);
      FailedLog(x, w.log, after, s.nextSequence);
      FailedIntents(s, x, y, w.log, after);
      SavedOrderly(e, c, after);
    } else {
      ProgressOrderly(e, w, x.(status := RetryableFailure));
    }
  }

  lemma SameProgress(x: Intent, y: Intent, attempts: seq<Attempt>)
    requires Pending(x) && y == x.(status := y.status, attemptCount := y.attemptCount) && Pending(y)
    requires ProgressAcknowledged(x, attempts) && forall k :: 0 <= k < |attempts| ==> AttemptFits(x, attempts[k])
    ensures Progressed(x, y)
    ensures ProgressAcknowledged(y, attempts) && forall k :: 0 <= k < |attempts| ==> AttemptFits(y, attempts[k])
  {
    forall k | 0 <= k < |attempts| ensures AttemptFits(y, attempts[k]) {
      assert AttemptFits(x, attempts[k]);
    }
  }

  // ---- Discard ----

  /** The named intent and the state a discard makes of it. */
  ghost predicate Discards(s: State, named: Intent, c: State) {
    && named in s.intents && named.status != RelayAccepted && !named.control
    && (AbandonsBootstrap(named) ==> forall x :: x in s.intents && Doomed(named, x) ==> x.status != RelayAccepted)
    && c == s.(intents := DiscardIntents(s.intents, named),
               sessions := if AbandonsBootstrap(named) then WithoutSession(s.sessions, named.sessionID) else s.sessions,
               activeSession := if AbandonsBootstrap(named) && s.activeSession == Some(named.sessionID) then None
                                else s.activeSession)
  }

  lemma DiscardFacts(s: State, transactionID: nat) returns (named: Intent)
    requires DiscardCandidate(s, transactionID).Ok?
    ensures Discards(s, named, DiscardCandidate(s, transactionID).value) && named.transactionID == transactionID
  {
    hide AnyAccepted, AbandonsBootstrap, Doomed, WithoutSession;
    named := s.intents[FindTransaction(s.intents, transactionID)];
    forall x | AbandonsBootstrap(named) && x in s.intents && Doomed(named, x) ensures x.status != RelayAccepted {
      var k :| 0 <= k < |s.intents| && s.intents[k] == x;
    }
  }

  /**
   * Discarding an unsent bootstrap leaves no live reference to its session:
   * the session is gone, it is not active, and every intent in it is discarded
   * without retry material. Other intents stay as they were.
   */
  lemma DiscardedBootstrapLeavesNothing(s: State, transactionID: nat)
    requires DiscardCandidate(s, transactionID).Ok?
    ensures var named := s.intents[FindTransaction(s.intents, transactionID)];
            var c := DiscardCandidate(s, transactionID).value;
            && |c.intents| == |s.intents|
            && (forall i :: 0 <= i < |s.intents| ==>
                  if s.intents[i].sequence == named.sequence
                    || (AbandonsBootstrap(named) && s.intents[i].sessionID == named.sessionID)
                  then c.intents[i].status == Discarded && c.intents[i].envelope.None? && c.intents[i].deliveries == []
                  else c.intents[i] == s.intents[i])
            && (AbandonsBootstrap(named) ==>
                  && named.sessionID !in c.sessions && c.activeSession != Some(named.sessionID)
                  && !AnyAccepted(named.deliveries)
                  && forall i :: 0 <= i < |s.intents| && s.intents[i].sessionID == named.sessionID ==>
                       s.intents[i].status != RelayAccepted)
  {
    hide AnyAccepted;
    var named := s.intents[FindTransaction(s.intents, transactionID)];
    forall i | 0 <= i < |s.intents| && AbandonsBootstrap(named) && s.intents[i].sessionID == named.sessionID
      ensures s.intents[i].status != RelayAccepted
    {
      assert Doomed(named, s.intents[i]);
    }
  }

  lemma DiscardMember(intents: seq<Intent>, named: Intent, y: Intent) returns (x: Intent)
    requires y in DiscardIntents(intents, named)
    ensures x in intents && y == if Doomed(named, x) then Discarding(x) else x
  {
    hide Doomed;
    var after := DiscardIntents(intents, named);
    var k :| 0 <= k < |after| && after[k] == y;
    x := intents[k];
  }

  lemma DiscardInOrder(intents: seq<Intent>, named: Intent)
    requires InOrder(intents)
    ensures InOrder(DiscardIntents(intents, named))
  {
    hide Doomed;
    var after := DiscardIntents(intents, named);
    forall p, q | 0 <= p < q < |after| && Blocking(after[p])
      ensures after[q].status == Prepared || after[q].status == Discarded
    {
      assert after[p] == intents[p];
    }
  }

  lemma DiscardRetry(intents: seq<Intent>, named: Intent, next: nat, attempts: seq<Attempt>)
    requires Retry(intents, next, attempts)
    ensures Retry(DiscardIntents(intents, named), next, attempts)
  {
    hide AttemptFits, ProgressAcknowledged, AttemptsAgree, Doomed, DiscardIntents, Discarding;
    forall y | y in DiscardIntents(intents, named)
      ensures ProgressAcknowledged(y, attempts) && forall k :: 0 <= k < |attempts| ==> AttemptFits(y, attempts[k])
    {
      var x := DiscardMember(intents, named, y);
      if Doomed(named, x) {
        DiscardedIsFinal(x);
        FinalIntentFits(y, attempts);
      }
    }
  }

  lemma DiscardedIsFinal(x: Intent)
    ensures !Pending(Discarding(x)) && Discarding(x).status == Discarded && !AbandonsBootstrap(Discarding(x))
    ensures Discarding(x).sequence == x.sequence && Discarding(x).sessionID == x.sessionID
  {
  }

  lemma DiscardLogged(s: State, named: Intent, c: State, log: Log, next: nat)
    requires Discards(s, named, c) && SequencesIncrease(s.intents, next)
    requires forall x :: x in s.intents ==> IntentLogged(x, log)
    ensures forall y :: y in c.intents ==> IntentLogged(y, log)
  {
    hide DiscardIntents, WithoutSession, AbandonsBootstrap;
    forall y | y in c.intents ensures IntentLogged(y, log) {
      var x := DiscardMember(s.intents, named, y);
      assert IntentLogged(x, log);
      if Doomed(named, x) {
        DiscardedIsFinal(x);
        DoomedUnaccepted(s, named, c, x, next);
      }
    }
  }

  lemma DoomedUnaccepted(s: State, named: Intent, c: State, x: Intent, next: nat)
    requires Discards(s, named, c) && SequencesIncrease(s.intents, next) && x in s.intents && Doomed(named, x)
    ensures x.status != RelayAccepted
  {
    if !AbandonsBootstrap(named) {
      var j :| 0 <= j < |s.intents| && s.intents[j] == x;
      var k :| 0 <= k < |s.intents| && s.intents[k] == named;
      assert j == k;
    }
  }

  lemma DiscardSettled(h: Hashes, s: State, named: Intent, c: State, log: Log, b: nat)
    requires Discards(s, named, c) && SequencesIncrease(s.intents, s.nextSequence)
    requires IntentLogged(named, log) && IntentValid(h, named, s.sessions)
    requires b in log.bootstraps && Settled(s, log, b)
    ensures Settled(c, log, b)
  {
    hide IntentLogged, IntentValid, WithoutSession, DiscardIntents, NothingAccepted, Discarding;
    if Waiting(s.intents, log, b) {
      var z :| z in s.intents && Waits(z, b, log.bootstraps[b]);
      if Doomed(named, z) {
        SameSequenceSameIntent(s.intents, s.nextSequence, named, z, log);
        DoomedSessionDies(s, named, c, log, b);
      } else {
        StaysListed(s.intents, named, z);
        assert Waits(z, b, log.bootstraps[b]);
      }
    } else if Dead(s, log, b) {
      forall y | y in c.intents && y.sessionID == b ensures y.status == Discarded {
        var x := DiscardMember(s.intents, named, y);
        DiscardedIsFinal(x);
      }
      assert Dead(c, log, b);
    }
  }

  lemma SameSequenceSameIntent(intents: seq<Intent>, next: nat, named: Intent, z: Intent, log: Log)
    requires SequencesIncrease(intents, next) && named in intents && z in intents && Doomed(named, z)
    requires IntentLogged(named, log) && AbandonsBootstrap(z)
    requires z.sessionID in log.bootstraps && log.bootstraps[z.sessionID] == z.sequence
    ensures AbandonsBootstrap(named) && named.sessionID == z.sessionID
  {
    var j :| 0 <= j < |intents| && intents[j] == named;
    var k :| 0 <= k < |intents| && intents[k] == z;
    assert named.sequence == z.sequence ==> j == k;
  }

  lemma DoomedSessionDies(s: State, named: Intent, c: State, log: Log, b: nat)
    requires Discards(s, named, c) && AbandonsBootstrap(named) && named.sessionID == b && NothingAccepted(log, b)
    ensures Dead(c, log, b)
  {
    hide NothingAccepted, DiscardIntents, WithoutSession;
    forall y | y in c.intents && y.sessionID == b ensures y.status == Discarded {
      var x := DiscardMember(s.intents, named, y);
      DiscardedIsFinal(x);
    }
  }

  lemma StaysListed(intents: seq<Intent>, named: Intent, z: Intent)
    requires z in intents && !Doomed(named, z)
    ensures z in DiscardIntents(intents, named)
  {
    hide Doomed;
    var k :| 0 <= k < |intents| && intents[k] == z;
    assert DiscardIntents(intents, named)[k] == z;
  }

  lemma DiscardSane(e: Platform, w: World, transactionID: nat)
    requires Sane(e, w) && Step(e, w, Discard(transactionID)).Some?
    ensures Sane(e, Step(e, w, Discard(transactionID)).value)
  {
    hide Commit, StateValid, Retry, Discards, DiscardCandidate, DiscardIntents, WithoutSession;
    var s := w.state;
    var c := DiscardCandidate(s, transactionID).value;
    var named := DiscardFacts(s, transactionID);
    DiscardShape(s, named, c);
    DiscardRetry(s.intents, named, s.nextSequence, w.attempts);
    SavedSane(e, c, w.attempts);
  }

  lemma DiscardOrderly(e: Platform, w: World, transactionID: nat)
    requires Good(e, w) && Step(e, w, Discard(transactionID)).Some?
    ensures Orderly(Step(e, w, Discard(transactionID)).value.state, Step(e, w, Discard(transactionID)).value.log)
  {
    hide IntentValid, IntentLogged, InOrder, LogFits, Follows, Settled, Commit, SequencesIncrease, Retry;
    hide Discards, DiscardCandidate, DiscardIntents, WithoutSession;
    var s := w.state;
    var c := DiscardCandidate(s, transactionID).value;
    var named := DiscardFacts(s, transactionID);
    DiscardShape(s, named, c);
    DiscardInOrder(s.intents, named);
    DiscardLogged(s, named, c, w.log, s.nextSequence);
    forall b | b in w.log.bootstraps ensures Settled(c, w.log, b) {
      DiscardSettled(e.h, s, named, c, w.log, b);
    }
    SavedOrderly(e, c, w.log);
  }

  lemma DiscardShape(s: State, named: Intent, c: State)
    requires Discards(s, named, c)
    ensures named in s.intents && c.intents == DiscardIntents(s.intents, named) && c.nextSequence == s.nextSequence
    ensures forall x :: x in c.sessions ==> x in s.sessions
  {
  }

  // ---- Inbound effects ----

  lemma ReceivedSettled(s: State, c: State, before: Log, after: Log, b: nat)
    requires c.intents == s.intents && b in before.bootstraps && b in before.used && Settled(s, before, b)
    requires after == before.(used := after.used)
    requires forall x :: x in c.sessions ==> x in s.sessions || x !in before.used
    ensures Settled(c, after, b)
  {
    hide Pending, AbandonsBootstrap;
    assert NothingAccepted(after, b) == NothingAccepted(before, b);
    if Waiting(s.intents, before, b) {
      var x :| x in s.intents && Waits(x, b, before.bootstraps[b]);
      assert x in c.intents && Waits(x, b, after.bootstraps[b]);
    }
  }

  lemma ReceiveSane(e: Platform, w: World, sessions: seq<nat>, activeSession: Option<nat>, records: seq<seq<nat>>)
    requires Sane(e, w) && Step(e, w, Receive(sessions, activeSession, records)).Some?
    ensures Sane(e, Step(e, w, Receive(sessions, activeSession, records)).value)
  {
    hide Commit, StateValid, Retry;
    SavedSane(e, w.state.(sessions := sessions, activeSession := activeSession, records := records), w.attempts);
  }

  lemma ReceiveOrderly(e: Platform, w: World, sessions: seq<nat>, activeSession: Option<nat>, records: seq<seq<nat>>)
    requires Good(e, w) && Step(e, w, Receive(sessions, activeSession, records)).Some?
    ensures var v := Step(e, w, Receive(sessions, activeSession, records)).value; Orderly(v.state, v.log)
  {
    hide InOrder, Settled, Commit, Retry, StateValid, Pending;
    var s := w.state;
    var c := s.(sessions := sessions, activeSession := activeSession, records := records);
    var after := w.log.(used := w.log.used + set x | x in sessions);
    forall b | b in after.bootstraps ensures Settled(c, after, b) {
      ReceivedSettled(s, c, w.log, after, b);
    }
    forall k | 0 <= k < |after.acceptances| ensures Follows(after, k) {
      assert Follows(w.log, k);
    }
    forall x | x in c.intents ensures IntentLogged(x, after) {
      assert IntentLogged(x, w.log);
    }
    SavedOrderly(e, c, after);
  }

  // ---- A new intent ----

  lemma AppendInOrder(intents: seq<Intent>, x: Intent)
    requires InOrder(intents) && x.status == Prepared
    ensures InOrder(intents + [x])
  {
  }

  lemma AppendRetry(intents: seq<Intent>, x: Intent, next: nat, attempts: seq<Attempt>)
    requires Retry(intents, next, attempts) && x.sequence == next && FreshDeliveries(x.deliveries)
    ensures Retry(intents + [x], next + 1, attempts)
  {
    hide AttemptsAgree, Acknowledged, Pending;
    assert ProgressAcknowledged(x, attempts);
    assert forall k :: 0 <= k < |attempts| ==> AttemptFits(x, attempts[k]);
  }

  /** The outbox a new intent joins: compacted, and with a session to use. */
  ghost predicate Roomy(s: State, roomy: State, t: State, freshSession: nat) {
    && Subsequence(roomy.intents, s.intents) && PendingOnly(roomy.intents) == PendingOnly(s.intents)
    && t.intents == roomy.intents && t.activeSession.Some?
    && t.nextSequence == s.nextSequence
    && (s.activeSession.Some? ==> t.activeSession == s.activeSession)
    && (s.activeSession.None? ==> t.activeSession == Some(freshSession))
    && forall x :: x in t.sessions ==> x in s.sessions || (s.activeSession.None? && x == freshSession)
  }

  lemma PrepareFacts(s: State, r: Request) returns (roomy: State, t: State)
    requires PrepareCandidate(s, r).Some?
    ensures Roomy(s, roomy, t, r.freshSession) && FreshDeliveries(r.deliveries)
    ensures PrepareCandidate(s, r).value
         == t.(nextSequence := s.nextSequence + 1,
               intents := t.intents + [NewIntent(s, r, t.activeSession.value, s.activeSession.None?)],
               activeSession := if r.retiresSession then None else t.activeSession)
  {
    hide Subsequence, PendingOnly, CompactTerminal, FindTransaction, FreshDeliveries, ReserveSession, Target;
    roomy := WithCapacity(s).value;
    t := WithSession(roomy, r.freshSession).value;
    CompactTerminalKeeps(s.intents, Target(s.intents, 1));
    if s.activeSession.None? {
      ReserveFacts(roomy);
    }
  }

  lemma ReserveFacts(s: State)
    requires ReserveSession(s).Some?
    ensures var t := ReserveSession(s).value;
            t == s.(sessions := t.sessions) && forall x :: x in t.sessions ==> x in s.sessions
  {
    hide Subsequence, Protected, ReserveSession;
    ReserveKeepsProtected(s);
    Members(ReserveSession(s).value.sessions, s.sessions);
  }

  lemma PreparedSettled(s: State, c: State, x: Intent, before: Log, after: Log, freshSession: nat, b: nat)
    requires c.intents != [] && c.intents[|c.intents| - 1] == x && Pending(x)
    requires forall y :: y in c.intents[..|c.intents| - 1] ==> y in s.intents
    requires forall y :: y in s.intents && Pending(y) ==> y in c.intents
    requires forall y :: y in c.sessions ==> y in s.sessions || (s.activeSession.None? && y == freshSession)
    requires LogFits(before, s.nextSequence) && (s.activeSession.None? ==> freshSession !in before.used)
    requires s.activeSession.Some? ==>
               s.activeSession.value in s.sessions && x.sessionID == s.activeSession.value && after == before
    requires s.activeSession.None? ==>
               && x.sessionID == freshSession && x.sequence == s.nextSequence && AbandonsBootstrap(x)
               && after == before.(bootstraps := before.bootstraps[freshSession := s.nextSequence],
                                   used := before.used + {freshSession})
    requires forall b' :: b' in before.bootstraps ==> Settled(s, before, b')
    requires b in after.bootstraps
    ensures Settled(c, after, b)
  {
    hide AbandonsBootstrap, Pending;
    assert forall y :: y in c.intents ==> y == x || y in c.intents[..|c.intents| - 1];
    if b !in before.bootstraps {
      assert NothingAccepted(after, b);
      assert x in c.intents && Waits(x, b, after.bootstraps[b]);
    } else {
      assert (s.activeSession.None? ==> b != freshSession) && Settled(s, before, b);
      assert NothingAccepted(after, b) == NothingAccepted(before, b);
      if Waiting(s.intents, before, b) {
        var z :| z in s.intents && Waits(z, b, before.bootstraps[b]);
        assert z in c.intents && Waits(z, b, after.bootstraps[b]);
      }
    }
  }

  lemma PreparedLogged(s: State, x: Intent, before: Log, after: Log, freshSession: nat)
    requires LogFits(before, s.nextSequence) && x.sequence == s.nextSequence
    requires s.activeSession.None? ==> freshSession !in before.used
    requires s.activeSession.Some? ==>
               s.activeSession.value in before.used && x.sessionID == s.activeSession.value && after == before
                 && !AbandonsBootstrap(x)
    requires s.activeSession.None? ==>
               && x.sessionID == freshSession
               && after == before.(bootstraps := before.bootstraps[freshSession := s.nextSequence],
                                   used := before.used + {freshSession})
    requires forall y :: y in s.intents ==> IntentLogged(y, before)
    requires forall k :: 0 <= k < |before.acceptances| ==> Follows(before, k)
    ensures LogFits(after, s.nextSequence + 1) && IntentLogged(x, after)
    ensures forall y :: y in s.intents ==> IntentLogged(y, after)
    ensures forall k :: 0 <= k < |after.acceptances| ==> Follows(after, k)
  {
    hide AbandonsBootstrap, Pending;
    forall y | y in s.intents ensures IntentLogged(y, after) {
      assert IntentLogged(y, before);
    }
    forall k | 0 <= k < |after.acceptances| ensures Follows(after, k) {
      assert Follows(before, k);
    }
  }

  lemma PrepareSane(e: Platform, w: World, r: Request)
    requires Sane(e, w) && Step(e, w, Prepare(r)).Some?
    ensures Sane(e, Step(e, w, Prepare(r)).value)
  {
    hide Commit, StateValid, Retry, PrepareCandidate, Subsequence, PendingOnly, FreshDeliveries;
    var s := w.state;
    var roomy, t := PrepareFacts(s, r);
    var x := NewIntent(s, r, t.activeSession.value, s.activeSession.None?);
    Members(roomy.intents, s.intents);
    SavedRetry(roomy.intents, s.intents, s.nextSequence, w.attempts);
    AppendRetry(roomy.intents, x, s.nextSequence, w.attempts);
    SavedSane(e, PrepareCandidate(s, r).value, w.attempts);
  }

  lemma PrepareOrderly(e: Platform, w: World, r: Request)
    requires Good(e, w) && Step(e, w, Prepare(r)).Some?
    ensures Orderly(Step(e, w, Prepare(r)).value.state, Step(e, w, Prepare(r)).value.log)
  {
    hide InOrder, Settled, Commit, Retry, IntentLogged, LogFits, Follows, PrepareCandidate, Subsequence;
    hide PendingOnly, IntentValid, SequencesIncrease, FreshDeliveries;
    var s := w.state;
    var roomy, t := PrepareFacts(s, r);
    var c := PrepareCandidate(s, r).value;
    var x := NewIntent(s, r, t.activeSession.value, s.activeSession.None?);
    var after :=
      if s.activeSession.None? then
        w.log.(bootstraps := w.log.bootstraps[r.freshSession := s.nextSequence], used := w.log.used + {r.freshSession})
      else w.log;
    Members(roomy.intents, s.intents);
    TrimKeepsOrder(roomy.intents, s.intents, s.nextSequence);
    AppendInOrder(roomy.intents, x);
    PreparedLogged(s, x, w.log, after, r.freshSession);
    assert c.intents[..|c.intents| - 1] == roomy.intents;
    KeptPending(roomy.intents, s.intents);
    forall b | b in after.bootstraps ensures Settled(c, after, b) {
      PreparedSettled(s, c, x, w.log, after, r.freshSession, b);
    }
    PreparedBoot(s, roomy, c, x, after, r.freshSession);
    SavedOrderly(e, c, after);
  }

  lemma KeptPending(a: seq<Intent>, b: seq<Intent>)
    requires PendingOnly(a) == PendingOnly(b)
    ensures forall y :: y in b && Pending(y) ==> y in a
  {
    hide PendingOnly, Pending;
    forall y | y in b && Pending(y) ensures y in a {
      PendingMembers(a, y);
      PendingMembers(b, y);
    }
  }

  lemma PreparedBoot(s: State, roomy: State, c: State, x: Intent, after: Log, freshSession: nat)
    requires LogFits(after, s.nextSequence + 1) && c.nextSequence == s.nextSequence + 1
    requires c.intents == roomy.intents + [x] && IntentLogged(x, after)
    requires forall y :: y in roomy.intents ==> y in s.intents
    requires forall y :: y in s.intents ==> IntentLogged(y, after)
    requires forall y :: y in c.sessions ==> y in after.used
    requires forall k :: 0 <= k < |after.acceptances| ==> Follows(after, k)
    requires forall b :: b in after.bootstraps ==> Settled(c, after, b)
    ensures Boot(c, after)
  {
    hide LogFits, IntentLogged, Follows, Settled;
  }

  // ---- Where the kept place can name another intent ----

  lemma ReplaceKeepsPendingCount(intents: seq<Intent>, i: nat, y: Intent)
    requires i < |intents| && Pending(intents[i]) && Pending(y)
    ensures PendingCount(intents[i := y]) == PendingCount(intents)
  {
    hide Pending, PendingOnly;
    var before, after := intents[..i], intents[i + 1..];
    assert intents == (before + [intents[i]]) + after && intents[i := y] == (before + [y]) + after;
    PendingOnlyAppend(before + [intents[i]], after);
    PendingOnlyAppend(before + [y], after);
    PendingOnlyAppend(before, [intents[i]]);
    PendingOnlyAppend(before, [y]);
    OnePending(intents[i]);
    OnePending(y);
  }

  lemma OnePending(x: Intent)
    requires Pending(x)
    ensures PendingOnly([x]) == [x]
  {
    assert [x][..0] == [];
  }

  lemma ShortEnough(intents: seq<Intent>, target: nat)
    requires |intents| <= target
    ensures CompactTerminal(intents, target) == intents
  {
  }

  lemma FirstBlockingUnique(intents: seq<Intent>, i: nat)
    requires i < |intents| && Blocking(intents[i]) && forall k :: 0 <= k < i ==> !Blocking(intents[k])
    ensures FirstBlocking(intents) == i
  {
  }

  /** Length compaction finds nothing to remove from an orderly outbox whose first blocking intent has moved along. */
  lemma ProgressIsShort(e: Platform, w: World, y: Intent)
    requires Good(e, w) && Current(w.state).Some? && Progressed(Current(w.state).value, y)
    ensures var c := WithCurrent(w.state, y);
            LengthCompacted(c) == c && FirstBlocking(c.intents) == FirstBlocking(w.state.intents)
  {
    hide InOrder, Retry, Boot, PendingOnly, CompactTerminal, IntentValid, SequencesIncrease;
    var i := FirstBlocking(w.state.intents);
    var c := WithCurrent(w.state, y);
    ReplaceKeepsPendingCount(w.state.intents, i, y);
    FirstBlockingUnique(c.intents, i);
    ShortEnough(c.intents, Target(c.intents, 0));
    assert c.(intents := c.intents) == c;
  }

  /**
   * Everything before the first blocking intent can be compacted, so the first
   * removal for bytes takes the very first.
   */
  lemma FrontGoesFirst(s: State)
    requires 0 < FirstBlocking(s.intents) < |s.intents|
    ensures DropOne(s) == Some(s.(intents := RemoveAt(s.intents, 0)))
  {
    hide PendingInSession;
    assert !Blocking(s.intents[0]);
  }

  /** What is left of the intents before and behind a place when the front has gone stands nearer to the front. */
  lemma ShiftedBehind(before: seq<Intent>, after: seq<Intent>, next: nat, i: nat)
    requires SequencesIncrease(before, next) && i < |before| && Subsequence(after, RemoveAt(before, 0)) && i < |after|
    ensures after[i].sequence > before[i].sequence
  {
    hide Subsequence;
    var rest := RemoveAt(before, 0);
    var p := SubsequenceMember(after, rest, i);
    assert rest[p] == before[p + 1];
  }

  lemma IncreasesStill(s: State, i: nat, y: Intent)
    requires SequencesIncrease(s.intents, s.nextSequence) && i < |s.intents| && y.sequence == s.intents[i].sequence
    ensures SequencesIncrease(s.intents[i := y], s.nextSequence)
  {
  }

  /** A pending first entry stays the first entry under any trimming. */
  lemma FirstStays(before: seq<Intent>, after: seq<Intent>, next: nat)
    requires SequencesIncrease(before, next) && before != [] && Pending(before[0])
    requires Subsequence(after, before) && PendingOnly(after) == PendingOnly(before)
    ensures after != [] && after[0] == before[0]
  {
    hide Subsequence, PendingOnly, Pending;
    assert before[0] in before;
    PendingMembers(before, before[0]);
    PendingMembers(after, before[0]);
    var k :| 0 <= k < |after| && after[k] == before[0];
    TrimKeepsOrder(after, before, next);
    var p := SubsequenceMember(after, before, 0);
  }

  /**
   * Exactly when a save in the middle of a turn leaves the intent being
   * published at its place: nothing stands before it, or the candidate is
   * within the byte budget. Otherwise the save removes what stands first, and
   * the place names a later intent or none.
   */
  lemma PublishingIndexIsStable(e: Platform, w: World, y: Intent)
    requires Good(e, w) && Current(w.state).Some? && Progressed(Current(w.state).value, y)
    requires Commit(e, WithCurrent(w.state, y)).Some?
    ensures var i := FirstBlocking(w.state.intents); var c := WithCurrent(w.state, y); var t := Commit(e, c).value;
            && (KeepsPlace(e.size, c) <==> i == 0 || e.size(c) <= MAXIMUM_STATE_BYTES)
            && (KeepsPlace(e.size, c) <==> i < |t.intents| && t.intents[i].sequence == y.sequence)
            && (KeepsPlace(e.size, c) <==> FirstBlocking(t.intents) == i)
            && (KeepsPlace(e.size, c) ==> i < |t.intents| && t.intents[i] == y)
  {
    hide StateValid, InOrder, Retry, Boot, LengthCompacted, PendingOnly, DropOne, FirstBlocking, Subsequence;
    var i := FirstBlocking(w.state.intents);
    var c := WithCurrent(w.state, y);
    var t := Commit(e, c).value;
    ProgressIsShort(e, w, y);
    CommitFacts(e, c);
    CurrentIncreases(e, w, y);
    assert c.intents[i] == y;
    if e.size(c) <= MAXIMUM_STATE_BYTES {
      assert t.intents == c.intents;
    } else if i == 0 {
      FirstStays(c.intents, t.intents, c.nextSequence);
      FirstBlockingUnique(t.intents, 0);
    } else {
      FrontGoesFirst(c);
      var rest := c.(intents := RemoveAt(c.intents, 0));
      TrimToBudgetTrims(e.size, rest);
      if i < |t.intents| {
        ShiftedBehind(c.intents, t.intents, c.nextSequence, i);
      }
      StandsEarlier(c.intents, t.intents, c.nextSequence, i);
    }
  }

  lemma CurrentIncreases(e: Platform, w: World, y: Intent)
    requires Good(e, w) && Current(w.state).Some? && Progressed(Current(w.state).value, y)
    ensures var c := WithCurrent(w.state, y);
            SequencesIncrease(c.intents, c.nextSequence) && c.intents[FirstBlocking(w.state.intents)] == y && Pending(y)
  {
    hide InOrder, Retry, Boot, IntentValid, SequencesIncrease;
    IncreasesStill(w.state, FirstBlocking(w.state.intents), y);
  }

  /** A pending intent is kept, so after a removal before it the first blocking place is nearer to the front. */
  lemma StandsEarlier(before: seq<Intent>, after: seq<Intent>, next: nat, i: nat)
    requires SequencesIncrease(before, next) && i < |before| && Pending(before[i])
    requires Subsequence(after, RemoveAt(before, 0)) && Subsequence(after, before)
             && PendingOnly(after) == PendingOnly(before)
    ensures FirstBlocking(after) < i
  {
    hide Subsequence, PendingOnly, FirstBlocking;
    var y := before[i];
    PendingMembers(before, y);
    PendingMembers(after, y);
    var k :| 0 <= k < |after| && after[k] == y;
    TrimKeepsOrder(after, before, next);
    if k >= i {
      ShiftedBehind(before, after, next, i);
    }
  }

  // ---- Every run ----

  lemma StepSane(e: Platform, w: World, a: Action)
    requires Sane(e, w) && Step(e, w, a).Some?
    ensures Sane(e, Step(e, w, a).value)
  {
    hide Sane, Step;
    match a
    case Prepare(r) => PrepareSane(e, w, r);
    case Receive(sessions, activeSession, records) => ReceiveSane(e, w, sessions, activeSession, records);
    case Publish => PublishSane(e, w);
    case Refresh(d, at, nonce) => RefreshSane(e, w, d, at, nonce);
    case Send(d, relayAccepts) => SendSane(e, w, d, relayAccepts);
    case Advance(d) => AdvanceSane(e, w, d);
    case Accept => AcceptSane(e, w);
    case Fail(deterministic) => FailSane(e, w, deterministic);
    case Discard(transactionID) => DiscardSane(e, w, transactionID);
  }

  // ---- Every run is bounded ----

  lemma SavedBounded(e: Platform, c: State)
    requires Commit(e, c).Some? && Near(c.intents, FAILURE_REACH)
    ensures var t := Commit(e, c).value;
            |t.intents| <= PendingCount(t.intents) + 256 && Near(t.intents, FAILURE_REACH)
  {
    hide Commit, StateValid, Near, Subsequence, PendingOnly;
    CommitFacts(e, c);
    SavedOutboxIsBounded(e, c);
    TrimKeepsNear(Commit(e, c).value.intents, c.intents, FAILURE_REACH);
  }

  /** A save keeps the pending intent that blocks first, and everything behind it that it keeps at all. */
  lemma SavedPlaceNear(e: Platform, c: State, place: nat)
    requires Commit(e, c).Some? && SequencesIncrease(c.intents, c.nextSequence) && PlaceNear(c.intents, place)
    ensures PlaceNear(Commit(e, c).value.intents, place)
  {
    hide Commit, StateValid, Subsequence, PendingOnly, SequencesIncrease;
    CommitFacts(e, c);
    var after, first := Commit(e, c).value.intents, FirstBlocking(c.intents);
    FirstPendingStays(c.intents, after, c.nextSequence);
    var p := SubsequenceMember(after, c.intents, FirstBlocking(after));
  }

  lemma FirstPendingStays(before: seq<Intent>, after: seq<Intent>, next: nat)
    requires Subsequence(after, before) && PendingOnly(after) == PendingOnly(before) && SequencesIncrease(before, next)
    requires FirstBlocking(before) < |before| && Pending(before[FirstBlocking(before)])
    ensures FirstBlocking(after) < |after| && FirstBlocking(after) <= FirstBlocking(before)
    ensures after[FirstBlocking(after)] == before[FirstBlocking(before)]
  {
    hide Subsequence, PendingOnly, FirstBlocking;
    var y := before[FirstBlocking(before)];
    PendingMembers(before, y);
    PendingMembers(after, y);
    var k :| 0 <= k < |after| && after[k] == y;
    var p := SubsequenceMember(after, before, k);
    assert p == FirstBlocking(before);
    if FirstBlocking(after) < k {
      var i, j := SubsequencePair(after, before, FirstBlocking(after), k);
    }
  }

  /** An intent that moves along, or becomes final without failing for good, brings no failure and no new obstacle. */
  lemma ReplaceNear(intents: seq<Intent>, i: nat, y: Intent, reach: nat)
    requires Near(intents, reach) && i < |intents|
    requires y.status != PermanentFailure && (Blocking(y) ==> Blocking(intents[i]))
    ensures Near(intents[i := y], reach)
  {
    hide Blocking;
  }

  /** An intent that fails for good at the kept place stands near the first blocking one. */
  lemma FailNear(intents: seq<Intent>, place: nat, y: Intent)
    requires Near(intents, FAILURE_REACH) && PlaceNear(intents, place) && place < |intents|
    ensures Near(intents[place := y], FAILURE_REACH)
  {
    hide FirstBlocking, Pending;
    var first := FirstBlocking(intents);
    assert Blocking(intents[first]);
    var after := intents[place := y];
    forall i, j | 0 <= i < j < |after| && Blocking(after[i]) && after[j].status == PermanentFailure
      ensures j - i <= FAILURE_REACH
    {
      assert i < place ==> first <= i;
      assert j > place && first < place ==> j - first <= FAILURE_REACH;
    }
  }

  lemma ReplacePlaceNear(intents: seq<Intent>, i: nat, y: Intent, place: nat)
    requires PlaceNear(intents, place) && i < |intents| && Pending(intents[i]) && Pending(y)
    ensures PlaceNear(intents[i := y], place)
  {
    hide FirstBlocking;
    FirstBlockingUnique(intents[i := y], FirstBlocking(intents));
  }

  /** A save in the middle of a turn: a pending intent at the place, or at the front, stays pending. */
  lemma ProgressBounded(e: Platform, w: World, i: nat, y: Intent, place: nat)
    requires Sane(e, w) && Bounded(w) && i < |w.state.intents| && Commit(e, WithIntent(w.state, i, y)).Some?
    requires Pending(w.state.intents[i]) && Pending(y) && y.sequence == w.state.intents[i].sequence
    requires PlaceNear(w.state.intents, place)
    ensures var t := Commit(e, WithIntent(w.state, i, y)).value;
            && |t.intents| <= PendingCount(t.intents) + 256 && Near(t.intents, FAILURE_REACH)
               && PlaceNear(t.intents, place)
  {
    hide Commit, Near, PlaceNear, PendingOnly, Retry, IntentValid, SequencesIncrease;
    var c := WithIntent(w.state, i, y);
    ReplaceNear(w.state.intents, i, y, FAILURE_REACH);
    SavedBounded(e, c);
    IncreasesStill(w.state, i, y);
    ReplacePlaceNear(w.state.intents, i, y, place);
    SavedPlaceNear(e, c, place);
  }

  lemma PublishBounded(e: Platform, w: World)
    requires Sane(e, w) && Bounded(w) && Step(e, w, Publish).Some?
    ensures Bounded(Step(e, w, Publish).value)
  {
    hide Commit, Near, PendingOnly, Retry, IntentValid, SequencesIncrease, FirstBlocking, Sane;
    var i := FirstBlocking(w.state.intents);
    var y := PublishCandidate(w.state).value.intents[i];
    StatePending(e, w);
    assert PlaceNear(w.state.intents, i);
    ProgressBounded(e, w, i, y, i);
  }

  lemma StatePending(e: Platform, w: World)
    requires Sane(e, w)
    ensures PendingCount(w.state.intents) <= MAXIMUM_PENDING_INTENTS
  {
    hide PendingOnly, Retry, IntentValid, SequencesIncrease;
  }

  lemma RefreshBounded(e: Platform, w: World, d: nat, at: int, nonce: Id)
    requires Sane(e, w) && Bounded(w) && Step(e, w, Refresh(d, at, nonce)).Some?
    ensures Bounded(Step(e, w, Refresh(d, at, nonce)).value)
  {
    hide Commit, Near, PlaceNear, PendingOnly, Sane, FirstBlocking, RefreshSendProof, SendProofExpired;
    hide IntentValid;
    var i := Place(w);
    IntentFacts(e, w, i);
    DeliverableIsPending(e.h, w.state, i, d);
    ProgressBounded(e, w, i, RefreshCandidate(e.h, w.state, i, d, at, nonce).value.intents[i], i);
  }

  lemma AdvanceBounded(e: Platform, w: World, d: nat)
    requires Sane(e, w) && Bounded(w) && Step(e, w, Advance(d)).Some?
    ensures Bounded(Step(e, w, Advance(d)).value)
  {
    hide Commit, Near, PlaceNear, PendingOnly, Sane, FirstBlocking, Acknowledged, IntentValid;
    var i := Place(w);
    IntentFacts(e, w, i);
    DeliverableIsPending(e.h, w.state, i, d);
    ProgressBounded(e, w, i, AdvanceCandidate(w.state, i, d).intents[i], i);
  }

  lemma SettleBounded(e: Platform, w: World, a: Action)
    requires Sane(e, w) && Bounded(w) && (a.Accept? || a.Fail?) && Step(e, w, a).Some?
    ensures Bounded(Step(e, w, a).value)
  {
    hide Commit, Near, PlaceNear, PendingOnly, StateValid, Retry, AnyAccepted, HasDependent, FirstBlocking;
    hide AbandonsBootstrap;
    var i := Place(w);
    var x := w.state.intents[i];
    var c := if a.Accept? then AcceptCandidate(w.state, i).value else FailCandidate(w.state, i, a.deterministic).value;
    var y := c.intents[i];
    if y.status == PermanentFailure {
      FailNear(w.state.intents, i, y);
    } else {
      if Pending(y) && !Pending(x) {
        IntentFacts(e, w, i);
        RevivedIsRefused(e, c, i);
      }
      ReplaceNear(w.state.intents, i, y, FAILURE_REACH);
    }
    SavedBounded(e, c);
  }

  lemma DiscardBounded(e: Platform, w: World, transactionID: nat)
    requires Bounded(w) && Step(e, w, Discard(transactionID)).Some?
    ensures Bounded(Step(e, w, Discard(transactionID)).value)
  {
    hide Commit, PendingOnly, Discards, DiscardCandidate, DiscardIntents, WithoutSession, PlaceNear;
    var c := DiscardCandidate(w.state, transactionID).value;
    var named := DiscardFacts(w.state, transactionID);
    DiscardShape(w.state, named, c);
    DiscardNear(w.state.intents, named, FAILURE_REACH);
    SavedBounded(e, c);
  }

  lemma DiscardNear(intents: seq<Intent>, named: Intent, reach: nat)
    requires Near(intents, reach)
    ensures Near(DiscardIntents(intents, named), reach)
  {
    hide Doomed;
    var after := DiscardIntents(intents, named);
    forall i, j | 0 <= i < j < |after| && Blocking(after[i]) && after[j].status == PermanentFailure
      ensures j - i <= reach
    {
      assert after[i] == intents[i] && after[j] == intents[j];
    }
  }

  lemma PrepareBounded(e: Platform, w: World, r: Request)
    requires Bounded(w) && Step(e, w, Prepare(r)).Some?
    ensures Bounded(Step(e, w, Prepare(r)).value)
  {
    hide Commit, PendingOnly, PrepareCandidate, Subsequence, FreshDeliveries, PlaceNear;
    var roomy, t := PrepareFacts(w.state, r);
    var x := NewIntent(w.state, r, t.activeSession.value, w.state.activeSession.None?);
    TrimKeepsNear(roomy.intents, w.state.intents, FAILURE_REACH);
    assert Near(roomy.intents + [x], FAILURE_REACH);
    SavedBounded(e, PrepareCandidate(w.state, r).value);
  }

  lemma ReceiveBounded(e: Platform, w: World, sessions: seq<nat>, activeSession: Option<nat>, records: seq<seq<nat>>)
    requires Bounded(w) && Step(e, w, Receive(sessions, activeSession, records)).Some?
    ensures Bounded(Step(e, w, Receive(sessions, activeSession, records)).value)
  {
    hide Commit, Near, PlaceNear, PendingOnly;
    SavedBounded(e, w.state.(sessions := sessions, activeSession := activeSession, records := records));
  }

  lemma SendBounded(e: Platform, w: World, d: nat, relayAccepts: bool)
    requires Bounded(w) && Step(e, w, Send(d, relayAccepts)).Some?
    ensures Bounded(Step(e, w, Send(d, relayAccepts)).value)
  {
    hide Near, PlaceNear, PendingOnly;
  }

  lemma StepBounded(e: Platform, w: World, a: Action)
    requires Sane(e, w) && Bounded(w) && Step(e, w, a).Some?
    ensures Bounded(Step(e, w, a).value)
  {
    hide Sane, Bounded, Step;
    match a
    case Prepare(r) => PrepareBounded(e, w, r);
    case Receive(sessions, activeSession, records) => ReceiveBounded(e, w, sessions, activeSession, records);
    case Publish => PublishBounded(e, w);
    case Refresh(d, at, nonce) => RefreshBounded(e, w, d, at, nonce);
    case Send(d, relayAccepts) => SendBounded(e, w, d, relayAccepts);
    case Advance(d) => AdvanceBounded(e, w, d);
    case Accept => SettleBounded(e, w, a);
    case Fail(_) => SettleBounded(e, w, a);
    case Discard(transactionID) => DiscardBounded(e, w, transactionID);
  }

  // ---- Every run in which the place was kept is orderly ----

  lemma SendOrderly(e: Platform, w: World, d: nat, relayAccepts: bool)
    requires Good(e, w) && Step(e, w, Send(d, relayAccepts)).Some?
    ensures Orderly(Step(e, w, Send(d, relayAccepts)).value.state, Step(e, w, Send(d, relayAccepts)).value.log)
  {
    hide Orderly, Sane;
  }

  lemma StepOrderly(e: Platform, w: World, a: Action)
    requires Good(e, w) && Aligned(w) && Step(e, w, a).Some?
    ensures Good(e, Step(e, w, a).value)
  {
    hide Sane, Bounded, Orderly, Aligned, Step;
    StepSane(e, w, a);
    StepBounded(e, w, a);
    match a
    case Prepare(r) => PrepareOrderly(e, w, r);
    case Receive(sessions, activeSession, records) => ReceiveOrderly(e, w, sessions, activeSession, records);
    case Publish => ProgressStepOrderly(e, w, a);
    case Refresh(d, at, nonce) => ProgressStepOrderly(e, w, a);
    case Send(d, relayAccepts) => SendOrderly(e, w, d, relayAccepts);
    case Advance(d) => ProgressStepOrderly(e, w, a);
    case Accept => AcceptOrderly(e, w);
    case Fail(deterministic) => FailOrderly(e, w, deterministic);
    case Discard(transactionID) => DiscardOrderly(e, w, transactionID);
  }

  /** Only a save that trims for bytes in the middle of a turn moves the place off the intent being published. */
  lemma StepAligned(e: Platform, w: World, a: Action)
    requires Good(e, w) && Aligned(w) && Step(e, w, a).Some? && Steady(e, w, a)
    ensures Aligned(Step(e, w, a).value)
  {
    hide Good, Commit, KeepsPlace, Progressed, WithCurrent, PublishCandidate, RefreshCandidate;
    hide AdvanceCandidate, Deliverable, Acknowledged, FirstBlocking;
    hide DiscardCandidate, PrepareCandidate, InboundSessions, AcceptCandidate, FailCandidate, HasDependent;
    hide AbandonsBootstrap;
    if a.Publish? || a.Refresh? || a.Advance? {
      var y := ProgressIsCurrent(e, w, a);
      assert Commit(e, WithCurrent(w.state, y)) == Some(Step(e, w, a).value.state);
      PublishingIndexIsStable(e, w, y);
    }
  }

  lemma InitialGood(e: Platform, w: World)
    requires Initial(e, w)
    ensures Good(e, w) && Aligned(w)
  {
  }

  // ---- Every world of every run ----

  /** The worlds of a run: one before each action and one at its end. */
  ghost predicate Trace(e: Platform, worlds: seq<World>, actions: seq<Action>) {
    && |worlds| == |actions| + 1
    && forall n {:trigger actions[n]} :: 0 <= n < |actions| ==> Step(e, worlds[n], actions[n]) == Some(worlds[n + 1])
  }

  /** Every save of a run in the middle of a turn left the intent being published at its place. */
  predicate SteadyRun(e: Platform, start: World, actions: seq<Action>) {
    actions == []
    || (var front, last := actions[..|actions| - 1], actions[|actions| - 1];
        SteadyRun(e, start, front) && Run(e, start, front).Some? && Steady(e, Run(e, start, front).value, last))
  }

  lemma {:induction false} SteadyRunGood(e: Platform, start: World, actions: seq<Action>)
    requires Initial(e, start) && Run(e, start, actions).Some? && SteadyRun(e, start, actions)
    ensures Good(e, Run(e, start, actions).value) && Aligned(Run(e, start, actions).value)
  {
    hide Good, Step, Initial, Steady, Aligned;
    if actions == [] {
      InitialGood(e, start);
    } else {
      var front, last := actions[..|actions| - 1], actions[|actions| - 1];
      SteadyRunGood(e, start, front);
      StepOrderly(e, Run(e, start, front).value, last);
      StepAligned(e, Run(e, start, front).value, last);
    }
  }

  /** Every run has a trace, as steady as the run, so what holds along traces holds of what an object recorded. */
  lemma {:induction false} RunHasTrace(e: Platform, start: World, actions: seq<Action>) returns (worlds: seq<World>)
    requires Run(e, start, actions).Some?
    ensures Trace(e, worlds, actions) && worlds[0] == start && Some(worlds[|actions|]) == Run(e, start, actions)
    ensures SteadyRun(e, start, actions) <==> SteadyUntil(e, worlds, actions, |actions|)
  {
    hide Step, Steady;
    if actions == [] {
      worlds := [start];
    } else {
      var front := actions[..|actions| - 1];
      var before := RunHasTrace(e, start, front);
      worlds := before + [Run(e, start, actions).value];
      forall n | 0 <= n < |actions| ensures Step(e, worlds[n], actions[n]) == Some(worlds[n + 1]) {
        if n < |front| {
          assert front[n] == actions[n];
        }
      }
      assert forall m :: 0 <= m < |front| ==> front[m] == actions[m];
    }
  }

  /** No save in the middle of a turn, up to here, moved the intent being published off its place. */
  ghost predicate SteadyUntil(e: Platform, worlds: seq<World>, actions: seq<Action>, n: nat)
    requires n <= |actions| < |worlds|
  {
    forall m {:trigger actions[m]} :: 0 <= m < n ==> Steady(e, worlds[m], actions[m])
  }

  lemma {:induction false} TraceSane(e: Platform, worlds: seq<World>, actions: seq<Action>, n: nat)
    requires Trace(e, worlds, actions) && Initial(e, worlds[0]) && n < |worlds|
    ensures Sane(e, worlds[n])
  {
    hide Sane, Step, Initial, Orderly, Bounded;
    if n == 0 {
      InitialGood(e, worlds[0]);
    } else {
      TraceSane(e, worlds, actions, n - 1);
      assert Step(e, worlds[n - 1], actions[n - 1]) == Some(worlds[n]);
      StepSane(e, worlds[n - 1], actions[n - 1]);
    }
  }

  lemma {:induction false} TraceBounded(e: Platform, worlds: seq<World>, actions: seq<Action>, n: nat)
    requires Trace(e, worlds, actions) && Initial(e, worlds[0]) && n < |worlds|
    ensures Bounded(worlds[n])
  {
    hide Sane, Step, Initial, Orderly, Bounded;
    if n == 0 {
      InitialGood(e, worlds[0]);
    } else {
      TraceSane(e, worlds, actions, n - 1);
      TraceBounded(e, worlds, actions, n - 1);
      assert Step(e, worlds[n - 1], actions[n - 1]) == Some(worlds[n]);
      StepBounded(e, worlds[n - 1], actions[n - 1]);
    }
  }

  lemma {:induction false} TraceGood(e: Platform, worlds: seq<World>, actions: seq<Action>, n: nat)
    requires Trace(e, worlds, actions) && Initial(e, worlds[0]) && n < |worlds| && SteadyUntil(e, worlds, actions, n)
    ensures Good(e, worlds[n]) && Aligned(worlds[n])
  {
    hide Good, Step, Initial, Steady, Aligned;
    if n == 0 {
      InitialGood(e, worlds[0]);
    } else {
      TraceGood(e, worlds, actions, n - 1);
      assert Step(e, worlds[n - 1], actions[n - 1]) == Some(worlds[n]) && Steady(e, worlds[n - 1], actions[n - 1]);
      StepOrderly(e, worlds[n - 1], actions[n - 1]);
      StepAligned(e, worlds[n - 1], actions[n - 1]);
    }
  }

  /**
   * Order of the outbox, in every saved state of every run whose saves in the
   * middle of a turn kept the place of the intent being published: nothing
   * behind a blocking intent was ever published, and so at most one intent has
   * failed for good while it blocks.
   */
  lemma {:induction false} OutboxStaysOrdered(e: Platform, worlds: seq<World>, actions: seq<Action>,
                                              n: nat, i: nat, j: nat)
    requires Trace(e, worlds, actions) && Initial(e, worlds[0]) && n < |worlds| && SteadyUntil(e, worlds, actions, n)
    requires i < j < |worlds[n].state.intents|
    ensures var intents := worlds[n].state.intents;
            && (Blocking(intents[i]) && Blocking(intents[j]) ==> intents[j].status == Prepared)
            && (Blocking(intents[i]) ==> intents[j].status != RelayAccepted && intents[j].status != PermanentFailure)
  {
    hide Trace, Initial, Sane, Bounded, Boot, Steady, Aligned;
    TraceGood(e, worlds, actions, n);
  }

  /** In every saved state of every run, wherever its saves moved the place, sequences strictly increase. */
  lemma {:induction false} SequencesStayOrdered(e: Platform, worlds: seq<World>, actions: seq<Action>,
                                                n: nat, i: nat, j: nat)
    requires Trace(e, worlds, actions) && Initial(e, worlds[0]) && n < |worlds|
    requires i < j < |worlds[n].state.intents|
    ensures worlds[n].state.intents[i].sequence < worlds[n].state.intents[j].sequence < worlds[n].state.nextSequence
  {
    hide Trace, Initial, Retry, IntentValid, PendingOnly;
    TraceSane(e, worlds, actions, n);
  }

  /**
   * Every saved state of every run, wherever its saves moved the place, retains
   * at most its pending intents and 256 more.
   */
  lemma {:induction false} OutboxStaysBounded(e: Platform, worlds: seq<World>, actions: seq<Action>, n: nat)
    requires Trace(e, worlds, actions) && Initial(e, worlds[0]) && n < |worlds|
    ensures var intents := worlds[n].state.intents;
            && |intents| <= PendingCount(intents) + 256 && PendingCount(intents) <= MAXIMUM_PENDING_INTENTS
            && |intents| <= MAXIMUM_RETAINED_INTENTS
  {
    hide Trace, Initial, Retry, IntentValid, SequencesIncrease, Near, PlaceNear;
    TraceSane(e, worlds, actions, n);
    TraceBounded(e, worlds, actions, n);
  }

  /**
   * Exact retry, over all attempts and crashes: what relays took of a delivery
   * includes every packet before its progress and nothing beyond the next one,
   * and every attempt carried the packet the delivery still holds there. This
   * holds of whatever intent the kept place names.
   */
  lemma {:induction false} RetryIsExact(e: Platform, worlds: seq<World>, actions: seq<Action>,
                                        n: nat, x: Intent, d: nat)
    requires Trace(e, worlds, actions) && Initial(e, worlds[0]) && n < |worlds|
    requires x in worlds[n].state.intents && Pending(x) && d < |x.deliveries|
    ensures var attempts := worlds[n].attempts;
            && (forall index: nat :: index < x.deliveries[d].nextPacketIndex ==>
                Acknowledged(attempts, x.sequence, d, index))
            && (forall k :: 0 <= k < |attempts| && attempts[k].sequence == x.sequence && attempts[k].delivery == d ==>
                  && attempts[k].index <= x.deliveries[d].nextPacketIndex
                     && attempts[k].index < |x.deliveries[d].packets|
                  && SameOnRelay(attempts[k].packet, x.deliveries[d].packets[attempts[k].index]))
  {
    hide Trace, Initial, StateValid, AttemptsAgree, SameOnRelay;
    TraceSane(e, worlds, actions, n);
    var attempts := worlds[n].attempts;
    assert ProgressAcknowledged(x, attempts);
    forall k | 0 <= k < |attempts| && attempts[k].sequence == x.sequence && attempts[k].delivery == d
      ensures attempts[k].index <= x.deliveries[d].nextPacketIndex && attempts[k].index < |x.deliveries[d].packets|
              && SameOnRelay(attempts[k].packet, x.deliveries[d].packets[attempts[k].index])
    {
      assert AttemptFits(x, attempts[k]);
    }
  }

  /** Two attempts at one place, however far apart, differ at most in their send proof. */
  lemma {:induction false} AttemptsNeverDiffer(e: Platform, worlds: seq<World>, actions: seq<Action>,
                                               n: nat, j: nat, k: nat)
    requires Trace(e, worlds, actions) && Initial(e, worlds[0]) && n < |worlds|
    requires var attempts := worlds[n].attempts;
             j < |attempts| && k < |attempts| && SamePlace(attempts[j], attempts[k])
    ensures SameOnRelay(worlds[n].attempts[j].packet, worlds[n].attempts[k].packet)
  {
    hide Trace, Initial, StateValid, SameOnRelay;
    TraceSane(e, worlds, actions, n);
  }

  /**
   * Bootstrap order, exactly, while the place was kept: an accepted intent of a
   * session opened here comes after the acceptance of that session's bootstrap
   * if and only if the bootstrap did not fail for good.
   */
  lemma {:induction false} BootstrapPrecedes(e: Platform, worlds: seq<World>, actions: seq<Action>, n: nat, k: nat)
    requires Trace(e, worlds, actions) && Initial(e, worlds[0]) && n < |worlds| && SteadyUntil(e, worlds, actions, n)
    requires var log := worlds[n].log;
             k < |log.acceptances| && log.acceptances[k].sessionID in log.bootstraps
    ensures var log := worlds[n].log;
            var a := log.acceptances[k];
            log.bootstraps[a.sessionID] !in log.failed
            <==> Acceptance(a.sessionID, log.bootstraps[a.sessionID]) in log.acceptances[..k + 1]
  {
    hide Trace, Initial, Sane, InOrder, IntentLogged, Settled, Steady, Aligned, SteadyUntil;
    TraceGood(e, worlds, actions, n);
    var log := worlds[n].log;
    var a := log.acceptances[k];
    assert Follows(log, k);
    if Acceptance(a.sessionID, log.bootstraps[a.sessionID]) in log.acceptances[..k + 1] {
      var j :| 0 <= j < k + 1 && log.acceptances[..k + 1][j] == Acceptance(a.sessionID, log.bootstraps[a.sessionID]);
      assert log.acceptances[j].sequence == log.bootstraps[a.sessionID];
    }
  }

  lemma RunAppend(e: Platform, start: World, actions: seq<Action>, a: Action)
    requires Run(e, start, actions).Some?
    ensures Run(e, start, actions + [a]) == Step(e, Run(e, start, actions).value, a)
  {
    hide Step;
    assert (actions + [a])[..|actions|] == actions;
  }

  lemma SteadyAppend(e: Platform, start: World, actions: seq<Action>, a: Action)
    requires Run(e, start, actions).Some?
    ensures SteadyRun(e, start, actions + [a]) <==>
              SteadyRun(e, start, actions) && Steady(e, Run(e, start, actions).value, a)
  {
    hide Run, Steady;
    assert (actions + [a])[..|actions|] == actions;
  }
}
