/**
 * The outbound half of the durable runtime object
 * (src/durable-pairwise-messaging-v2.js). Every save and every packet handed to
 * a relay is recorded as an action, and what the object holds is always the
 * outcome of the actions recorded so far: a crash at any point leaves a state
 * of module OutboxHistory. Relay answers, failing saves and failing factories
 * are unconstrained.
 */
module OutboxRuntime {
  import opened Wrappers
  import opened Collections
  import opened PacketFrame
  import opened PacketSealing
  import opened Outbox
  import opened OutboxHistory
  import opened IntentHistory

  // ---- The intent at the kept place ----

  /** The same intent, but for one of its deliveries. */
  ghost predicate SameExceptDelivery(x: Intent, y: Intent, d: nat) {
    && y == x.(deliveries := y.deliveries) && |y.deliveries| == |x.deliveries|
    && forall c :: 0 <= c < |x.deliveries| && c != d ==> y.deliveries[c] == x.deliveries[c]
  }

  /** The place still names the intent it named before, which differs at most in one delivery. */
  ghost predicate SameAtPlace(s: State, t: State, index: nat, d: nat) {
    index < |s.intents| && index < |t.intents| && SameExceptDelivery(s.intents[index], t.intents[index], d)
  }

  predicate InReach(s: State, index: nat, d: nat) {
    index < |s.intents| && d < |s.intents[index].deliveries|
  }

  /** Packets of the delivery that no relay has acknowledged yet. */
  function Left(s: State, index: nat, d: nat): nat {
    if !InReach(s, index, d) then 0
    else
      var delivery := s.intents[index].deliveries[d];
      if delivery.nextPacketIndex < |delivery.packets| then |delivery.packets| - delivery.nextPacketIndex else 0
  }

  lemma {:induction false} FullSubsequence<T>(a: seq<T>, b: seq<T>)
    requires Subsequence(a, b) && |a| == |b|
    ensures a == b
    decreases |b|
  {
    if b != [] {
      if Subsequence(a, b[..|b| - 1]) {
        SubsequenceShorter(a, b[..|b| - 1]);
      }
      FullSubsequence(a[..|a| - 1], b[..|b| - 1]);
    }
  }

  /** A save takes intents away or leaves them as they are. */
  lemma SavedIntents(e: Platform, c: State)
    requires Commit(e, c).Some?
    ensures |Commit(e, c).value.intents| <= |c.intents|
    ensures |Commit(e, c).value.intents| == |c.intents| ==> Commit(e, c).value.intents == c.intents
  {
    hide Commit, Subsequence, PendingOnly, StateValid;
    var t := Commit(e, c).value;
    CommitFacts(e, c);
    SubsequenceShorter(t.intents, c.intents);
    if |t.intents| == |c.intents| {
      FullSubsequence(t.intents, c.intents);
    }
  }

  /** A steady save in the middle of a turn leaves what it saved of the intent at the place. */
  lemma StillInPlace(e: Platform, w: World, a: Action, index: nat, y: Intent)
    requires Good(e, w) && Aligned(w) && Steady(e, w, a) && index < |w.state.intents|
    requires ProgressCandidate(e.h, w, a) == Some(WithIntent(w.state, index, y))
             && Commit(e, WithIntent(w.state, index, y)).Some?
    requires w.index == Some(index) || (a.Publish? && index == FirstBlocking(w.state.intents))
    ensures var t := Commit(e, WithIntent(w.state, index, y)).value;
            index == FirstBlocking(t.intents) < |t.intents| && t.intents[index] == y
  {
    hide Good, Commit, KeepsPlace, Progressed, PublishCandidate, RefreshCandidate, AdvanceCandidate;
    hide Deliverable, FirstBlocking;
    var z := ProgressIsCurrent(e, w, a);
    assert w.index == Some(index) ==> index == FirstBlocking(w.state.intents);
    assert WithCurrent(w.state, z).intents[index] == z && WithIntent(w.state, index, y).intents[index] == y;
    PublishingIndexIsStable(e, w, z);
  }

  /** The actions that publishing one delivery can take. */
  predicate DeliveryAction(a: Action, d: nat) {
    match a
    case Refresh(c, _, _) => c == d
    case Send(c, _) => c == d
    case Advance(c) => c == d
    case _ => false
  }

  predicate PublishingAction(a: Action) {
    a.Publish? || a.Refresh? || a.Send? || a.Advance? || a.Accept? || a.Fail?
  }

  function Accepts(actions: seq<Action>): nat {
    if actions == [] then 0
    else Accepts(actions[..|actions| - 1]) + if actions[|actions| - 1].Accept? then 1 else 0
  }

  /** A save can fail, and the kept place can name no intent any more; either ends the call. */
  datatype PublishOutcome = Published | Stuck | NotSaved | Displaced

  datatype DiscardOutcome =
    | Discarded(returned: Option<Intent>)
    | Refused(reason: DiscardError)
    | DiscardNotSaved

  /** A delivery that was tried, and what failed of it, if anything did. */
  datatype Attempted = Attempted(delivery: nat, failure: Option<bool>)

  /** Some delivery failed, and all that failed did so deterministically. */
  ghost predicate FailedForGood(attempted: seq<Attempted>) {
    && (exists k :: 0 <= k < |attempted| && attempted[k].failure.Some?)
    && forall k :: 0 <= k < |attempted| && attempted[k].failure.Some? ==> attempted[k].failure.value
  }

  /** Every delivery was tried once, in order, up to the last. */
  ghost predicate TriedAll(attempted: seq<Attempted>, s: State, index: nat) {
    && !InReach(s, index, |attempted|)
    && forall k :: 0 <= k < |attempted| ==> attempted[k].delivery == k
  }

  ghost predicate Tried(tried: seq<Attempted>, d: nat, failures: nat, deterministic: bool) {
    && |tried| == d && (forall k :: 0 <= k < d ==> tried[k].delivery == k)
    && (failures > 0 <==> exists k :: 0 <= k < |tried| && tried[k].failure.Some?)
    && (deterministic <==> forall k :: 0 <= k < |tried| && tried[k].failure.Some? ==> tried[k].failure.value)
  }

  lemma NothingTried()
    ensures Tried([], 0, 0, true)
  {
  }

  lemma TriedNext(tried: seq<Attempted>, d: nat, failures: nat, deterministic: bool, failure: Option<bool>)
    requires Tried(tried, d, failures, deterministic)
    ensures Tried(tried + [Attempted(d, failure)], d + 1, if failure.Some? then failures + 1 else failures,
                  if failure.Some? then deterministic && failure.value else deterministic)
  {
    var after := tried + [Attempted(d, failure)];
    assert after[|tried|] == Attempted(d, failure);
    assert forall k :: 0 <= k < |tried| ==> after[k] == tried[k];
    if !deterministic {
      var k :| 0 <= k < |tried| && tried[k].failure.Some? && !tried[k].failure.value;
      assert after[k] == tried[k];
    }
    if failures > 0 {
      var k :| 0 <= k < |tried| && tried[k].failure.Some?;
      assert after[k].failure.Some?;
    }
  }

  lemma TriedExactly(tried: seq<Attempted>, d: nat, failures: nat, deterministic: bool)
    requires Tried(tried, d, failures, deterministic)
    ensures |tried| == d && (forall k :: 0 <= k < d ==> tried[k].delivery == k)
    ensures failures > 0 && deterministic <==> FailedForGood(tried)
  {
  }

  class DurablePairwiseOutbox {
    const platform: Platform
    var durable: State
    ghost var start: World
    ghost var actions: seq<Action>
    ghost var world: World
    /** How often the repository or a relay refused, and how often a candidate could not be saved. */
    ghost var refusals: nat
    ghost var misfits: nat
    /** Which deliveries were attempted, and which of them failed, deterministically or not. */
    ghost var attempted: seq<Attempted>

    ghost predicate Consistent()
      reads this
    {
      && Initial(platform, start) && Run(platform, start, actions) == Some(world)
      && Sane(platform, world) && world.state == durable
    }

    /** No save so far, of any turn, moved the intent being published off its place. */
    ghost predicate Unmoved()
      reads this
    {
      SteadyRun(platform, start, actions)
    }

    /** Since then no repository or relay refused, and every candidate fitted. */
    twostate predicate Unhindered()
      reads this
    {
      refusals == old(refusals) && misfits == old(misfits)
    }

    /** As long as that is so, the outbox is orderly and the place names the first blocking intent. */
    lemma UnmovedIsGood()
      requires Consistent() && Unmoved()
      ensures Good(platform, world) && Aligned(world)
    {
      SteadyRunGood(platform, start, actions);
    }

    constructor (platform: Platform, first: State)
      requires Initial(platform, World(first, [], Log([], map[], {}, {}), None))
      ensures Consistent() && durable == first && this.platform == platform && actions == []
    {
      this.platform := platform;
      durable := first;
      start := World(first, [], Log([], map[], {}, {}), None);
      actions := [];
      world := World(first, [], Log([], map[], {}, {}), None);
      refusals, misfits := 0, 0;
      attempted := [];
      new;
      InitialGood(platform, start);
    }

    /** Starting over from what was saved: the object of a new process continues the same run. */
    constructor Restart(before: DurablePairwiseOutbox)
      requires before.Consistent()
      ensures Consistent() && durable == before.durable && platform == before.platform
      ensures start == before.start && actions == before.actions && world == before.world
    {
      platform := before.platform;
      durable := before.durable;
      start := before.start;
      actions := before.actions;
      world := before.world;
      refusals, misfits := before.refusals, before.misfits;
      attempted := before.attempted;
    }

    ghost method Record(a: Action)
      requires Initial(platform, start) && Run(platform, start, actions) == Some(world) && Sane(platform, world)
      requires Step(platform, world, a).Some? && Step(platform, world, a).value.state == durable
      modifies `actions, `world
      ensures Consistent() && actions == old(actions) + [a]
      ensures Some(world) == Step(platform, old(world), a)
      ensures Unmoved() <==> old(Unmoved()) && Steady(platform, old(world), a)
    {
      hide Run, Step, Sane, Initial, Steady;
      RunAppend(platform, start, actions, a);
      SteadyAppend(platform, start, actions, a);
      StepSane(platform, world, a);
      world := Step(platform, world, a).value;
      actions := actions + [a];
    }

    // ---- Saving ----

    static method CompactTerminalIntents(intents: seq<Intent>, target: nat) returns (r: seq<Intent>)
      ensures r == CompactTerminal(intents, target)
    {
      hide CanBeCompacted;
      r := intents;
      while |r| > target
        invariant CompactTerminal(r, target) == CompactTerminal(intents, target)
        decreases |r|
      {
        var index := FirstCompactable(r, 0);
        if index == |r| {
          break;
        }
        r := RemoveAt(r, index);
      }
    }

    static method CompactCandidateState(size: State -> nat, candidate: State) returns (t: State)
      ensures t == Compacted(size, candidate)
    {
      hide DropOne, CompactTerminal, Target;
      var intents := CompactTerminalIntents(candidate.intents, Target(candidate.intents, 0));
      t := candidate.(intents := intents);
      while size(t) > MAXIMUM_STATE_BYTES
        invariant TrimToBudget(size, t) == Compacted(size, candidate)
        decreases Items(t)
      {
        var smaller := DropOne(t);
        if smaller.None? {
          break;
        }
        t := smaller.value;
      }
    }

    /** The anchor store, the repository or a relay answers. */
    method Ask() returns (agrees: bool)
      modifies `refusals
      ensures refusals == old(refusals) + if agrees then 0 else 1
    {
      agrees := *;
      if !agrees {
        refusals := refusals + 1;
      }
    }

    ghost method Misfit()
      modifies `misfits
      ensures misfits == old(misfits) + 1
    {
      misfits := misfits + 1;
    }

    /**
     * Compacts, validates and commits a candidate of the saved generation. It
     * is saved exactly when it fits and the repository takes it.
     */
    method SaveCandidate(candidate: State) returns (saved: bool)
      modifies `durable, `refusals, `misfits
      ensures saved <==> Unhindered()
      ensures saved ==> candidate.generation == old(durable).generation && Some(durable) == Commit(platform, candidate)
      ensures !saved ==> durable == old(durable)
      ensures misfits == old(misfits) + if candidate.generation == old(durable).generation
                                           && Commit(platform, candidate).Some? then 0 else 1
      ensures old(refusals) <= refusals && (misfits > old(misfits) ==> refusals == old(refusals))
    {
      hide StateValid, Compacted;
      if candidate.generation != durable.generation || durable.generation >= MAX_SAFE_INTEGER {
        Misfit();
        return false;
      }
      var compact := CompactCandidateState(platform.size, candidate);
      var next := compact.(generation := candidate.generation + 1);
      if !StateValid(platform.h, next) || platform.size(next) > MAXIMUM_STATE_BYTES {
        Misfit();
        return false;
      }
      var takes := Ask();
      if !takes {
        return false;
      }
      durable := next;
      return true;
    }

    // ---- Preparing ----

    static method ReserveSessionCapacity(s: State) returns (r: Option<State>)
      ensures r == ReserveSession(s)
    {
      hide Protected;
      var t := s;
      while |t.sessions| >= MAXIMUM_SESSIONS
        invariant ReserveSession(t) == ReserveSession(s)
        decreases |t.sessions|
      {
        var index := FirstUnprotected(t, 0);
        if index == |t.sessions| {
          return None;
        }
        t := t.(sessions := RemoveAt(t.sessions, index));
      }
      return Some(t);
    }

    /**
     * Makes an intent durable before any relay sees it, with the content, the
     * mark and the deliveries of its request, in the session in use or the new
     * one. A transaction already in the outbox answers with its own intent and
     * changes nothing. It fails only for lack of room or of a route, or when the
     * save does.
     */
    method Prepare(r: Request) returns (result: Result<Intent, PrepareError>)
      requires Consistent() && FreshDeliveries(r.deliveries)
      requires durable.activeSession.None? ==> r.freshSession !in world.log.used
      modifies this
      ensures Consistent() && start == old(start)
      ensures KnownAnswer(old(durable), r).Some? ==>
                Some(result) == KnownAnswer(old(durable), r) && actions == old(actions) && durable == old(durable)
      ensures KnownAnswer(old(durable), r).None? && result.Ok? ==>
                && actions == old(actions) + [OutboxHistory.Prepare(r)] && result.value in durable.intents
                && result.value == Intent(old(durable).nextSequence,
                                          if old(durable).activeSession.Some? then old(durable).activeSession.value
                                          else r.freshSession,
                                          r.transactionID, r.content, r.control,
                                          Some(if old(durable).activeSession.None? then SignedPrekeyBootstrap
                                               else Ordinary),
                                          r.deliveries, Prepared, 0)
                && durable.activeSession == if r.retiresSession then None else Some(result.value.sessionID)
      ensures result.Err? ==> actions == old(actions) && durable == old(durable)
      ensures KnownAnswer(old(durable), r).None? ==>
                match FailureFor(old(durable), r)
                case Some(error) => result == Err(error)
                case None => if Unhindered() then result.Ok? else result == Err(SaveRefused)
    {
      hide Run, Initial, Sane, Commit, CompactTerminal, ReserveSession, Target, PendingOnly;
      var index := FindTransaction(durable.intents, r.transactionID);
      if index < |durable.intents| {
        var existing := durable.intents[index];
        if existing.request != r.content || existing.control != r.control {
          return Err(TransactionConflict);
        }
        return Ok(existing);
      }
      var intents := CompactTerminalIntents(durable.intents, Target(durable.intents, 1));
      if |intents| >= MAXIMUM_RETAINED_INTENTS || PendingCount(intents) >= MAXIMUM_PENDING_INTENTS {
        return Err(OutboxCapacityExceeded);
      }
      var candidate := durable.(intents := intents);
      var opens := candidate.activeSession.None?;
      if opens {
        var reserved := ReserveSessionCapacity(candidate);
        if reserved.None? {
          return Err(SessionCapacityExceeded);
        }
        candidate := reserved.value.(sessions := reserved.value.sessions + [r.freshSession],
                                     activeSession := Some(r.freshSession));
      }
      if r.deliveries == [] {
        return Err(NoUsableRoute);
      }
      var intent := NewIntent(durable, r, candidate.activeSession.value, opens);
      candidate := candidate.(nextSequence := durable.nextSequence + 1, intents := candidate.intents + [intent],
                              activeSession := if r.retiresSession then None else candidate.activeSession);
      ReservedRest(durable.(intents := intents));
      assert PrepareCandidate(durable, r) == Some(candidate);
      var saved := SaveCandidate(candidate);
      if !saved {
        return Err(SaveRefused);
      }
      SavedSession(platform, candidate);
      NewIntentIsSaved(platform, candidate, intent);
      Record(OutboxHistory.Prepare(r));
      return Ok(intent);
    }

    // ---- Publishing ----

    /** Saves the intent at the kept place, moved along. */
    method SaveProgress(index: nat, y: Intent, a: Action) returns (saved: bool)
      requires Consistent() && index < |durable.intents|
      requires world.index == Some(index) || (a.Publish? && index == FirstBlocking(durable.intents))
      requires ProgressCandidate(platform.h, world, a) == Some(WithIntent(durable, index, y))
      requires Step(platform, world, a) == Saved(platform, world, WithIntent(durable, index, y), world.log, Some(index))
      modifies `durable, `actions, `world, `refusals, `misfits
      ensures Consistent() && start == old(start) && (Unmoved() ==> old(Unmoved()))
      ensures saved ==>
                Some(durable) == Commit(platform, WithIntent(old(durable), index, y)) && actions == old(actions) + [a]
      ensures saved ==>
                world.attempts == old(world).attempts && world.log == old(world).log && world.index == Some(index)
      ensures saved ==> |durable.intents| <= |old(durable).intents|
      ensures saved <==> Unhindered()
      ensures old(refusals) <= refusals && old(misfits) <= misfits
      ensures saved && |durable.intents| == |old(durable).intents| ==>
                durable.intents == old(durable).intents[index := y]
      ensures saved && Unmoved() ==>
                index == FirstBlocking(durable.intents) < |durable.intents| && durable.intents[index] == y
      ensures !saved ==> durable == old(durable) && actions == old(actions) && world == old(world)
    {
      hide Run, Initial, Sane, Good, Aligned, Commit, Step, Steady, ProgressCandidate, FirstBlocking;
      var candidate := durable.(intents := durable.intents[index := y]);
      saved := SaveCandidate(candidate);
      if saved {
        SavedIntents(platform, candidate);
        ghost var before := world;
        if Unmoved() {
          UnmovedBefore();
          if Steady(platform, before, a) {
            StillInPlace(platform, before, a, index, y);
          }
        }
        Record(a);
      }
    }

    lemma UnmovedBefore()
      requires Initial(platform, start) && Run(platform, start, actions) == Some(world) && Unmoved()
      ensures Good(platform, world) && Aligned(world)
    {
      SteadyRunGood(platform, start, actions);
    }

    /** Renews the proof of the next packet; the new proof is saved before any relay can see it. */
    method RefreshPacket(index: nat, d: nat, at: int, nonce: Id) returns (refreshed: bool)
      requires Consistent() && world.index == Some(index) && Deliverable(durable, index, d)
      requires SendProofExpired(NextPacket(durable, index, d), at)
      modifies `durable, `actions, `world, `refusals, `misfits
      ensures Consistent() && start == old(start) && world.index == Some(index) && (Unmoved() ==> old(Unmoved()))
      ensures |durable.intents| <= |old(durable).intents|
      ensures refreshed ==>
                var c := RefreshCandidate(platform.h, old(durable), index, d, at, nonce);
                c.Some? && Some(durable) == Commit(platform, c.value)
                  && actions == old(actions) + [Refresh(d, at, nonce)]
      ensures refreshed && (Unmoved() || |durable.intents| == |old(durable).intents|) ==>
                && SameAtPlace(old(durable), durable, index, d) && Deliverable(durable, index, d)
                && Left(durable, index, d) == Left(old(durable), index, d)
                && durable.intents[index].deliveries[d].nextPacketIndex
                     == old(durable).intents[index].deliveries[d].nextPacketIndex
                && !SendProofExpired(NextPacket(durable, index, d), at)
                && SameOnRelay(NextPacket(old(durable), index, d), NextPacket(durable, index, d))
      ensures !refreshed ==> durable == old(durable) && actions == old(actions) && world == old(world)
      ensures (refreshed <==> Unhindered()) && old(refusals) <= refusals && old(misfits) <= misfits
    {
      hide Run, Initial, Sane, Commit, RefreshSendProof, SendProofExpired, FirstBlocking, SameOnRelay;
      var x := durable.intents[index];
      var delivery := x.deliveries[d];
      var packet := delivery.packets[delivery.nextPacketIndex];
      SavedPacketIsRenewable(platform, world, index, d, at, nonce);
      var renewed := RefreshSendProof(platform.h, packet, delivery.routeID, delivery.sendCapability, at, nonce);
      RefreshedProof(platform.h, packet, delivery.routeID, delivery.sendCapability, at, nonce);
      var next := delivery.(packets := delivery.packets[delivery.nextPacketIndex := renewed.value]);
      var y := x.(deliveries := x.deliveries[d := next]);
      refreshed := SaveProgress(index, y, Refresh(d, at, nonce));
    }

    /** Saves that the relay acknowledged the next packet. */
    method AdvancePacket(index: nat, d: nat) returns (advanced: bool)
      requires Consistent() && world.index == Some(index) && Deliverable(durable, index, d)
      requires Acknowledged(world.attempts, durable.intents[index].sequence, d,
                            durable.intents[index].deliveries[d].nextPacketIndex)
      modifies `durable, `actions, `world, `refusals, `misfits
      ensures Consistent() && start == old(start) && world.index == Some(index) && (Unmoved() ==> old(Unmoved()))
      ensures |durable.intents| <= |old(durable).intents|
      ensures advanced ==>
                Some(durable) == Commit(platform, AdvanceCandidate(old(durable), index, d))
                  && actions == old(actions) + [Advance(d)]
      ensures advanced && (Unmoved() || |durable.intents| == |old(durable).intents|) ==>
                && SameAtPlace(old(durable), durable, index, d)
                && var delivery := old(durable).intents[index].deliveries[d];
                   durable.intents[index].deliveries[d]
                   == delivery.(nextPacketIndex := delivery.nextPacketIndex + 1,
                                accepted := delivery.nextPacketIndex + 1 == |delivery.packets|)
      ensures !advanced ==> durable == old(durable) && actions == old(actions)
      ensures (advanced <==> Unhindered()) && old(refusals) <= refusals && old(misfits) <= misfits
    {
      hide Run, Initial, Sane, Commit, Acknowledged, FirstBlocking;
      var x := durable.intents[index];
      var delivery := x.deliveries[d];
      var next := delivery.(nextPacketIndex := delivery.nextPacketIndex + 1,
                            accepted := delivery.nextPacketIndex + 1 == |delivery.packets|);
      var y := x.(deliveries := x.deliveries[d := next]);
      advanced := SaveProgress(index, y, Advance(d));
    }

    /** One turn of a delivery's loop: renew the proof if it expired, send the saved packet, save the receipt. */
    method SendNextPacket(index: nat, d: nat, at: int, nonce: Id) returns (sent: bool)
      requires Consistent() && world.index == Some(index) && Deliverable(durable, index, d)
      modifies `durable, `actions, `world, `refusals, `misfits
      ensures (sent ==> Unhindered()) && (Unmoved() && Unhindered() ==> sent)
      ensures old(refusals) <= refusals && old(misfits) <= misfits
      ensures Consistent() && start == old(start) && world.index == Some(index) && (Unmoved() ==> old(Unmoved()))
      ensures |durable.intents| <= |old(durable).intents| && DeliveryActions(old(actions), actions, d)
      ensures Unmoved() || |durable.intents| == |old(durable).intents| ==>
                && SameAtPlace(old(durable), durable, index, d)
                && Left(durable, index, d) == Left(old(durable), index, d) - (if sent then 1 else 0)
    {
      hide Run, Initial, Sane, Commit, RefreshSendProof, SendProofExpired, FirstBlocking, RefreshCandidate;
      hide SameExceptDelivery;
      ghost var s := durable;
      NoActions(actions, d);
      SameIntent(durable.intents[index], d);
      if SendProofExpired(NextPacket(durable, index, d), at) {
        var refreshed := RefreshPacket(index, d, at, nonce);
        if !refreshed || !Deliverable(durable, index, d) {
          return false;
        }
      }
      ghost var t := durable;
      sent := HandOver(index, d);
      if SameAtPlace(s, t, index, d) && SameAtPlace(t, durable, index, d) {
        SameTransitive(s.intents[index], t.intents[index], durable.intents[index], d);
      }
    }

    /** Hands the saved packet to its relay and saves the receipt, if there is one. */
    method HandOver(index: nat, d: nat) returns (sent: bool)
      requires Consistent() && world.index == Some(index) && Deliverable(durable, index, d)
      modifies `durable, `actions, `world, `refusals, `misfits
      ensures (sent <==> Unhindered()) && old(refusals) <= refusals && old(misfits) <= misfits
      ensures Consistent() && start == old(start) && world.index == Some(index) && (Unmoved() ==> old(Unmoved()))
      ensures |durable.intents| <= |old(durable).intents| && DeliveryActions(old(actions), actions, d)
      ensures Unmoved() || |durable.intents| == |old(durable).intents| ==>
                && SameAtPlace(old(durable), durable, index, d)
                && Left(durable, index, d) == Left(old(durable), index, d) - (if sent then 1 else 0)
    {
      hide Run, Initial, Sane, Commit, SendProofExpired, Acknowledged, FirstBlocking, AdvanceCandidate;
      hide Steady;
      SameIntent(durable.intents[index], d);
      var reached := Ask();
      if !reached {
        return false;
      }
      var relayAccepts := Ask();
      Record(Send(d, relayAccepts));
      LastAcknowledged(world.attempts, durable.intents[index].sequence, d,
                       durable.intents[index].deliveries[d].nextPacketIndex);
      var receiptMatches := Ask();
      if !relayAccepts || !receiptMatches {
        return false;
      }
      sent := AdvancePacket(index, d);
    }

    /**
     * Sends the packets of one delivery in order until the relay has them all
     * or something fails; a failure says whether it was deterministic. A place
     * that names no such delivery any more is a failure too.
     */
    method PublishDelivery(index: nat, d: nat, at: int, nonce: Id) returns (failure: Option<bool>)
      requires Consistent() && world.index == Some(index) && InReach(durable, index, d)
      modifies this
      ensures Consistent() && start == old(start) && world.index == Some(index) && (Unmoved() ==> old(Unmoved()))
      ensures |durable.intents| <= |old(durable).intents| && DeliveryActions(old(actions), actions, d)
      ensures failure.None? ==> InReach(durable, index, d) && durable.intents[index].deliveries[d].accepted
      ensures Unmoved() ==> SameAtPlace(old(durable), durable, index, d)
      ensures (failure.None? ==> Unhindered()) && (Unmoved() && Unhindered() ==> failure.None?)
      ensures attempted == old(attempted) + [Attempted(d, failure)]
      ensures old(refusals) <= refusals && old(misfits) <= misfits
    {
      hide Run, Initial, Sane, Commit, FirstBlocking, SameExceptDelivery, DeliveryActions, Deliverable;
      SameIntent(durable.intents[index], d);
      NoActions(actions, d);
      while InReach(durable, index, d) && !durable.intents[index].deliveries[d].accepted
        invariant Consistent() && start == old(start) && world.index == Some(index) && (Unmoved() ==> old(Unmoved()))
        invariant |durable.intents| <= |old(durable).intents| && DeliveryActions(old(actions), actions, d)
        invariant Unmoved() ==> SameAtPlace(old(durable), durable, index, d)
        invariant Unhindered() && attempted == old(attempted)
        decreases |durable.intents|, Left(durable, index, d)
      {
        ghost var s, soFar := durable, actions;
        UnfinishedIsDeliverable(platform, world, index, d);
        var sent := SendNextPacket(index, d, at, nonce);
        if SameAtPlace(old(durable), s, index, d) && SameAtPlace(s, durable, index, d) {
          SameTransitive(old(durable).intents[index], s.intents[index], durable.intents[index], d);
        }
        ActionsTransitive(old(actions), soFar, actions, d);
        if !sent {
          var deterministic: bool := *;
          attempted := attempted + [Attempted(d, Some(deterministic))];
          return Some(deterministic);
        }
      }
      if Unmoved() {
        SameFields(old(durable).intents[index], durable.intents[index], d);
      }
      failure := if InReach(durable, index, d) then None else Some(false);
      attempted := attempted + [Attempted(d, failure)];
    }

    /** Saves the diagnostic attempt counter and the publishing status before anything is sent, and keeps the place. */
    method MarkPublishing(index: nat) returns (marked: bool)
      requires Consistent() && index == FirstBlocking(durable.intents) < |durable.intents|
      requires durable.intents[index].status != PermanentFailure
      modifies `durable, `actions, `world, `refusals, `misfits
      ensures Consistent() && start == old(start) && (Unmoved() ==> old(Unmoved()))
      ensures marked ==>
                actions == old(actions) + [Publish] && world.index == Some(index) && world.log == old(world).log
      ensures marked ==> Some(durable) == Commit(platform, PublishCandidate(old(durable)).value)
      ensures marked && Unmoved() ==>
                && index == FirstBlocking(durable.intents) < |durable.intents|
                && var x := old(durable).intents[index];
                   durable.intents[index]
                   == x.(status := Publishing,
                         attemptCount := if x.attemptCount < MAXIMUM_ATTEMPTS then x.attemptCount + 1
                           else MAXIMUM_ATTEMPTS)
      ensures !marked ==> durable == old(durable) && actions == old(actions)
      ensures (marked <==> Unhindered()) && old(refusals) <= refusals && old(misfits) <= misfits
    {
      hide Run, Initial, Commit, FirstBlocking, StateValid, Retry;
      var x := durable.intents[index];
      AttemptsBounded(platform, world, index);
      var attempts := if x.attemptCount + 1 < MAXIMUM_ATTEMPTS then x.attemptCount + 1 else MAXIMUM_ATTEMPTS;
      marked := SaveProgress(index, x.(status := Publishing, attemptCount := attempts), Publish);
    }

    /**
     * One turn of the publishing loop: every route is tried, then the intent at
     * the kept place is settled. While no save moved it, that is the one the
     * turn began with.
     */
    method PublishIntent(at: int, nonce: Id) returns (outcome: PublishOutcome)
      requires Consistent() && FirstBlocking(durable.intents) < |durable.intents|
      requires durable.intents[FirstBlocking(durable.intents)].status != PermanentFailure
      modifies this
      ensures Consistent() && start == old(start) && (Unmoved() ==> old(Unmoved()))
      ensures old(actions) <= actions && forall k :: |old(actions)| <= k < |actions| ==> PublishingAction(actions[k])
      ensures Accepts(actions) == Accepts(old(actions)) + if outcome.Published? then 1 else 0
      ensures outcome.Published? && Unmoved() ==>
                world.log.acceptances != []
                && world.log.acceptances[|world.log.acceptances| - 1].sequence
                   == old(durable).intents[FirstBlocking(old(durable).intents)].sequence
      ensures outcome.Displaced? ==> !Unmoved()
      ensures outcome.Stuck? || outcome.Published? ==>
                && old(attempted) <= attempted && actions != []
                && (outcome.Published? <==> actions[|actions| - 1] == Accept)
                && (outcome.Stuck? ==> actions[|actions| - 1] == Fail(FailedForGood(attempted[|old(attempted)|..])))
                && (Unmoved() ==>
                      |attempted| - |old(attempted)|
                      == |old(durable).intents[FirstBlocking(old(durable).intents)].deliveries|)
      ensures (Unmoved() && Unhindered() ==> outcome.Published?) && (outcome.NotSaved? ==> !Unhindered())
      ensures old(refusals) <= refusals && old(misfits) <= misfits
    {
      hide Run, Initial, Sane, Commit, FirstBlocking, AnyAccepted, PublishCandidate, Steady;
      var index := FirstBlocking(durable.intents);
      var marked := MarkPublishing(index);
      if !marked {
        return NotSaved;
      }
      AcceptsPublishing(old(actions), actions);
      var inReach, failures, deterministic := TryRoutes(index, at, nonce);
      if !inReach {
        return Displaced;
      }
      if Unmoved() && failures == 0 {
        UnmovedIsGood();
        AllAccepted(platform, world, index);
      }
      outcome := SettleIntent(index, failures > 0 && deterministic);
    }

    /** Attempts every route of the intent at the kept place, whatever became of the others. */
    method TryRoutes(index: nat, at: int, nonce: Id) returns (inReach: bool, failures: nat, deterministic: bool)
      requires Consistent() && world.index == Some(index)
      requires Unmoved() ==> index < |durable.intents|
      modifies this
      ensures Consistent() && start == old(start) && world.index == Some(index) && (Unmoved() ==> old(Unmoved()))
      ensures inReach <==> index < |durable.intents|
      ensures old(attempted) <= attempted && TriedAll(attempted[|old(attempted)|..], durable, index)
      ensures failures > 0 && deterministic <==> FailedForGood(attempted[|old(attempted)|..])
      ensures Unmoved() ==>
                && index < |old(durable).intents|
                && |attempted| - |old(attempted)| == |old(durable).intents[index].deliveries|
      ensures Unmoved() ==>
                && inReach && index < |old(durable).intents|
                && durable.intents[index].sequence == old(durable).intents[index].sequence
                && (failures == 0 ==>
                      forall d :: 0 <= d < |durable.intents[index].deliveries| ==>
                        durable.intents[index].deliveries[d].accepted)
      ensures old(actions) <= actions && forall k :: |old(actions)| <= k < |actions| ==> PublishingAction(actions[k])
      ensures Accepts(actions) == Accepts(old(actions))
      ensures Unmoved() && Unhindered() ==> failures == 0
      ensures old(refusals) <= refusals && old(misfits) <= misfits
    {
      hide Run, Initial, Sane, Commit, FirstBlocking, SameExceptDelivery, DeliveryActions, Tried, FailedForGood;
      failures, deterministic := 0, true;
      var d := 0;
      ghost var tried: seq<Attempted> := [];
      NothingTried();
      while InReach(durable, index, d)
        invariant Consistent() && start == old(start) && world.index == Some(index) && (Unmoved() ==> old(Unmoved()))
        invariant Unmoved() ==>
                    && index < |durable.intents| && index < |old(durable).intents|
                       && d <= |durable.intents[index].deliveries|
                    && durable.intents[index].sequence == old(durable).intents[index].sequence
                    && |durable.intents[index].deliveries| == |old(durable).intents[index].deliveries|
                    && (failures == 0 ==> forall c :: 0 <= c < d ==> durable.intents[index].deliveries[c].accepted)
        invariant old(actions) <= actions
                  && forall k :: |old(actions)| <= k < |actions| ==> PublishingAction(actions[k])
        invariant Accepts(actions) == Accepts(old(actions))
        invariant Unmoved() && Unhindered() ==> failures == 0
        invariant attempted == old(attempted) + tried && Tried(tried, d, failures, deterministic)
        invariant old(refusals) <= refusals && old(misfits) <= misfits
        invariant d <= 8
        decreases 8 - d
      {
        ghost var before, s := actions, durable;
        FewDeliveries(platform, world, index);
        var failure := PublishDelivery(index, d, at, nonce);
        if SameAtPlace(s, durable, index, d) {
          SameFields(s.intents[index], durable.intents[index], d);
        }
        DeliveryAcceptsNothing(before, actions, d);
        TriedNext(tried, d, failures, deterministic, failure);
        tried := tried + [Attempted(d, failure)];
        if failure.Some? {
          failures := failures + 1;
          deterministic := deterministic && failure.value;
        }
        d := d + 1;
      }
      inReach := index < |durable.intents|;
      TriedExactly(tried, d, failures, deterministic);
      assert attempted[|old(attempted)|..] == tried;
    }

    /** Marks the intent at the kept place accepted by some route, or failed on all of them. */
    method SettleIntent(index: nat, deterministic: bool) returns (outcome: PublishOutcome)
      requires Consistent() && world.index == Some(index) && index < |durable.intents|
      modifies `durable, `actions, `world, `refusals, `misfits
      ensures Consistent() && start == old(start) && (Unmoved() ==> old(Unmoved())) && !outcome.Displaced?
      ensures outcome.Published? ==> actions == old(actions) + [Accept]
      ensures outcome.Stuck? ==> actions == old(actions) + [Fail(deterministic)]
      ensures outcome.NotSaved? ==> actions == old(actions) && durable == old(durable)
      ensures outcome.Published? ==> AnyAccepted(old(durable).intents[index].deliveries)
                                     && Some(durable) == Commit(platform, AcceptCandidate(old(durable), index).value)
      ensures outcome.Stuck? ==> !AnyAccepted(old(durable).intents[index].deliveries)
                                 && Some(durable) == Commit(platform,
                                                            FailCandidate(old(durable), index, deterministic).value)
      ensures outcome.Published? ==>
                world.log.acceptances
                == old(world).log.acceptances + [Acceptance(old(durable).intents[index].sessionID,
                                                            old(durable).intents[index].sequence)]
      ensures Accepts(actions) == Accepts(old(actions)) + if outcome.Published? then 1 else 0
      ensures (outcome.NotSaved? <==> !Unhindered()) && old(refusals) <= refusals && old(misfits) <= misfits
    {
      hide Run, Initial, Sane, Commit, FirstBlocking, AnyAccepted, HasDependent;
      var x := durable.intents[index];
      if AnyAccepted(x.deliveries) {
        var y := x.(status := RelayAccepted, envelope := None, deliveries := []);
        var candidate := durable.(intents := durable.intents[index := y]);
        var saved := SaveCandidate(candidate);
        if !saved {
          return NotSaved;
        }
        Record(Accept);
        return Published;
      }
      var dependent := HasDependent(durable, index);
      var y := if deterministic && !dependent then x.(status := PermanentFailure, envelope := None, deliveries := [])
               else x.(status := RetryableFailure);
      var candidate := durable.(intents := durable.intents[index := y]);
      var saved := SaveCandidate(candidate);
      if !saved {
        return NotSaved;
      }
      Record(Fail(deterministic));
      return Stuck;
    }

    /**
     * Publishes blocking intents in order until one fails, a limit is reached,
     * or nothing is left; a save that is refused, or a place that names nothing,
     * ends the call. While no save moved the place, the outbox stays in order.
     */
    method ResumeOutbound(maximumIntents: int, at: int, nonce: Id) returns (completed: Option<nat>)
      requires Consistent()
      modifies this
      ensures Consistent() && start == old(start) && (Unmoved() ==> old(Unmoved()) && InOrder(durable.intents))
      ensures old(actions) <= actions && forall k :: |old(actions)| <= k < |actions| ==> PublishingAction(actions[k])
      ensures !(1 <= maximumIntents <= MAXIMUM_PENDING_INTENTS) ==> completed.None? && actions == old(actions)
      ensures completed.Some? ==>
                completed.value <= maximumIntents && Accepts(actions) == Accepts(old(actions)) + completed.value
      ensures completed.Some? && completed.value < maximumIntents ==>
                || FirstBlocking(durable.intents) == |durable.intents|
                || durable.intents[FirstBlocking(durable.intents)].status == PermanentFailure
                || (actions != [] && actions[|actions| - 1].Fail?)
      ensures old(refusals) <= refusals && old(misfits) <= misfits
      ensures 1 <= maximumIntents <= MAXIMUM_PENDING_INTENTS && Unmoved() && Unhindered() ==>
                && completed.Some?
                && (|| completed.value == maximumIntents
                    || FirstBlocking(durable.intents) == |durable.intents|
                    || durable.intents[FirstBlocking(durable.intents)].status == PermanentFailure)
    {
      hide Run, Initial, Sane, Commit, FirstBlocking, InOrder, Boot, Steady;
      completed := PublishUpTo(maximumIntents, at, nonce);
      if Unmoved() {
        UnmovedIsGood();
      }
    }

    /** The publishing loop. */
    method PublishUpTo(maximumIntents: int, at: int, nonce: Id) returns (completed: Option<nat>)
      requires Consistent()
      modifies this
      ensures Consistent() && start == old(start) && (Unmoved() ==> old(Unmoved()))
      ensures old(actions) <= actions && forall k :: |old(actions)| <= k < |actions| ==> PublishingAction(actions[k])
      ensures !(1 <= maximumIntents <= MAXIMUM_PENDING_INTENTS) ==> completed.None? && actions == old(actions)
      ensures completed.Some? ==>
                completed.value <= maximumIntents && Accepts(actions) == Accepts(old(actions)) + completed.value
      ensures completed.Some? && completed.value < maximumIntents ==>
                || FirstBlocking(durable.intents) == |durable.intents|
                || durable.intents[FirstBlocking(durable.intents)].status == PermanentFailure
                || (actions != [] && actions[|actions| - 1].Fail?)
      ensures old(refusals) <= refusals && old(misfits) <= misfits
      ensures 1 <= maximumIntents <= MAXIMUM_PENDING_INTENTS && Unmoved() && Unhindered() ==>
                && completed.Some?
                && (|| completed.value == maximumIntents
                    || FirstBlocking(durable.intents) == |durable.intents|
                    || durable.intents[FirstBlocking(durable.intents)].status == PermanentFailure)
    {
      hide Run, Initial, Sane, Commit, FirstBlocking, Steady;
      if !(1 <= maximumIntents <= MAXIMUM_PENDING_INTENTS) {
        return None;
      }
      var count := 0;
      while count < maximumIntents
        invariant Consistent() && start == old(start) && (Unmoved() ==> old(Unmoved())) && count <= maximumIntents
        invariant old(actions) <= actions
                  && forall k :: |old(actions)| <= k < |actions| ==> PublishingAction(actions[k])
        invariant Accepts(actions) == Accepts(old(actions)) + count
        invariant old(refusals) <= refusals && old(misfits) <= misfits
      {
        var index := FirstBlocking(durable.intents);
        if index == |durable.intents| || durable.intents[index].status == PermanentFailure {
          return Some(count);
        }
        var outcome := PublishIntent(at, nonce);
        if outcome.NotSaved? || outcome.Displaced? {
          return None;
        }
        if outcome.Stuck? {
          return Some(count);
        }
        count := count + 1;
      }
      return Some(count);
    }

    // ---- Discarding ----

    /** The answer names what stands at the intent's old index after the save. */
    method Discard(transactionID: nat) returns (outcome: DiscardOutcome)
      requires Consistent()
      modifies this
      ensures Consistent() && start == old(start)
      ensures outcome.Refused? <==> DiscardCandidate(old(durable), transactionID).Err?
      ensures outcome.Refused? ==> DiscardCandidate(old(durable), transactionID) == Err(outcome.reason)
      ensures outcome.Discarded? ==>
                && actions == old(actions) + [OutboxHistory.Discard(transactionID)]
                && var i := FindTransaction(old(durable).intents, transactionID);
                   outcome.returned == if i < |durable.intents| then Some(durable.intents[i]) else None
      ensures !outcome.Discarded? ==> actions == old(actions) && durable == old(durable)
      ensures outcome.DiscardNotSaved? <==> !Unhindered()
    {
      hide Run, Initial, Sane, Commit, AnyAccepted, Doomed, WithoutSession, AbandonsBootstrap, Discarding;
      hide FindTransaction;
      var s := durable;
      var index := FindTransaction(s.intents, transactionID);
      if index == |s.intents| {
        return Refused(UnknownIntent);
      }
      var named := s.intents[index];
      if named.status == RelayAccepted {
        return Refused(AlreadyAccepted);
      }
      if named.control {
        return Refused(ControlDiscardForbidden);
      }
      var abandonsBootstrap := AbandonsBootstrap(named);
      if abandonsBootstrap && AnyAccepted(named.deliveries) {
        return Refused(BootstrapDiscardForbidden);
      }
      var intents := s.intents;
      for k := 0 to |s.intents|
        invariant |intents| == |s.intents|
        invariant forall j :: 0 <= j < k ==>
                    intents[j] == if Doomed(named, s.intents[j]) then Discarding(s.intents[j]) else s.intents[j]
        invariant forall j :: k <= j < |intents| ==> intents[j] == s.intents[j]
        invariant forall j :: 0 <= j < k && Doomed(named, s.intents[j]) && abandonsBootstrap ==>
                    s.intents[j].status != RelayAccepted
      {
        if Doomed(named, intents[k]) {
          if abandonsBootstrap && intents[k].status == RelayAccepted {
            return Refused(BootstrapDiscardForbidden);
          }
          intents := intents[k := Discarding(intents[k])];
        }
      }
      assert intents == DiscardIntents(s.intents, named);
      var candidate := s.(intents := intents);
      if abandonsBootstrap {
        candidate := candidate.(sessions := WithoutSession(s.sessions, named.sessionID),
                                activeSession := if s.activeSession == Some(named.sessionID) then None
                                  else s.activeSession);
      }
      assert DiscardCandidate(s, transactionID) == Ok(candidate);
      var saved := SaveCandidate(candidate);
      if !saved {
        return DiscardNotSaved;
      }
      Record(OutboxHistory.Discard(transactionID));
      return DiscardOutcome.Discarded(if index < |durable.intents| then Some(durable.intents[index]) else None);
    }
  }

  /** The run went on with actions of one delivery only. */
  ghost predicate DeliveryActions(before: seq<Action>, after: seq<Action>, d: nat) {
    before <= after && forall k :: |before| <= k < |after| ==> DeliveryAction(after[k], d)
  }

  lemma NoActions(actions: seq<Action>, d: nat)
    ensures DeliveryActions(actions, actions, d)
  {
  }

  lemma ActionsTransitive(a: seq<Action>, b: seq<Action>, c: seq<Action>, d: nat)
    requires DeliveryActions(a, b, d) && DeliveryActions(b, c, d)
    ensures DeliveryActions(a, c, d)
  {
    forall k | |a| <= k < |c| ensures DeliveryAction(c[k], d) {
      assert k < |b| ==> c[k] == b[k];
    }
  }

  lemma SameIntent(x: Intent, d: nat)
    ensures SameExceptDelivery(x, x, d)
  {
  }

  lemma SameTransitive(a: Intent, b: Intent, c: Intent, d: nat)
    requires SameExceptDelivery(a, b, d) && SameExceptDelivery(b, c, d)
    ensures SameExceptDelivery(a, c, d)
  {
  }

  lemma SameFields(x: Intent, y: Intent, d: nat)
    requires SameExceptDelivery(x, y, d)
    ensures y.sequence == x.sequence && |y.deliveries| == |x.deliveries|
    ensures forall c :: 0 <= c < |x.deliveries| && c != d ==> y.deliveries[c] == x.deliveries[c]
  {
  }

  lemma RefreshedProof(h: Hashes, packet: Packet, routeID: Id, capability: Id, at: int, nonce: Id)
    requires RefreshSendProof(h, packet, routeID, capability, at, nonce).Ok?
    ensures var r := RefreshSendProof(h, packet, routeID, capability, at, nonce).value;
            SameOnRelay(packet, r) && !SendProofExpired(r, at)
  {
  }

  /** In a saved state a delivery that is not accepted has a packet to send. */
  lemma UnfinishedIsDeliverable(e: Platform, w: World, index: nat, d: nat)
    requires Sane(e, w) && InReach(w.state, index, d) && !w.state.intents[index].deliveries[d].accepted
    ensures Deliverable(w.state, index, d)
  {
    hide Retry;
    IntentFacts(e, w, index);
  }

  lemma FewDeliveries(e: Platform, w: World, index: nat)
    requires Sane(e, w) && index < |w.state.intents|
    ensures |w.state.intents[index].deliveries| <= 8
  {
    hide Retry;
    IntentFacts(e, w, index);
  }

  lemma AttemptsBounded(e: Platform, w: World, index: nat)
    requires Sane(e, w) && index < |w.state.intents|
    ensures w.state.intents[index].attemptCount <= MAXIMUM_ATTEMPTS
  {
    hide Retry;
    IntentFacts(e, w, index);
  }

  lemma LastAcknowledged(attempts: seq<Attempt>, sequence: nat, d: nat, index: nat)
    ensures attempts != [] ==>
              var last := attempts[|attempts| - 1];
              last.accepted && last.sequence == sequence && last.delivery == d && last.index == index
              ==> Acknowledged(attempts, sequence, d, index)
  {
  }

  lemma AcceptsPublishing(before: seq<Action>, after: seq<Action>)
    requires after != [] && after[..|after| - 1] == before && !after[|after| - 1].Accept?
    ensures Accepts(after) == Accepts(before)
  {
  }

  lemma {:induction false} DeliveryAcceptsNothing(before: seq<Action>, after: seq<Action>, d: nat)
    requires DeliveryActions(before, after, d)
    ensures before <= after && Accepts(after) == Accepts(before)
    ensures forall k :: |before| <= k < |after| ==> PublishingAction(after[k])
    decreases |after|
  {
    if before == after {
    } else {
      DeliveryAcceptsNothing(before, after[..|after| - 1], d);
      assert DeliveryAction(after[|after| - 1], d);
    }
  }

  lemma ReservedRest(s: State)
    ensures ReserveSession(s).Some? ==> ReserveSession(s).value == s.(sessions := ReserveSession(s).value.sessions)
  {
    hide ReserveSession;
    if ReserveSession(s).Some? {
      ReserveFacts(s);
    }
  }

  /** An intent being published has a delivery, so when all are taken some is. */
  lemma AllAccepted(e: Platform, w: World, index: nat)
    requires Sane(e, w) && Aligned(w) && w.index == Some(index)
    ensures index < |w.state.intents|
    ensures var deliveries := w.state.intents[index].deliveries;
            (forall d :: 0 <= d < |deliveries| ==> deliveries[d].accepted) ==> AnyAccepted(deliveries)
  {
    hide Retry;
    IntentFacts(e, w, index);
    var deliveries := w.state.intents[index].deliveries;
    assert |deliveries| > 0;
    assert deliveries[0].accepted || !forall d :: 0 <= d < |deliveries| ==> deliveries[d].accepted;
  }

  lemma SavedSession(e: Platform, c: State)
    requires Commit(e, c).Some?
    ensures Commit(e, c).value.activeSession == c.activeSession
  {
    hide Commit, StateValid, Subsequence, PendingOnly;
    CommitFacts(e, c);
  }

  /** In a saved state the proof of a delivery's next packet can always be renewed. */
  lemma SavedPacketIsRenewable(e: Platform, w: World, index: nat, d: nat, at: int, nonce: Id)
    requires Sane(e, w) && Deliverable(w.state, index, d)
    ensures var delivery := w.state.intents[index].deliveries[d];
            var packet := NextPacket(w.state, index, d);
            RefreshSendProof(e.h, packet, delivery.routeID, delivery.sendCapability, at, nonce).Ok?
  {
    hide Retry, ValidPacket, PendingOnly, MakeProof, SendProofExpired;
    IntentFacts(e, w, index);
    DeliverableIsPending(e.h, w.state, index, d);
    assert DeliveryValid(e.h, w.state.intents[index].deliveries[d]);
  }

  lemma NewIntentIsSaved(e: Platform, c: State, x: Intent)
    requires Commit(e, c).Some? && c.intents != [] && c.intents[|c.intents| - 1] == x && Pending(x)
    ensures x in Commit(e, c).value.intents
  {
    hide Commit, PendingOnly, Pending, Subsequence, StateValid;
    CommitFacts(e, c);
    PendingMembers(c.intents, x);
    PendingMembers(Commit(e, c).value.intents, x);
  }
}
