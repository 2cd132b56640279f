/**
 * Receiving an opaque route's log exactly once (src/client.js,
 * src/pairwise-opaque-route-v2.js, src/durable-pairwise-messaging-v2.js). The
 * cursor, the reassembler and every effect of a page are saved together; the
 * relay is told to forget a page only afterwards.
 */
module Inbound {
  import opened Wrappers
  import opened Bytes
  import opened PacketFrame
  import opened PacketSealing
  import opened SyncLog
  import R = Reassembly
  import S = Snapshots

  const MAXIMUM_QUARANTINED_PACKETS := 64

  datatype GapReason = RetentionExpired | CursorRegression | SequenceDiscontinuity | DigestChainBreak

  datatype Reason = BadPacket(error: PacketError) | InvalidEnvelopeEncoding

  datatype Quarantined = Quarantined(packet: Packet, sequence: int, recordDigest: Id, routeRevision: int,
                                     reason: Reason)

  /** What records do to durable state. `app` is everything envelopes act on, left abstract. */
  datatype Effects<App> = Effects(reassembler: R.State, app: App, quarantine: seq<Quarantined>)

  datatype Local<App> = Local(sequence: int, recordDigest: Id, cursor: nat, gap: Option<GapReason>,
                              effects: Effects<App>)

  /** A decoded bundle is applied, is no envelope at all, or fails in a way that stops the page. */
  datatype Processed<App> = Applied(app: App) | NotAnEnvelope | Failure

  datatype Platform<!App> = Platform(
    h: Hashes,
    digest: RecordHash,
    routeID: Id,
    payloadKey: Id,
    process: (App, seq<Byte>, int) -> Processed<App>)

  // ---- One record ----

  predicate TerminalPacketFailure(error: PacketError) {
    error in {PacketIdentifierConflict, BundleConflict, FragmentConflict, MalformedFrame, BundleDigestMismatch}
  }

  /** The list gives way to its newest 48 entries when full, then takes one more. */
  function Quarantine(list: seq<Quarantined>, r: Record, reason: Reason): (q: seq<Quarantined>)
    ensures |list| <= MAXIMUM_QUARANTINED_PACKETS ==> |q| <= MAXIMUM_QUARANTINED_PACKETS
    ensures q != [] && q[|q| - 1] == Quarantined(r.packet, r.sequence, r.recordDigest, r.routeRevision, reason)
  {
    var kept := if |list| < MAXIMUM_QUARANTINED_PACKETS then list else list[|list| - 48..];
    kept + [Quarantined(r.packet, r.sequence, r.recordDigest, r.routeRevision, reason)]
  }

  /** The effects of one record at a reception time, or nothing when it stops the page. */
  function ApplyRecord<App>(e: Platform<App>, s: Effects<App>, r: Record, at: int): Option<Effects<App>>
    requires r.routeRevision >= 0
  {
    var step := R.Consume(e.h, s.reassembler, r.packet, e.payloadKey, r.routeRevision);
    match step.outcome
    case Failed(error) =>
      if TerminalPacketFailure(error) then Some(s.(quarantine := Quarantine(s.quarantine, r, BadPacket(error))))
        else None
    case Complete(bundle) =>
      (match e.process(s.app, bundle.payload, at)
       case Applied(app) => Some(s.(reassembler := step.state, app := app))
       case NotAnEnvelope =>
         Some(s.(reassembler := step.state, quarantine := Quarantine(s.quarantine, r, InvalidEnvelopeEncoding)))
       case Failure => None)
    case _ => Some(s.(reassembler := step.state))
  }

  /**
   * The update of a reassembler that throws is thrown away, so a digest
   * mismatch does not retire its bundle durably: what was pending of it stays
   * pending, and its tombstone is lost.
   */
  lemma MismatchRetirementIsLost<App>(e: Platform<App>, s: Effects<App>, r: Record, at: int)
    requires r.routeRevision >= 0 && R.Valid(s.reassembler)
    requires R.Consume(e.h, s.reassembler, r.packet, e.payloadKey, r.routeRevision).outcome
               == R.Failed(BundleDigestMismatch)
    ensures var after := ApplyRecord(e, s, r, at);
            && after.Some? && after.value.reassembler == s.reassembler
            && |after.value.quarantine| > 0
               && after.value.quarantine[|after.value.quarantine| - 1].reason == BadPacket(BundleDigestMismatch)
    ensures exists b :: b !in s.reassembler.completed
                        && b in R.Consume(e.h, s.reassembler, r.packet, e.payloadKey, r.routeRevision).state.completed
  {
    hide R.Valid, R.ConsumeFragment, OpenValidated;
    R.RejectedToOpen(r.packet, e.payloadKey, r.routeRevision);
    var f := OpenValidated(r.packet, e.payloadKey, r.routeRevision).value;
    R.MismatchRetiresBundle(e.h, s.reassembler, f, r.packet.authorization.operationDigest);
    assert f.bundleID in R.Consume(e.h, s.reassembler, r.packet, e.payloadKey, r.routeRevision).state.completed;
  }

  /**
   * What changed the durable state: a record of this route, received at some
   * time, or a save of anything else in between, such as a preparation, a
   * discard or a page of another route.
   */
  datatype Change<App> = Received(record: Record, at: int) | Elsewhere(app: App, quarantine: seq<Quarantined>)

  predicate Readable<App>(c: Change<App>) {
    c.Received? ==> 0 <= c.record.routeRevision <= MAX_SAFE_INTEGER
  }

  /** The records among the changes, in order. */
  function Records<App>(applied: seq<Change<App>>): seq<Record> {
    if applied == [] then []
    else
      Records(applied[..|applied| - 1])
      + if applied[|applied| - 1].Received? then [applied[|applied| - 1].record] else []
  }

  lemma {:induction false} RecordsAppend<App>(a: seq<Change<App>>, b: seq<Change<App>>)
    ensures Records(a + b) == Records(a) + Records(b)
  {
    if b == [] {
      assert a + b == a;
    } else {
      RecordsAppend(a, b[..|b| - 1]);
      assert (a + b)[..|a + b| - 1] == a + b[..|b| - 1];
    }
  }

  function ApplyChange<App>(e: Platform<App>, s: Effects<App>, c: Change<App>): Option<Effects<App>>
    requires Readable(c)
  {
    match c
    case Received(r, at) => ApplyRecord(e, s, r, at)
    case Elsewhere(app, quarantine) => Some(s.(app := app, quarantine := quarantine))
  }

  /** Effects of the changes one after the other, each once. */
  function ApplyAll<App>(e: Platform<App>, s: Effects<App>, applied: seq<Change<App>>): Option<Effects<App>>
    requires forall i :: 0 <= i < |applied| ==> Readable(applied[i])
  {
    if applied == [] then Some(s)
    else
      match ApplyAll(e, s, applied[..|applied| - 1])
      case None => None
      case Some(t) => ApplyChange(e, t, applied[|applied| - 1])
  }

  lemma {:induction false} ApplyAllAppend<App>(e: Platform<App>, s: Effects<App>, a: seq<Change<App>>,
                                               b: seq<Change<App>>)
    requires forall i :: 0 <= i < |a| ==> Readable(a[i])
    requires forall i :: 0 <= i < |b| ==> Readable(b[i])
    requires ApplyAll(e, s, a).Some?
    ensures ApplyAll(e, s, a + b) == ApplyAll(e, ApplyAll(e, s, a).value, b)
  {
    if b == [] {
      assert a + b == a;
    } else {
      ApplyAllAppend(e, s, a, b[..|b| - 1]);
      assert (a + b)[..|a + b| - 1] == a + b[..|b| - 1];
    }
  }

  // ---- Pages ----

  function DetectGap<App>(b: Batch, l: Local<App>): Option<GapReason> {
    if b.retentionFloorSequence > l.sequence then Some(RetentionExpired)
    else if b.startsAfterSequence < l.sequence || b.nextSequence < l.sequence then Some(CursorRegression)
    else if b.startsAfterSequence != l.sequence then Some(SequenceDiscontinuity)
    else if b.startsAfterRecordDigest != l.recordDigest then Some(DigestChainBreak)
    else None
  }

  /** An accepted page has no gap exactly when it goes on where the saved cursor stands. */
  lemma NoGapMeansContinues<App>(e: Platform<App>, limit: int, b: Batch, l: Local<App>)
    requires Accepted(e.h, e.digest, e.routeID, limit, b)
    ensures DetectGap(b, l).None? <==>
              b.startsAfterSequence == l.sequence && b.startsAfterRecordDigest == l.recordDigest
  {
    hide Chained, RecordBound;
  }

  /**
   * Why an accepted page does not go on where the saved cursor stands: records
   * behind the cursor are gone from the relay, the page starts before it, or
   * behind it, or at it with another history.
   */
  lemma GapSaysWhy<App>(e: Platform<App>, limit: int, b: Batch, l: Local<App>)
    requires Accepted(e.h, e.digest, e.routeID, limit, b)
    ensures DetectGap(b, l) == Some(RetentionExpired) <==> l.sequence < b.retentionFloorSequence
    ensures DetectGap(b, l) == Some(CursorRegression) <==> b.startsAfterSequence < l.sequence
    ensures DetectGap(b, l) == Some(SequenceDiscontinuity) <==>
              b.retentionFloorSequence <= l.sequence < b.startsAfterSequence
    ensures DetectGap(b, l) == Some(DigestChainBreak) <==>
              b.startsAfterSequence == l.sequence && b.startsAfterRecordDigest != l.recordDigest
  {
    hide Chained, RecordBound;
  }

  function MarkGap<App>(l: Local<App>, reason: GapReason): Local<App> {
    l.(gap := Some(reason), effects := l.effects.(reassembler := R.DiscardPendingBundles(l.effects.reassembler)))
  }

  function Advance<App>(l: Local<App>, b: Batch, effects: Effects<App>): Local<App> {
    l.(sequence := b.nextSequence, recordDigest := b.nextRecordDigest, cursor := b.nextCursor, effects := effects)
  }

  function Applications<App>(packets: seq<Record>, at: int): (r: seq<Change<App>>)
    ensures |r| == |packets| && forall i :: 0 <= i < |r| ==> r[i] == Received(packets[i], at)
  {
    seq(|packets|, i requires 0 <= i < |packets| => Received(packets[i], at))
  }

  lemma {:induction false} RecordsOfPage<App>(page: seq<Change<App>>, packets: seq<Record>, at: int)
    requires |page| == |packets| && forall i :: 0 <= i < |page| ==> page[i] == Received(packets[i], at)
    ensures Records(page) == packets
  {
    if page != [] {
      RecordsOfPage(page[..|page| - 1], packets[..|packets| - 1], at);
      assert packets == packets[..|packets| - 1] + [packets[|packets| - 1]];
    }
  }

  /** What saving checks of the quarantine: its bound, and that no packet is in it twice. */
  predicate QuarantineFits(q: seq<Quarantined>) {
    && |q| <= MAXIMUM_QUARANTINED_PACKETS
    && forall i, j :: 0 <= i < j < |q| ==> q[i].packet.packetID != q[j].packet.packetID
  }

  // ---- Runs ----

  datatype World<App> = World(local: Local<App>, requested: set<int>, relayCommitted: int, applied: seq<Change<App>>)

  datatype Action<App> =
    | SaveElsewhere(app: App, quarantine: seq<Quarantined>)
    | SaveGap(limit: int, batch: Batch)
    | SavePage(limit: int, batch: Batch, at: int)
    | RequestCommit
    | RelayCommits(sequence: int)

  predicate PageContinues<App>(e: Platform<App>, l: Local<App>, limit: int, b: Batch) {
    l.gap.None? && Accepted(e.h, e.digest, e.routeID, limit, b) && DetectGap(b, l).None?
  }

  lemma RevisionsFit(h: Hashes, digest: RecordHash, routeID: Id, limit: int, b: Batch)
    requires Accepted(h, digest, routeID, limit, b)
    ensures forall i :: 0 <= i < |b.packets| ==> 0 <= b.packets[i].routeRevision <= MAX_SAFE_INTEGER
  {
    hide RecordBound;
    forall i | 0 <= i < |b.packets| ensures 0 <= b.packets[i].routeRevision <= MAX_SAFE_INTEGER {
      assert Linked(b.packets, i, b.startsAfterSequence, b.startsAfterRecordDigest);
    }
  }

  function Step<App>(e: Platform<App>, w: World<App>, a: Action<App>): Option<World<App>> {
    match a
    case SaveElsewhere(app, quarantine) =>
      if !QuarantineFits(quarantine) then None
      else
        Some(w.(local := w.local.(effects := w.local.effects.(app := app, quarantine := quarantine)),
                applied := w.applied + [Elsewhere(app, quarantine)]))
    case SaveGap(limit, b) =>
      if w.local.gap.None? && Accepted(e.h, e.digest, e.routeID, limit, b) && DetectGap(b, w.local).Some? then
        Some(w.(local := MarkGap(w.local, DetectGap(b, w.local).value)))
      else None
    case SavePage(limit, b, at) =>
      if !PageContinues(e, w.local, limit, b) then None
      else
        RevisionsFit(e.h, e.digest, e.routeID, limit, b);
        (match ApplyAll(e, w.local.effects, Applications(b.packets, at))
         case None => None
         case Some(effects) =>
           if !QuarantineFits(effects.quarantine) then None
           else Some(w.(local := Advance(w.local, b, effects), applied := w.applied + Applications(b.packets, at))))
    case RequestCommit => Some(w.(requested := w.requested + {w.local.sequence}))
    case RelayCommits(sequence) => if sequence in w.requested then Some(w.(relayCommitted := sequence)) else None
  }

  function Run<App>(e: Platform<App>, start: World<App>, actions: seq<Action<App>>): Option<World<App>> {
    if actions == [] then Some(start)
    else
      match Run(e, start, actions[..|actions| - 1])
      case None => None
      case Some(w) => Step(e, w, actions[|actions| - 1])
  }

  /** A new route's durable state: nothing committed and a reassembler of the default limits. */
  ghost predicate Initial<App>(e: Platform<App>, w: World<App>) {
    && w.local == Local(0, 0, 0, None, Effects(FreshReassembler(), w.local.effects.app, []))
    && w.requested == {} && w.applied == [] && w.relayCommitted == 0
  }

  function FreshReassembler(): R.State {
    R.Initial(64, 1024 * 1024).value
  }

  // ---- Invariant ----

  ghost predicate EffectsFit<App>(e: Platform<App>, s: Effects<App>) {
    R.Valid(s.reassembler) && S.OnRoute(s.reassembler, Some(e.routeID)) && |s.quarantine| <= MAXIMUM_QUARANTINED_PACKETS
  }

  /** The durable state is what applying each record of one gapless chain once makes of the start. */
  ghost predicate Good<App>(e: Platform<App>, start: World<App>, w: World<App>) {
    && (forall i :: 0 <= i < |w.applied| ==> Readable(w.applied[i]))
    && Chain(e.h, e.digest, e.routeID, Records(w.applied), start.local.sequence, start.local.recordDigest)
    && w.local.sequence == start.local.sequence + |Records(w.applied)|
    && w.local.recordDigest == DigestAfter(start.local.recordDigest, Records(w.applied))
    && EffectsFit(e, w.local.effects) && QuarantineFits(w.local.effects.quarantine)
    && (var all := ApplyAll(e, start.local.effects, w.applied);
        && all.Some?
        && w.local.effects == if w.local.gap.None? then all.value
                              else all.value.(reassembler := R.DiscardPendingBundles(all.value.reassembler)))
    && (forall n :: n in w.requested ==> n <= w.local.sequence)
    && w.relayCommitted <= w.local.sequence
  }

  lemma ConsumeStaysOnRoute(h: Hashes, s: R.State, p: Packet, key: Id, revision: nat)
    requires S.OnRoute(s, Some(p.routeID))
    ensures S.OnRoute(R.Consume(h, s, p, key, revision).state, Some(p.routeID))
  {
    hide R.ConsumeFragment, ValidFragment;
    if ValidPacket(h, p) && p.packetID !in s.packetDigests && OpenValidated(p, key, revision).Ok? {
      FragmentStaysOnRoute(h, s, OpenValidated(p, key, revision).value, p.authorization.operationDigest);
      R.OpenedFragment(h, p, key, revision);
    }
  }

  lemma FragmentStaysOnRoute(h: Hashes, s: R.State, f: Fragment, digest: Id)
    requires S.OnRoute(s, Some(f.routeID))
    ensures S.OnRoute(R.ConsumeFragment(h, s, f, digest).state, Some(f.routeID))
  {
    hide R.Assemble, R.BundleBytes, R.Finish, R.Admit, S.OnRoute;
    if f.bundleID !in s.completed {
      AdmitStaysOnRoute(s, f, digest);
      FinishStaysOnRoute(h, R.Admit(s, f, digest), f);
    }
  }

  lemma AdmitStaysOnRoute(s: R.State, f: Fragment, digest: Id)
    requires S.OnRoute(s, Some(f.routeID))
    ensures S.OnRoute(R.Admit(s, f, digest), Some(f.routeID)) && f.bundleID in R.Admit(s, f, digest).pending
  {
  }

  lemma FinishStaysOnRoute(h: Hashes, s: R.State, f: Fragment)
    requires S.OnRoute(s, Some(f.routeID)) && f.bundleID in s.pending
    ensures S.OnRoute(R.Finish(h, s, f).state, Some(f.routeID))
  {
    hide R.Assemble, R.BundleBytes, R.RememberTerminal, R.RemovePending, S.OnRoute;
    var p := s.pending[f.bundleID];
    RetireStaysOnRoute(s, f.bundleID, f.routeID, R.Terminal(p.routeID, p.routeRevision, p.bundleDigest));
    RetireStaysOnRoute(s, f.bundleID, f.routeID, R.Terminal(f.routeID, p.routeRevision, p.bundleDigest));
  }

  lemma RetireStaysOnRoute(s: R.State, b: Id, routeID: Id, t: R.Terminal)
    requires S.OnRoute(s, Some(routeID)) && b in s.pending
    ensures s.pending[b].routeID == routeID
    ensures t.routeID == routeID ==> S.OnRoute(R.RememberTerminal(R.RemovePending(s, b), b, t), Some(routeID))
  {
    hide R.BundleBytes;
  }

  lemma ApplyRecordFits<App>(e: Platform<App>, s: Effects<App>, r: Record, at: int)
    requires EffectsFit(e, s) && 0 <= r.routeRevision <= MAX_SAFE_INTEGER && r.packet.routeID == e.routeID
    requires ApplyRecord(e, s, r, at).Some?
    ensures EffectsFit(e, ApplyRecord(e, s, r, at).value)
  {
    hide R.Valid, R.Consume, S.OnRoute;
    R.ConsumeKeepsValid(e.h, s.reassembler, r.packet, e.payloadKey, r.routeRevision);
    ConsumeStaysOnRoute(e.h, s.reassembler, r.packet, e.payloadKey, r.routeRevision);
  }

  lemma {:induction false} ApplyAllFits<App>(e: Platform<App>, s: Effects<App>, applied: seq<Change<App>>)
    requires EffectsFit(e, s)
    requires forall i :: 0 <= i < |applied| ==>
               Readable(applied[i]) && applied[i].Received? && applied[i].record.packet.routeID == e.routeID
    requires ApplyAll(e, s, applied).Some?
    ensures EffectsFit(e, ApplyAll(e, s, applied).value)
  {
    hide EffectsFit, ApplyRecord;
    if applied != [] {
      var front, last := applied[..|applied| - 1], applied[|applied| - 1];
      ApplyAllFits(e, s, front);
      ApplyRecordFits(e, ApplyAll(e, s, front).value, last.record, last.at);
    }
  }

  lemma PageOnRoute(h: Hashes, digest: RecordHash, routeID: Id, limit: int, b: Batch)
    requires Accepted(h, digest, routeID, limit, b)
    ensures forall i :: 0 <= i < |b.packets| ==> b.packets[i].packet.routeID == routeID
  {
    hide Chained;
    forall i | 0 <= i < |b.packets| ensures b.packets[i].packet.routeID == routeID {
      assert RecordBound(h, digest, routeID, b.packets[i]);
    }
  }

  lemma PageGood<App>(e: Platform<App>, start: World<App>, w: World<App>, limit: int, b: Batch, at: int)
    requires Good(e, start, w) && Step(e, w, SavePage(limit, b, at)).Some?
    ensures Good(e, start, Step(e, w, SavePage(limit, b, at)).value)
  {
    hide EffectsFit, Accepted, Chain, ApplyAll, Records, QuarantineFits;
    RevisionsFit(e.h, e.digest, e.routeID, limit, b);
    PageOnRoute(e.h, e.digest, e.routeID, limit, b);
    NoGapMeansContinues(e, limit, b, w.local);
    AcceptedIsLog(e.h, e.digest, e.routeID, limit, b);
    var page := Applications<App>(b.packets, at);
    var next := w.applied + page;
    RecordsAppend(w.applied, page);
    RecordsOfPage(page, b.packets, at);
    ChainsGlue(e.h, e.digest, e.routeID, Records(w.applied), b.packets, start.local.sequence, start.local.recordDigest);
    ApplyAllAppend(e, start.local.effects, w.applied, page);
    ApplyAllFits(e, w.local.effects, page);
  }

  lemma GapGood<App>(e: Platform<App>, start: World<App>, w: World<App>, limit: int, b: Batch)
    requires Good(e, start, w) && Step(e, w, SaveGap(limit, b)).Some?
    ensures Good(e, start, Step(e, w, SaveGap(limit, b)).value)
  {
    hide Accepted, Chain, ApplyAll, R.Valid;
    R.DiscardAllKeepsValid(w.local.effects.reassembler);
  }

  lemma ElsewhereGood<App>(e: Platform<App>, start: World<App>, w: World<App>, app: App, quarantine: seq<Quarantined>)
    requires Good(e, start, w) && QuarantineFits(quarantine)
    ensures Good(e, start, Step(e, w, SaveElsewhere(app, quarantine)).value)
  {
    hide Chain, R.Valid, S.OnRoute;
    var next := w.applied + [Elsewhere(app, quarantine)];
    assert next[..|w.applied|] == w.applied && next[|w.applied|] == Elsewhere(app, quarantine);
    assert Records(next) == Records(w.applied);
  }

  lemma StartGood<App>(e: Platform<App>, start: World<App>)
    requires Initial(e, start)
    ensures Good(e, start, start)
  {
    assert Records(start.applied) == [];
  }

  lemma StepGood<App>(e: Platform<App>, start: World<App>, w: World<App>, a: Action<App>)
    requires Good(e, start, w) && Step(e, w, a).Some?
    ensures Good(e, start, Step(e, w, a).value)
  {
    hide EffectsFit, Chain, Accepted, ApplyAll, MarkGap, Advance, Records, QuarantineFits;
    match a
    case SaveElsewhere(app, quarantine) => ElsewhereGood(e, start, w, app, quarantine);
    case SaveGap(limit, b) => GapGood(e, start, w, limit, b);
    case SavePage(limit, b, at) => PageGood(e, start, w, limit, b, at);
    case RequestCommit =>
    case RelayCommits(sequence) =>
  }

  // ---- Every world of every run ----

  /** The worlds of a run: one before each action and one at its end. */
  ghost predicate Trace<App>(e: Platform<App>, worlds: seq<World<App>>, actions: seq<Action<App>>) {
    && |worlds| == |actions| + 1
    && forall n {:trigger actions[n]} :: 0 <= n < |actions| ==> Step(e, worlds[n], actions[n]) == Some(worlds[n + 1])
  }

  /** Every run has a trace, so what holds along traces holds of what an object recorded. */
  lemma {:induction false} RunHasTrace<App>(e: Platform<App>, start: World<App>, actions: seq<Action<App>>)
    returns (worlds: seq<World<App>>)
    requires Run(e, start, actions).Some?
    ensures Trace(e, worlds, actions) && worlds[0] == start && Some(worlds[|actions|]) == Run(e, start, actions)
  {
    hide Step;
    if actions == [] {
      worlds := [start];
    } else {
      var front := actions[..|actions| - 1];
      var before := RunHasTrace(e, start, front);
      worlds := before + [Run(e, start, actions).value];
      forall n | 0 <= n < |actions| ensures Step(e, worlds[n], actions[n]) == Some(worlds[n + 1]) {
        if n < |front| {
          assert front[n] == actions[n];
        }
      }
    }
  }

  lemma {:induction false} TraceGood<App>(e: Platform<App>, worlds: seq<World<App>>, actions: seq<Action<App>>, n: nat)
    requires Trace(e, worlds, actions) && Initial(e, worlds[0]) && n < |worlds|
    ensures Good(e, worlds[0], worlds[n])
  {
    hide Good, Step, Initial;
    if n == 0 {
      StartGood(e, worlds[0]);
    } else {
      TraceGood(e, worlds, actions, n - 1);
      assert Step(e, worlds[n - 1], actions[n - 1]) == Some(worlds[n]);
      StepGood(e, worlds[0], worlds[n - 1], actions[n - 1]);
    }
  }

  /**
   * At every crash point of every run the records behind the durable state are
   * numbered from one without a gap up to the durable cursor, and the relay
   * never forgets beyond that cursor.
   */
  lemma {:induction false} RecordsAreConsecutive<App>(e: Platform<App>, worlds: seq<World<App>>,
                                                      actions: seq<Action<App>>, n: nat)
    requires Trace(e, worlds, actions) && Initial(e, worlds[0]) && n < |worlds|
    ensures var w := worlds[n]; var records := Records(w.applied);
            && (forall i :: 0 <= i < |records| ==> records[i].sequence == i + 1)
            && w.relayCommitted <= w.local.sequence == |records|
  {
    hide Trace, EffectsFit, ApplyAll, RecordBound, Records, QuarantineFits;
    TraceGood(e, worlds, actions, n);
    var records := Records(worlds[n].applied);
    forall i | 0 <= i < |records| ensures records[i].sequence == i + 1 {
      assert Linked(records, i, 0, 0);
    }
  }

  /** Each change in turn, made once, takes the effects one step on. */
  ghost predicate AppliedAlong<App>(e: Platform<App>, steps: seq<Effects<App>>, applied: seq<Change<App>>) {
    && |steps| == |applied| + 1
    && forall i {:trigger applied[i]} :: 0 <= i < |applied| ==>
         Readable(applied[i]) && ApplyChange(e, steps[i], applied[i]) == Some(steps[i + 1])
  }

  lemma {:induction false} StepsOf<App>(e: Platform<App>, s: Effects<App>, applied: seq<Change<App>>)
    returns (steps: seq<Effects<App>>)
    requires forall i :: 0 <= i < |applied| ==> Readable(applied[i])
    requires ApplyAll(e, s, applied).Some?
    ensures AppliedAlong(e, steps, applied) && steps[0] == s && Some(steps[|applied|]) == ApplyAll(e, s, applied)
  {
    hide ApplyChange, Readable;
    if applied == [] {
      steps := [s];
    } else {
      var front := applied[..|applied| - 1];
      var before := StepsOf(e, s, front);
      steps := before + [ApplyAll(e, s, applied).value];
      forall i | 0 <= i < |applied|
        ensures ApplyChange(e, steps[i], applied[i]) == Some(steps[i + 1])
      {
        if i < |front| {
          assert front[i] == applied[i];
        }
      }
    }
  }

  /**
   * Exactly once, at every crash point of every run: the durable effects are
   * what applying each record behind them once, in order, makes of a new route,
   * with the saves of everything else where they came in between; a gap only
   * drops partial bundles.
   */
  lemma {:induction false} ReceivedExactlyOnce<App>(e: Platform<App>, worlds: seq<World<App>>,
                                                    actions: seq<Action<App>>, n: nat)
    returns (steps: seq<Effects<App>>)
    requires Trace(e, worlds, actions) && Initial(e, worlds[0]) && n < |worlds|
    ensures AppliedAlong(e, steps, worlds[n].applied) && steps[0] == worlds[0].local.effects
    ensures var all := steps[|worlds[n].applied|];
            worlds[n].local.effects
            == if worlds[n].local.gap.None? then all else all.(reassembler := R.DiscardPendingBundles(all.reassembler))
  {
    hide Trace, EffectsFit, ApplyAll, RecordBound, Chain, Records, QuarantineFits, Readable;
    TraceGood(e, worlds, actions, n);
    steps := StepsOf(e, worlds[0].local.effects, worlds[n].applied);
  }

  /**
   * Against the relay's own log: when the durable digest is the log's digest at
   * the durable sequence, the applied records are that prefix of the log.
   */
  lemma {:induction false} AppliedIsLogPrefix<App>(e: Platform<App>, worlds: seq<World<App>>, actions: seq<Action<App>>,
                                                   n: nat, log: seq<Record>)
    requires Trace(e, worlds, actions) && Initial(e, worlds[0]) && n < |worlds|
    requires Chain(e.h, e.digest, e.routeID, log, worlds[0].local.sequence, worlds[0].local.recordDigest)
    requires var w := worlds[n]; var records := Records(w.applied);
             && |records| <= |log|
             && w.local.recordDigest == DigestAfter(worlds[0].local.recordDigest, log[..|records|])
             && CollisionFree(e.h, e.digest, records, log[..|records|])
    ensures forall i :: 0 <= i < |Records(worlds[n].applied)| ==> SameRecord(Records(worlds[n].applied)[i], log[i])
  {
    hide Trace, EffectsFit, ApplyAll, Chain, CollisionFree, SameRecord, Records, QuarantineFits;
    TraceGood(e, worlds, actions, n);
    var start, records := worlds[0], Records(worlds[n].applied);
    var k := |records|;
    ChainPrefix(e.h, e.digest, e.routeID, log, k, start.local.sequence, start.local.recordDigest);
    SameEndSameRecords(e.h, e.digest, e.routeID, records, log[..k], start.local.sequence,
                       start.local.recordDigest, start.local.recordDigest);
    forall i | 0 <= i < k ensures SameRecord(records[i], log[i]) {
      assert log[..k][i] == log[i];
    }
  }

  /** What is durable can always be restored, so no later page is lost to its own snapshot. */
  lemma {:induction false} DurableReassemblerRestores<App>(e: Platform<App>, worlds: seq<World<App>>,
                                                           actions: seq<Action<App>>, n: nat)
    requires Trace(e, worlds, actions) && Initial(e, worlds[0]) && n < |worlds|
    ensures var s := worlds[n].local.effects.reassembler;
            && S.Saveable(s) && S.Accepts(S.SnapshotOf(s), Some(e.routeID))
               && S.Restored(S.SnapshotOf(s), Some(e.routeID)) == s
  {
    hide Trace, R.Valid, S.OnRoute, S.Saveable, S.Accepts, S.SnapshotOf, S.Restored, Chain, ApplyAll;
    TraceGood(e, worlds, actions, n);
    S.RestoreUndoesSnapshot(worlds[n].local.effects.reassembler, Some(e.routeID));
  }

  lemma RunAppend<App>(e: Platform<App>, start: World<App>, actions: seq<Action<App>>, a: Action<App>)
    requires Run(e, start, actions).Some?
    ensures Run(e, start, actions + [a]) == Step(e, Run(e, start, actions).value, a)
  {
    hide Step;
    assert (actions + [a])[..|actions|] == actions;
  }

  // ---- The receiving object ----

  datatype SyncFailure = RouteGap(reason: GapReason) | InvalidResponse | NotSaved | PageStopped | ApplicationFailed

  /** Why a page is not received when nothing outside fails, if it is not. */
  function FailureFor<App>(e: Platform<App>, l: Local<App>, limit: int, b: Batch, at: int): Option<SyncFailure> {
    if l.gap.Some? then Some(RouteGap(l.gap.value))
    else if !Accepted(e.h, e.digest, e.routeID, limit, b) then Some(InvalidResponse)
    else if DetectGap(b, l).Some? then Some(RouteGap(DetectGap(b, l).value))
    else
      RevisionsFit(e.h, e.digest, e.routeID, limit, b);
      match ApplyAll(e, l.effects, Applications(b.packets, at))
      case None => Some(PageStopped)
      case Some(effects) => if QuarantineFits(effects.quarantine) then None else Some(NotSaved)
  }

  class OpaqueRouteReceiver<App> {
    const platform: Platform<App>
    var durable: Local<App>
    ghost var start: World<App>
    ghost var actions: seq<Action<App>>
    ghost var world: World<App>
    /** How often the repository, the application or the relay refused. */
    ghost var refusals: nat

    ghost predicate Consistent()
      reads this
    {
      Initial(platform, start) && Run(platform, start, actions) == Some(world) && world.local == durable
    }

    constructor (platform: Platform<App>, app: App)
      ensures Consistent() && Initial(platform, World(durable, {}, 0, [])) && durable.effects.app == app
      ensures this.platform == platform && actions == []
    {
      var first := Local(0, 0, 0, None, Effects(FreshReassembler(), app, []));
      this.platform := platform;
      durable := first;
      start := World(first, {}, 0, []);
      actions := [];
      world := World(first, {}, 0, []);
      refusals := 0;
    }

    /** The repository, the application or the relay answers. */
    method Ask() returns (agrees: bool)
      modifies `refusals
      ensures refusals == old(refusals) + if agrees then 0 else 1
    {
      agrees := *;
      if !agrees {
        refusals := refusals + 1;
      }
    }

    ghost method Record(a: Action<App>)
      requires Initial(platform, start) && Run(platform, start, actions) == Some(world)
      requires Step(platform, world, a).Some? && Step(platform, world, a).value.local == durable
      modifies `actions, `world
      ensures Consistent() && actions == old(actions) + [a]
      ensures Some(world) == Step(platform, old(world), a)
    {
      hide Run, Step, Initial;
      RunAppend(platform, start, actions, a);
      world := Step(platform, world, a).value;
      actions := actions + [a];
    }

    /** The repository takes the whole candidate or nothing. */
    method Persist(candidate: Local<App>) returns (saved: bool)
      modifies `durable, `refusals
      ensures durable == if saved then candidate else old(durable)
      ensures refusals == old(refusals) + if saved then 0 else 1
    {
      saved := Ask();
      if saved {
        durable := candidate;
      }
    }

    /** Anything else that the runtime saves between two pages of this route. */
    method ActElsewhere(app: App, quarantine: seq<Quarantined>) returns (saved: bool)
      requires Consistent()
      modifies this
      ensures Consistent() && start == old(start)
      ensures saved ==> actions == old(actions) + [SaveElsewhere(app, quarantine)]
                        && var effects := old(durable).effects.(app := app, quarantine := quarantine);
                           durable == old(durable).(effects := effects)
      ensures !saved ==> durable == old(durable) && actions == old(actions)
      ensures saved <==> QuarantineFits(quarantine) && refusals == old(refusals)
    {
      hide Run, Initial;
      if !QuarantineFits(quarantine) {
        return false;
      }
      saved := Persist(durable.(effects := durable.effects.(app := app, quarantine := quarantine)));
      if saved {
        Record(SaveElsewhere(app, quarantine));
      }
    }

    /** Validates a response and detects gaps; a gap is made durable before it is reported. */
    method SyncOpaqueRoute(response: Batch, limit: int) returns (r: Result<Batch, SyncFailure>)
      requires Consistent()
      modifies this
      ensures Consistent() && start == old(start)
      ensures r.Ok? ==> r.value == response && PageContinues(platform, durable, limit, response)
                        && durable == old(durable) && actions == old(actions)
      ensures old(durable).gap.Some? ==>
                r == Err(RouteGap(old(durable).gap.value)) && durable == old(durable) && actions == old(actions)
      ensures r.Err? && old(durable).gap.None? && r.error.RouteGap? ==>
                durable == MarkGap(old(durable), r.error.reason) && actions == old(actions) + [SaveGap(limit, response)]
      ensures r.Err? && !r.error.RouteGap? ==>
                durable == old(durable) && actions == old(actions) && !r.error.ApplicationFailed?
      ensures r.Err? && r.error != NotSaved ==>
                forall at :: FailureFor(platform, old(durable), limit, response, at) == Some(r.error)
      ensures r.Err? && r.error == NotSaved ==> refusals > old(refusals)
      ensures old(refusals) <= refusals && (r != Err(NotSaved) ==> refusals == old(refusals))
    {
      hide Run, Initial, Accepted, MarkGap;
      if durable.gap.Some? {
        return Err(RouteGap(durable.gap.value));
      }
      var ok := Validate(platform.h, platform.digest, platform.routeID, limit, response);
      if !ok {
        return Err(InvalidResponse);
      }
      var gap := DetectGap(response, durable);
      if gap.Some? {
        var saved := Persist(MarkGap(durable, gap.value));
        if !saved {
          return Err(NotSaved);
        }
        Record(SaveGap(limit, response));
        return Err(RouteGap(gap.value));
      }
      return Ok(response);
    }

    /** Applies the records of a page to a candidate in order; nothing durable changes. */
    method ApplyPage(b: Batch, at: int) returns (effects: Option<Effects<App>>)
      requires forall i :: 0 <= i < |b.packets| ==> 0 <= b.packets[i].routeRevision <= MAX_SAFE_INTEGER
      ensures effects == ApplyAll(platform, durable.effects, Applications(b.packets, at))
    {
      hide ApplyRecord;
      var page := Applications<App>(b.packets, at);
      var candidate := durable.effects;
      assert page[..0] == [];
      for i := 0 to |b.packets|
        invariant ApplyAll(platform, durable.effects, page[..i]) == Some(candidate)
      {
        assert page[..i + 1][..i] == page[..i];
        var next := ApplyRecord(platform, candidate, b.packets[i], at);
        if next.None? {
          StoppedPage(platform, durable.effects, page, i + 1);
          return None;
        }
        candidate := next.value;
      }
      assert page[..|page|] == page;
      return Some(candidate);
    }

    /**
     * One page: validated, applied to a candidate, saved with its cursor, and
     * only then committed at the relay, whose answer does not matter. The
     * application is told in between; when that fails the page is durable
     * nevertheless and the relay is not asked.
     */
    method SyncReceive(response: Batch, limit: int, at: int) returns (r: Result<bool, SyncFailure>)
      requires Consistent()
      modifies this
      ensures Consistent() && start == old(start)
      ensures r.Ok? || r.error.ApplicationFailed? ==>
                && PageContinues(platform, old(durable), limit, response)
                && old(actions) + [SavePage(limit, response, at)] <= actions
                && (forall i :: 0 <= i < |response.packets| ==>
                    0 <= response.packets[i].routeRevision <= MAX_SAFE_INTEGER)
                && (var effects := ApplyAll(platform, old(durable).effects, Applications(response.packets, at));
                    effects.Some?
                    && durable == Local(response.nextSequence, response.nextRecordDigest, response.nextCursor,
                                        old(durable).gap, effects.value))
      ensures r.Err? && r.error.ApplicationFailed? ==> actions == old(actions) + [SavePage(limit, response, at)]
      ensures r.Err? && !r.error.RouteGap? && !r.error.ApplicationFailed? ==>
                durable == old(durable) && actions == old(actions)
      ensures r.Err? && r.error.RouteGap? && old(durable).gap.None? ==>
                && durable.gap == Some(r.error.reason) && durable.sequence == old(durable).sequence
                && durable == MarkGap(old(durable), r.error.reason)
      ensures refusals == old(refusals) ==>
                match FailureFor(platform, old(durable), limit, response, at)
                case Some(failure) => r == Err(failure)
                case None => r == Ok(true)
                             && actions == old(actions) + [SavePage(limit, response, at), RequestCommit,
                                                           RelayCommits(response.nextSequence)]
      ensures r.Err? ==> || FailureFor(platform, old(durable), limit, response, at) == Some(r.error)
                         || (refusals > old(refusals) && (r.error == NotSaved || r.error == ApplicationFailed))
    {
      hide Run, Initial, Accepted, ApplyAll;
      var synced := SyncOpaqueRoute(response, limit);
      if synced.Err? {
        return Err(synced.error);
      }
      RevisionsFit(platform.h, platform.digest, platform.routeID, limit, response);
      var effects := ApplyPage(response, at);
      if effects.None? {
        return Err(PageStopped);
      }
      if !QuarantineFits(effects.value.quarantine) {
        return Err(NotSaved);
      }
      var saved := Persist(Advance(durable, response, effects.value));
      if !saved {
        return Err(NotSaved);
      }
      Record(SavePage(limit, response, at));
      var told := Ask();
      if !told {
        return Err(ApplicationFailed);
      }
      var reached := Ask();
      if !reached {
        return Ok(false);
      }
      Record(RequestCommit);
      var committed := Ask();
      if !committed {
        return Ok(false);
      }
      Record(RelayCommits(durable.sequence));
      return Ok(true);
    }
  }

  lemma {:induction false} StoppedPage<App>(e: Platform<App>, s: Effects<App>, page: seq<Change<App>>, n: nat)
    requires n <= |page| && forall i :: 0 <= i < |page| ==> Readable(page[i])
    requires ApplyAll(e, s, page[..n]).None?
    ensures ApplyAll(e, s, page).None?
  {
    hide ApplyRecord;
    if n == |page| {
      assert page[..n] == page;
    } else {
      var front := page[..|page| - 1];
      assert front[..n] == page[..n];
      StoppedPage(e, s, front, n);
    }
  }
}
