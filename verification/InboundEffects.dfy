/**
 * What receiving does to the application, read off the records alone
 * (src/durable-pairwise-messaging-v2.js): the payloads that the reassembler
 * completes along them are processed one after the other, and what cannot be
 * opened or is no envelope is quarantined.
 */
module InboundEffects {
  import opened Wrappers
  import opened Bytes
  import opened PacketFrame
  import opened PacketSealing
  import opened SyncLog
  import opened Inbound
  import opened InboundLimits
  import R = Reassembly

  ghost predicate AllReadable<App>(applied: seq<Change<App>>) {
    forall i :: 0 <= i < |applied| ==> Readable(applied[i])
  }

  // ---- The reassembler along the records ----

  /** A failing packet leaves the saved reassembler alone, also where the object changed. */
  function ReassemblerAfter<App>(h: Hashes, key: Id, s: R.State, applied: seq<Change<App>>): R.State
    requires AllReadable(applied)
  {
    if applied == [] then s
    else
      var before := ReassemblerAfter(h, key, s, applied[..|applied| - 1]);
      match applied[|applied| - 1]
      case Elsewhere(_, _) => before
      case Received(r, _) =>
        var step := R.Consume(h, before, r.packet, key, r.routeRevision);
        if step.outcome.Failed? then before else step.state
  }

  /** What the reassembler answers to the last record. */
  function LastOutcome<App>(h: Hashes, key: Id, s: R.State, applied: seq<Change<App>>): Option<R.Outcome>
    requires AllReadable(applied)
  {
    if applied == [] then None
    else
      match applied[|applied| - 1]
      case Elsewhere(_, _) => None
      case Received(r, _) =>
        var before := ReassemblerAfter(h, key, s, applied[..|applied| - 1]);
        Some(R.Consume(h, before, r.packet, key, r.routeRevision).outcome)
  }

  // ---- The application along the payloads ----

  /** What acts on the application: the payload of a completed bundle, or a save of something else. */
  datatype Input<App> = Payload(octets: seq<Byte>, at: int) | Restart(app: App)

  /** Payloads of the bundles completed along the records, in order. */
  function Inputs<App>(h: Hashes, key: Id, s: R.State, applied: seq<Change<App>>): seq<Input<App>>
    requires AllReadable(applied)
  {
    if applied == [] then []
    else
      Inputs(h, key, s, applied[..|applied| - 1])
      + match applied[|applied| - 1]
        case Elsewhere(app, _) => [Restart(app)]
        case Received(_, at) =>
          match LastOutcome(h, key, s, applied)
          case Some(Complete(bundle)) => [Payload(bundle.payload, at)]
          case _ => []
  }

  function Acted<App>(process: (App, seq<Byte>, int) -> Processed<App>, app: App, input: Input<App>): App {
    match input
    case Restart(next) => next
    case Payload(octets, at) => (match process(app, octets, at) case Applied(next) => next case _ => app)
  }

  /** The fold of processing over the payloads, each once. */
  function AppAfter<App>(process: (App, seq<Byte>, int) -> Processed<App>, app: App, inputs: seq<Input<App>>): App {
    if inputs == [] then app
    else Acted(process, AppAfter(process, app, inputs[..|inputs| - 1]), inputs[|inputs| - 1])
  }

  /** What processing answers to the bundle that the last record completes. */
  function LastProcessed<App>(e: Platform<App>, s: Effects<App>, applied: seq<Change<App>>): Option<Processed<App>>
    requires AllReadable(applied)
  {
    match LastOutcome(e.h, e.payloadKey, s.reassembler, applied)
    case Some(Complete(bundle)) =>
      var front := applied[..|applied| - 1];
      Some(e.process(AppAfter(e.process, s.app, Inputs(e.h, e.payloadKey, s.reassembler, front)), bundle.payload,
                     applied[|applied| - 1].at))
    case _ => None
  }

  // ---- What stops a page, and what is quarantined ----

  /** The last change does not stop its page: its packet fails for good if at all, and its payload is processed. */
  predicate GoesOn<App>(e: Platform<App>, s: Effects<App>, applied: seq<Change<App>>)
    requires AllReadable(applied)
  {
    && (match LastOutcome(e.h, e.payloadKey, s.reassembler, applied)
        case Some(Failed(error)) =>
          || error == PacketIdentifierConflict || error == BundleConflict || error == FragmentConflict
          || error == MalformedFrame || error == BundleDigestMismatch
        case _ => true)
    && LastProcessed(e, s, applied) != Some(Failure)
  }

  /** Why the packet of the last record is quarantined, if it is. */
  function LastRejected<App>(e: Platform<App>, s: Effects<App>, applied: seq<Change<App>>): Option<Reason>
    requires AllReadable(applied)
  {
    match LastOutcome(e.h, e.payloadKey, s.reassembler, applied)
    case Some(Failed(error)) => Some(BadPacket(error))
    case _ => if LastProcessed(e, s, applied) == Some(NotAnEnvelope) then Some(InvalidEnvelopeEncoding) else None
  }

  /** A quarantine saved elsewhere, or the first one, and every packet quarantined since. */
  datatype Held = Held(base: seq<Quarantined>, since: seq<Quarantined>)

  function HeldAfter<App>(e: Platform<App>, s: Effects<App>, applied: seq<Change<App>>): Held
    requires AllReadable(applied)
  {
    if applied == [] then Held(s.quarantine, [])
    else
      var before := HeldAfter(e, s, applied[..|applied| - 1]);
      match applied[|applied| - 1]
      case Elsewhere(_, quarantine) => Held(quarantine, [])
      case Received(r, _) =>
        match LastRejected(e, s, applied)
        case None => before
        case Some(reason) =>
          before.(since := before.since + [Quarantined(r.packet, r.sequence, r.recordDigest, r.routeRevision, reason)])
  }

  /** The effects are what the records say. */
  ghost predicate ReadOff<App>(e: Platform<App>, s: Effects<App>, applied: seq<Change<App>>, t: Effects<App>)
    requires AllReadable(applied)
  {
    && t.reassembler == ReassemblerAfter(e.h, e.payloadKey, s.reassembler, applied)
    && t.app == AppAfter(e.process, s.app, Inputs(e.h, e.payloadKey, s.reassembler, applied))
    && var held := HeldAfter(e, s, applied);
       && |t.quarantine| == LengthAfter(|held.base|, |held.since|)
       && t.quarantine == Newest(held.base + held.since, |t.quarantine|)
  }

  ghost predicate NothingStops<App>(e: Platform<App>, s: Effects<App>, applied: seq<Change<App>>)
    requires AllReadable(applied)
  {
    forall n {:trigger applied[..n]} :: 0 < n <= |applied| ==> GoesOn(e, s, applied[..n])
  }

  lemma QuarantineNext(q: seq<Quarantined>, held: Held, r: Record, reason: Reason)
    requires |q| == LengthAfter(|held.base|, |held.since|) && q == Newest(held.base + held.since, |q|)
    requires |q| <= MAXIMUM_QUARANTINED_PACKETS
    ensures var entry := Quarantined(r.packet, r.sequence, r.recordDigest, r.routeRevision, reason);
            var next := Quarantine(q, r, reason);
            && |next| == LengthAfter(|held.base|, |held.since| + 1)
            && next == Newest(held.base + (held.since + [entry]), |next|)
  {
    var entry := Quarantined(r.packet, r.sequence, r.recordDigest, r.routeRevision, reason);
    assert held.base + (held.since + [entry]) == (held.base + held.since) + [entry];
  }

  lemma QuarantineRestarts(q: seq<Quarantined>)
    ensures |q| == LengthAfter(|q|, 0) && q == Newest(q + [], |q|)
  {
    assert q + [] == q;
  }

  lemma ElsewhereReadOff<App>(e: Platform<App>, s: Effects<App>, applied: seq<Change<App>>, before: Effects<App>)
    requires AllReadable(applied) && applied != [] && applied[|applied| - 1].Elsewhere?
    requires ReadOff(e, s, applied[..|applied| - 1], before)
    ensures ReadOff(e, s, applied, ApplyChange(e, before, applied[|applied| - 1]).value) && GoesOn(e, s, applied)
  {
    hide R.Consume, LengthAfter, Newest;
    var last := applied[|applied| - 1];
    QuarantineRestarts(last.quarantine);
    InputAppended(e.process, s.app, Inputs(e.h, e.payloadKey, s.reassembler, applied[..|applied| - 1]),
                  Restart(last.app));
  }

  lemma FailedReadOff<App>(e: Platform<App>, s: Effects<App>, applied: seq<Change<App>>, before: Effects<App>)
    requires AllReadable(applied) && applied != [] && |before.quarantine| <= MAXIMUM_QUARANTINED_PACKETS
    requires ReadOff(e, s, applied[..|applied| - 1], before)
    requires LastOutcome(e.h, e.payloadKey, s.reassembler, applied).Some?
             && LastOutcome(e.h, e.payloadKey, s.reassembler, applied).value.Failed?
    ensures var after := ApplyChange(e, before, applied[|applied| - 1]);
            (after.Some? <==> GoesOn(e, s, applied)) && (after.Some? ==> ReadOff(e, s, applied, after.value))
  {
    hide R.Consume, LengthAfter, Newest, Quarantine, AppAfter;
    var front, last := applied[..|applied| - 1], applied[|applied| - 1];
    var error := LastOutcome(e.h, e.payloadKey, s.reassembler, applied).value.error;
    QuarantineNext(before.quarantine, HeldAfter(e, s, front), last.record, BadPacket(error));
    assert Inputs(e.h, e.payloadKey, s.reassembler, applied) == Inputs(e.h, e.payloadKey, s.reassembler, front) + [];
    assert Inputs(e.h, e.payloadKey, s.reassembler, front) + [] == Inputs(e.h, e.payloadKey, s.reassembler, front);
  }

  lemma CompletedReadOff<App>(e: Platform<App>, s: Effects<App>, applied: seq<Change<App>>, before: Effects<App>)
    requires AllReadable(applied) && applied != [] && |before.quarantine| <= MAXIMUM_QUARANTINED_PACKETS
    requires ReadOff(e, s, applied[..|applied| - 1], before)
    requires LastOutcome(e.h, e.payloadKey, s.reassembler, applied).Some?
             && LastOutcome(e.h, e.payloadKey, s.reassembler, applied).value.Complete?
    ensures var after := ApplyChange(e, before, applied[|applied| - 1]);
            (after.Some? <==> GoesOn(e, s, applied)) && (after.Some? ==> ReadOff(e, s, applied, after.value))
  {
    hide R.Consume, LengthAfter, Newest, Quarantine, AppAfter;
    var front, last := applied[..|applied| - 1], applied[|applied| - 1];
    var bundle := LastOutcome(e.h, e.payloadKey, s.reassembler, applied).value.bundle;
    QuarantineNext(before.quarantine, HeldAfter(e, s, front), last.record, InvalidEnvelopeEncoding);
    InputAppended(e.process, s.app, Inputs(e.h, e.payloadKey, s.reassembler, front), Payload(bundle.payload, last.at));
  }

  lemma OtherwiseReadOff<App>(e: Platform<App>, s: Effects<App>, applied: seq<Change<App>>, before: Effects<App>)
    requires AllReadable(applied) && applied != []
    requires ReadOff(e, s, applied[..|applied| - 1], before)
    requires var outcome := LastOutcome(e.h, e.payloadKey, s.reassembler, applied);
             outcome == Some(R.Accepted) || outcome == Some(R.Duplicate)
    ensures var after := ApplyChange(e, before, applied[|applied| - 1]);
            GoesOn(e, s, applied) && after.Some? && ReadOff(e, s, applied, after.value)
  {
    hide R.Consume, LengthAfter, Newest, Quarantine, AppAfter;
    var front := applied[..|applied| - 1];
    assert Inputs(e.h, e.payloadKey, s.reassembler, applied) == Inputs(e.h, e.payloadKey, s.reassembler, front) + [];
    assert Inputs(e.h, e.payloadKey, s.reassembler, front) + [] == Inputs(e.h, e.payloadKey, s.reassembler, front);
  }

  /** One change: it is applied exactly when it does not stop the page, and then its effects are read off. */
  lemma ChangeReadOff<App>(e: Platform<App>, s: Effects<App>, applied: seq<Change<App>>, before: Effects<App>)
    requires AllReadable(applied) && applied != [] && |before.quarantine| <= MAXIMUM_QUARANTINED_PACKETS
    requires ReadOff(e, s, applied[..|applied| - 1], before)
    ensures var after := ApplyChange(e, before, applied[|applied| - 1]);
            (after.Some? <==> GoesOn(e, s, applied)) && (after.Some? ==> ReadOff(e, s, applied, after.value))
  {
    hide ReadOff, GoesOn, ApplyChange, R.Consume, ReassemblerAfter;
    match LastOutcome(e.h, e.payloadKey, s.reassembler, applied)
    case None => ElsewhereReadOff(e, s, applied, before); SavedElsewhere(e, before, applied[|applied| - 1]);
    case Some(Failed(_)) => FailedReadOff(e, s, applied, before);
    case Some(Complete(_)) => CompletedReadOff(e, s, applied, before);
    case Some(_) => OtherwiseReadOff(e, s, applied, before);
  }

  lemma SavedElsewhere<App>(e: Platform<App>, s: Effects<App>, c: Change<App>)
    requires c.Elsewhere?
    ensures ApplyChange(e, s, c).Some?
  {
  }

  lemma InputAppended<App>(process: (App, seq<Byte>, int) -> Processed<App>, app: App, inputs: seq<Input<App>>,
                           next: Input<App>)
    ensures AppAfter(process, app, inputs + [next]) == Acted(process, AppAfter(process, app, inputs), next)
  {
    assert (inputs + [next])[..|inputs|] == inputs;
  }

  lemma NoChanges<App>(e: Platform<App>, s: Effects<App>)
    ensures ReadOff(e, s, [], s)
  {
    QuarantineRestarts(s.quarantine);
  }

  lemma NothingStopsAppend<App>(e: Platform<App>, s: Effects<App>, applied: seq<Change<App>>)
    requires AllReadable(applied) && applied != []
    ensures NothingStops(e, s, applied) <==> NothingStops(e, s, applied[..|applied| - 1]) && GoesOn(e, s, applied)
  {
    hide GoesOn;
    var front := applied[..|applied| - 1];
    assert applied[..|applied|] == applied;
    forall n | 0 < n <= |front| ensures front[..n] == applied[..n] {
    }
  }

  /** Saved quarantines stay within their bound, so the changes keep it as well. */
  lemma {:induction false} ApplyAllReadOff<App>(e: Platform<App>, s: Effects<App>, applied: seq<Change<App>>)
    requires AllReadable(applied) && |s.quarantine| <= MAXIMUM_QUARANTINED_PACKETS
    requires forall i :: 0 <= i < |applied| && applied[i].Elsewhere? ==>
               |applied[i].quarantine| <= MAXIMUM_QUARANTINED_PACKETS
    ensures ApplyAll(e, s, applied).Some? <==> NothingStops(e, s, applied)
    ensures ApplyAll(e, s, applied).Some? ==>
              && ReadOff(e, s, applied, ApplyAll(e, s, applied).value)
              && |ApplyAll(e, s, applied).value.quarantine| <= MAXIMUM_QUARANTINED_PACKETS
  {
    hide ReadOff, GoesOn, ApplyChange;
    if applied == [] {
      NoChanges(e, s);
    } else {
      var front := applied[..|applied| - 1];
      ApplyAllReadOff(e, s, front);
      NothingStopsAppend(e, s, applied);
      if ApplyAll(e, s, front).Some? {
        ChangeReadOff(e, s, applied, ApplyAll(e, s, front).value);
        ChangeKeepsBound(e, ApplyAll(e, s, front).value, applied[|applied| - 1]);
      }
    }
  }

  lemma ChangeKeepsBound<App>(e: Platform<App>, s: Effects<App>, c: Change<App>)
    requires Readable(c) && |s.quarantine| <= MAXIMUM_QUARANTINED_PACKETS
    requires c.Elsewhere? ==> |c.quarantine| <= MAXIMUM_QUARANTINED_PACKETS
    ensures ApplyChange(e, s, c).Some? ==> |ApplyChange(e, s, c).value.quarantine| <= MAXIMUM_QUARANTINED_PACKETS
  {
    hide R.Consume, Quarantine;
  }

  // ---- Every run ----

  ghost predicate QuarantinesBounded<App>(applied: seq<Change<App>>) {
    forall i :: 0 <= i < |applied| && applied[i].Elsewhere? ==> |applied[i].quarantine| <= MAXIMUM_QUARANTINED_PACKETS
  }

  lemma {:induction false} SavedBounded<App>(e: Platform<App>, worlds: seq<World<App>>, actions: seq<Action<App>>,
                                             n: nat)
    requires Trace(e, worlds, actions) && Initial(e, worlds[0]) && n < |worlds|
    ensures QuarantinesBounded(worlds[n].applied)
  {
    hide Initial;
    if n > 0 {
      SavedBounded(e, worlds, actions, n - 1);
      assert Step(e, worlds[n - 1], actions[n - 1]) == Some(worlds[n]);
      StepBounded(e, worlds[n - 1], actions[n - 1]);
    } else {
      NothingApplied(e, worlds[0]);
    }
  }

  lemma NothingApplied<App>(e: Platform<App>, w: World<App>)
    requires Initial(e, w)
    ensures w.applied == [] && w.local.gap.None? && w.local.effects.quarantine == []
  {
  }

  lemma StepBounded<App>(e: Platform<App>, w: World<App>, a: Action<App>)
    requires QuarantinesBounded(w.applied) && Step(e, w, a).Some?
    ensures QuarantinesBounded(Step(e, w, a).value.applied)
  {
    hide PageContinues, Accepted, ApplyAll, MarkGap, Advance;
  }

  /**
   * Exactly once, without a word about how it is done: at every crash point of
   * every run the durable application is the fold of processing over the
   * payloads of the bundles that the reassembler completes along the saved
   * records, in order, each once, beginning anew where something else was saved
   * in between. No saved record failed in a way that stops its page. The
   * quarantine is the newest part of all packets that failed for good or held
   * no envelope. A gap only drops partial bundles.
   */
  lemma {:induction false} EffectsAreReadOff<App>(e: Platform<App>, worlds: seq<World<App>>, actions: seq<Action<App>>,
                                                  n: nat)
    requires Trace(e, worlds, actions) && Initial(e, worlds[0]) && n < |worlds|
    ensures AllReadable(worlds[n].applied)
    ensures var w, s := worlds[n], worlds[0].local.effects;
            var held := HeldAfter(e, s, w.applied);
            var reassembler := ReassemblerAfter(e.h, e.payloadKey, s.reassembler, w.applied);
            && w.local.effects.app == AppAfter(e.process, s.app, Inputs(e.h, e.payloadKey, s.reassembler, w.applied))
            && w.local.effects.quarantine
               == Newest(held.base + held.since, LengthAfter(|held.base|, |held.since|))
            && (w.local.effects.reassembler
                == if w.local.gap.None? then reassembler else R.DiscardPendingBundles(reassembler))
            && forall k {:trigger w.applied[..k]} :: 0 < k <= |w.applied| ==> GoesOn(e, s, w.applied[..k])
  {
    hide Trace, Initial, EffectsFit, ApplyAll, Chain, Records, QuarantineFits, GoesOn;
    TraceGood(e, worlds, actions, n);
    SavedBounded(e, worlds, actions, n);
    NothingApplied(e, worlds[0]);
    ApplyAllReadOff(e, worlds[0].local.effects, worlds[n].applied);
  }

  /** A page that goes on where the cursor stands is applied exactly when nothing in it stops it. */
  lemma {:induction false} PageAppliesExactly<App>(e: Platform<App>, worlds: seq<World<App>>,
                                                   actions: seq<Action<App>>, n: nat, limit: int, b: Batch, at: int)
    requires Trace(e, worlds, actions) && Initial(e, worlds[0]) && n < |worlds|
    requires PageContinues(e, worlds[n].local, limit, b)
    requires forall i :: 0 <= i < |b.packets| ==> 0 <= b.packets[i].routeRevision <= MAX_SAFE_INTEGER
    ensures var s, page := worlds[n].local.effects, Applications<App>(b.packets, at);
            ApplyAll(e, s, page).Some? <==>
            forall k {:trigger page[..k]} :: 0 < k <= |page| ==> GoesOn(e, s, page[..k])
  {
    hide Trace, Initial, Good, PageContinues, ApplyAll, GoesOn, QuarantineFits;
    TraceGood(e, worlds, actions, n);
    HeldFits(e, worlds[0], worlds[n]);
    FewHeld(worlds[n].local.effects.quarantine);
    ApplyAllReadOff(e, worlds[n].local.effects, Applications(b.packets, at));
  }
}
