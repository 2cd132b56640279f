/**
 * How long the reassembler remembers a finished bundle
 * (src/opaque-route-packet-v2.js): over any run of operations on arbitrary
 * packets, the same bundle cannot be retired again before 1024 others.
 */
module ReplayHorizon {
  import opened Wrappers
  import opened Collections
  import opened PacketFrame
  import opened PacketSealing
  import R = Reassembly

  datatype Op =
    | ConsumeOp(packet: Packet, payloadKey: Id, routeRevision: nat)
    | DiscardOldestOp
    | DiscardOneOp(bundleID: Id)
    | DiscardAllOp

  predicate Callable(op: Op) {
    op.ConsumeOp? ==> op.routeRevision <= MAX_SAFE_INTEGER
  }

  /** One operation: its new state, the answer of a consumption, and the bundle it retired. */
  datatype Effect = Effect(state: R.State, answer: Option<R.Outcome>, retired: Option<Id>)

  function Apply(h: Hashes, s: R.State, op: Op): Effect {
    match op
    case ConsumeOp(packet, key, revision) =>
      var step := R.Consume(h, s, packet, key, revision);
      var retired :=
        match step.outcome
        case Complete(bundle) => Some(bundle.bundleID)
        case Failed(BundleDigestMismatch) =>
          (match OpenValidated(packet, key, revision) case Ok(f) => Some(f.bundleID) case Err(_) => None)
        case _ => None;
      Effect(step.state, Some(step.outcome), retired)
    case DiscardOldestOp =>
      Effect(R.DiscardOldestPendingBundle(s), None, if s.pendingOrder == [] then None else Some(s.pendingOrder[0]))
    case DiscardOneOp(b) =>
      Effect(R.DiscardPendingBundle(s, b), None, if b in s.pending then Some(b) else None)
    case DiscardAllOp =>
      Effect(R.DiscardPendingBundles(s), None, None)
  }

  /** The effects of the operations of a run, each on the state the one before it left. */
  ghost predicate History(h: Hashes, start: R.State, ops: seq<Op>, effects: seq<Effect>) {
    && |effects| == |ops|
    && forall i {:trigger ops[i]} :: 0 <= i < |ops| ==> effects[i] == Apply(h, StateBefore(start, effects, i), ops[i])
  }

  function StateBefore(start: R.State, effects: seq<Effect>, i: nat): R.State
    requires i <= |effects|
  {
    if i == 0 then start else effects[i - 1].state
  }

  /** The bundles retired, in order. */
  function Retired(effects: seq<Effect>): seq<Id> {
    if effects == [] then []
    else
      Retired(effects[..|effects| - 1])
      + if effects[|effects| - 1].retired.Some? then [effects[|effects| - 1].retired.value] else []
  }

  function Recent(log: seq<Id>): seq<Id> {
    if |log| <= R.MAXIMUM_TOMBSTONES then log else log[|log| - R.MAXIMUM_TOMBSTONES..]
  }

  /** Two entries for one bundle are more than the horizon apart. */
  ghost predicate Separated(log: seq<Id>) {
    forall p, q :: 0 <= p < q < |log| && log[p] == log[q] ==> q - p > R.MAXIMUM_TOMBSTONES
  }

  ghost predicate Remembers(s: R.State, log: seq<Id>) {
    R.Valid(s) && R.Incomplete(s) && s.completedOrder == Recent(log) && Separated(log)
  }

  lemma RecentAppend(s: R.State, log: seq<Id>, b: Id, t: R.Terminal)
    requires s.completedOrder == Recent(log)
    ensures R.RememberTerminal(s, b, t).completedOrder == Recent(log + [b])
  {
  }

  lemma RetireOne(s: R.State, log: seq<Id>, b: Id, t: R.Terminal)
    requires R.Lists(s.completedOrder, s.completed.Keys)
    requires s.completedOrder == Recent(log) && Separated(log) && b !in s.completed
    ensures R.RememberTerminal(s, b, t).completedOrder == Recent(log + [b])
    ensures Separated(log + [b])
  {
    var next, recent := log + [b], Recent(log);
    var older := |log| - |recent|;
    assert b !in Elements(s.completedOrder);
    forall p | older <= p < |log|
      ensures log[p] != b
    {
      assert log[p] == recent[p - older];
    }
    forall p, q | 0 <= p < q < |next| && next[p] == next[q]
      ensures q - p > R.MAXIMUM_TOMBSTONES
    {
      assert q < |log| ==> log[p] == log[q];
    }
  }

  lemma ConsumeRemembers(h: Hashes, s: R.State, log: seq<Id>, packet: Packet, key: Id, revision: nat)
    requires Remembers(s, log) && revision <= MAX_SAFE_INTEGER
    ensures var e := Apply(h, s, ConsumeOp(packet, key, revision));
            Remembers(e.state, if e.retired.Some? then log + [e.retired.value] else log)
  {
    hide R.PendingFit, R.PacketsDisjoint, R.TotalBytes, R.TerminalsFit, R.Lists, R.Incomplete;
    hide R.ConsumeFragment, OpenValidated;
    R.ConsumeKeepsValid(h, s, packet, key, revision);
    R.RejectedToOpen(packet, key, revision);
    if ValidPacket(h, packet) && packet.packetID !in s.packetDigests && OpenValidated(packet, key, revision).Ok? {
      FragmentRetires(h, s, log, OpenValidated(packet, key, revision).value, packet.authorization.operationDigest);
    }
  }

  lemma FragmentRetires(h: Hashes, s: R.State, log: seq<Id>, f: Fragment, digest: Id)
    requires R.Lists(s.completedOrder, s.completed.Keys) && s.completedOrder == Recent(log) && Separated(log)
    ensures var step := R.ConsumeFragment(h, s, f, digest);
            && (step.outcome.Complete? ==> step.outcome.bundle.bundleID == f.bundleID)
            && (if step.outcome.Complete? || step.outcome == R.Failed(BundleDigestMismatch)
                then step.state.completedOrder == Recent(log + [f.bundleID]) && Separated(log + [f.bundleID])
                else step.state.completedOrder == Recent(log))
  {
    hide R.Lists, Separated, Recent, R.SameBundle, R.Finish, R.Admit;
    if f.bundleID !in s.completed {
      R.AdmitTouchesOneBundle(s, f, digest);
      FinishRetires(h, R.Admit(s, f, digest), log, f);
    }
  }

  lemma FinishRetires(h: Hashes, t: R.State, log: seq<Id>, f: Fragment)
    requires R.Lists(t.completedOrder, t.completed.Keys) && t.completedOrder == Recent(log) && Separated(log)
    requires f.bundleID in t.pending && f.bundleID !in t.completed
    ensures var step := R.Finish(h, t, f);
            && (step.outcome.Complete? ==> step.outcome.bundle.bundleID == f.bundleID)
            && (if step.outcome.Complete? || step.outcome == R.Failed(BundleDigestMismatch)
                then step.state.completedOrder == Recent(log + [f.bundleID]) && Separated(log + [f.bundleID])
                else step.outcome.Accepted? && step.state.completedOrder == Recent(log))
  {
    hide R.Lists, Separated, Recent, R.Assemble, R.BundleBytes, R.RememberTerminal, Without;
    var p := t.pending[f.bundleID];
    RetireOne(R.RemovePending(t, f.bundleID), log, f.bundleID, R.Terminal(p.routeID, p.routeRevision, p.bundleDigest));
    RetireOne(R.RemovePending(t, f.bundleID), log, f.bundleID, R.Terminal(f.routeID, p.routeRevision, p.bundleDigest));
  }

  lemma ApplyRemembers(h: Hashes, s: R.State, log: seq<Id>, op: Op)
    requires Remembers(s, log) && Callable(op)
    ensures var e := Apply(h, s, op);
            Remembers(e.state, if e.retired.Some? then log + [e.retired.value] else log)
  {
    match op
    case ConsumeOp(packet, key, revision) =>
      ConsumeRemembers(h, s, log, packet, key, revision);
    case DiscardOldestOp =>
      if s.pendingOrder != [] {
        assert s.pendingOrder[0] in Elements(s.pendingOrder);
        DiscardRemembers(s, log, s.pendingOrder[0]);
      }
    case DiscardOneOp(b) =>
      if b in s.pending {
        DiscardRemembers(s, log, b);
      }
    case DiscardAllOp =>
      R.DiscardAllKeepsValid(s);
  }

  lemma DiscardRemembers(s: R.State, log: seq<Id>, b: Id)
    requires Remembers(s, log) && b in s.pending
    ensures Remembers(R.DiscardPendingBundle(s, b), log + [b])
  {
    hide R.PendingFit, R.PacketsDisjoint, R.TotalBytes, R.TerminalsFit, R.Lists;
    R.DiscardKeepsValid(s, b);
    var p := s.pending[b];
    RetireOne(R.RemovePending(s, b), log, b, R.Terminal(p.routeID, p.routeRevision, p.bundleDigest));
  }

  lemma RetiredNext(effects: seq<Effect>, n: nat)
    requires n < |effects|
    ensures Retired(effects[..n + 1])
         == Retired(effects[..n]) + if effects[n].retired.Some? then [effects[n].retired.value] else []
  {
    assert effects[..n + 1][..n] == effects[..n];
  }

  lemma StartRemembers(n: int, m: int)
    requires R.Initial(n, m).Ok?
    ensures Remembers(R.Initial(n, m).value, [])
  {
    assert R.PacketIDs(R.Initial(n, m).value.pending) == {};
  }

  lemma {:induction false} HistoryRemembers(h: Hashes, n: int, m: int, ops: seq<Op>, effects: seq<Effect>, k: nat)
    requires R.Initial(n, m).Ok? && History(h, R.Initial(n, m).value, ops, effects) && k <= |ops|
    requires forall i :: 0 <= i < |ops| ==> Callable(ops[i])
    ensures Remembers(StateBefore(R.Initial(n, m).value, effects, k), Retired(effects[..k]))
  {
    hide Apply, R.Initial, Remembers;
    if k == 0 {
      StartRemembers(n, m);
    } else {
      var start := R.Initial(n, m).value;
      HistoryRemembers(h, n, m, ops, effects, k - 1);
      RetiredNext(effects, k - 1);
      assert effects[k - 1] == Apply(h, StateBefore(start, effects, k - 1), ops[k - 1]);
      ApplyRemembers(h, StateBefore(start, effects, k - 1), Retired(effects[..k - 1]), ops[k - 1]);
      assert Retired(effects[..k - 1]) + [] == Retired(effects[..k - 1]);
    }
  }

  lemma {:induction false} RetiredGrows(effects: seq<Effect>, j: nat, k: nat)
    requires j <= k <= |effects|
    ensures Retired(effects[..j]) <= Retired(effects[..k])
  {
    if j < k {
      RetiredGrows(effects, j, k - 1);
      RetiredNext(effects, k - 1);
    }
  }

  lemma CompletionIsRetired(h: Hashes, start: R.State, ops: seq<Op>, effects: seq<Effect>, i: nat, bundle: R.Bundle)
    requires History(h, start, ops, effects) && i < |ops| && effects[i].answer == Some(R.Complete(bundle))
    ensures Retired(effects[..i + 1]) == Retired(effects[..i]) + [bundle.bundleID]
  {
    RetiredNext(effects, i);
    assert effects[i] == Apply(h, StateBefore(start, effects, i), ops[i]);
  }

  /**
   * From the constructor, over any operations on any packets: between two
   * completions of one bundle at least 1024 other bundles are retired, counting
   * completions, discards and digest mismatches.
   */
  lemma {:induction false} ReplaysAreFarApart(h: Hashes, n: int, m: int, ops: seq<Op>, effects: seq<Effect>, i: nat,
                                              j: nat,
                                              first: R.Bundle, second: R.Bundle)
    requires R.Initial(n, m).Ok? && History(h, R.Initial(n, m).value, ops, effects)
    requires forall k :: 0 <= k < |ops| ==> Callable(ops[k])
    requires i < j < |ops| && first.bundleID == second.bundleID
    requires effects[i].answer == Some(R.Complete(first)) && effects[j].answer == Some(R.Complete(second))
    ensures var from, to := Retired(effects[..i + 1]), Retired(effects[..j]);
            && |from| + R.MAXIMUM_TOMBSTONES <= |to|
            && forall t :: |from| <= t < |from| + R.MAXIMUM_TOMBSTONES ==> to[t] != first.bundleID
  {
    hide R.Valid, R.Incomplete, Apply, R.Initial, Retired;
    CompletionIsRetired(h, R.Initial(n, m).value, ops, effects, i, first);
    CompletionIsRetired(h, R.Initial(n, m).value, ops, effects, j, second);
    HistoryRemembers(h, n, m, ops, effects, j + 1);
    RetiredGrows(effects, i + 1, j);
    var log, to := Retired(effects[..j + 1]), Retired(effects[..j]);
    var p := |Retired(effects[..i])|;
    assert log == to + [first.bundleID];
    assert p < |to| && log[p] == to[p] == first.bundleID && log[|to|] == first.bundleID;
    forall t | p < t <= p + R.MAXIMUM_TOMBSTONES && t < |to|
      ensures to[t] != first.bundleID
    {
      assert log[t] == to[t];
    }
  }
}
