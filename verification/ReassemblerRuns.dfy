/**
 * What holds of a reassembler (src/opaque-route-packet-v2.js) from its
 * constructor on, after any operations on any packets.
 */
module ReassemblerRuns {
  import opened Wrappers
  import opened Collections
  import opened PacketFrame
  import opened PacketSealing
  import opened ReplayHorizon
  import R = Reassembly
  import S = Snapshots

  lemma {:induction false} StateIsValid(h: Hashes, n: int, m: int, ops: seq<Op>, effects: seq<Effect>, k: nat)
    requires R.Initial(n, m).Ok? && History(h, R.Initial(n, m).value, ops, effects) && k <= |ops|
    requires forall i :: 0 <= i < |ops| ==> Callable(ops[i])
    ensures R.Valid(StateBefore(R.Initial(n, m).value, effects, k))
            && R.Incomplete(StateBefore(R.Initial(n, m).value, effects, k))
  {
    hide R.Valid, R.Incomplete, R.Initial, History, StateBefore;
    HistoryRemembers(h, n, m, ops, effects, k);
  }

  lemma {:induction false} LimitsStay(h: Hashes, n: int, m: int, ops: seq<Op>, effects: seq<Effect>, k: nat)
    requires R.Initial(n, m).Ok? && History(h, R.Initial(n, m).value, ops, effects) && k <= |ops|
    ensures var s := StateBefore(R.Initial(n, m).value, effects, k);
            s.maximumBufferedBundles == n && s.maximumBufferedBytes == m
  {
    if k > 0 {
      LimitsStay(h, n, m, ops, effects, k - 1);
      var s := StateBefore(R.Initial(n, m).value, effects, k - 1);
      assert effects[k - 1] == Apply(h, s, ops[k - 1]);
      StepKeepsLimits(h, s, ops[k - 1]);
    }
  }

  predicate SameLimits(s: R.State, t: R.State) {
    t.maximumBufferedBundles == s.maximumBufferedBundles && t.maximumBufferedBytes == s.maximumBufferedBytes
  }

  lemma DiscardKeepsLimits(s: R.State, key: Id)
    ensures SameLimits(s, R.DiscardPendingBundle(s, key))
  {
    hide R.BundleBytes, Without;
  }

  lemma FinishKeepsLimits(h: Hashes, s: R.State, f: Fragment)
    requires f.bundleID in s.pending
    ensures SameLimits(s, R.Finish(h, s, f).state)
  {
    hide R.Assemble, R.BundleBytes, Without, R.DiscardPendingBundle;
    DiscardKeepsLimits(s, f.bundleID);
  }

  lemma FragmentKeepsLimits(h: Hashes, s: R.State, f: Fragment, digest: Id)
    ensures SameLimits(s, R.ConsumeFragment(h, s, f, digest).state)
  {
    hide R.Finish;
    FinishKeepsLimits(h, R.Admit(s, f, digest), f);
  }

  lemma StepKeepsLimits(h: Hashes, s: R.State, op: Op)
    ensures SameLimits(s, Apply(h, s, op).state)
  {
    hide R.ConsumeFragment, R.DiscardPendingBundle, OpenValidated, ValidPacket;
    match op
    case ConsumeOp(packet, key, revision) =>
      if OpenValidated(packet, key, revision).Ok? {
        FragmentKeepsLimits(h, s, OpenValidated(packet, key, revision).value, packet.authorization.operationDigest);
      }
    case DiscardOldestOp =>
      if s.pendingOrder != [] {
        DiscardKeepsLimits(s, s.pendingOrder[0]);
      }
    case DiscardOneOp(b) => DiscardKeepsLimits(s, b);
    case DiscardAllOp =>
  }

  /**
   * Memory is accounted for and bounded, always: the byte count is the sum over
   * the pending bundles and within its limit, the packets on record are exactly
   * those of pending bundles, both order lists name exactly the keys of their
   * maps once each, no bundle is both pending and finished, at most 1024 are
   * remembered, and every pending bundle still misses a fragment.
   */
  lemma {:induction false} StateStaysConsistent(h: Hashes, n: int, m: int, ops: seq<Op>, effects: seq<Effect>, k: nat)
    requires R.Initial(n, m).Ok? && History(h, R.Initial(n, m).value, ops, effects) && k <= |ops|
    requires forall i :: 0 <= i < |ops| ==> Callable(ops[i])
    ensures var s := StateBefore(R.Initial(n, m).value, effects, k);
            && s.bufferedBytes == R.TotalBytes(s.pending, s.pendingOrder) <= m && |s.pending| <= n
            && s.packetDigests.Keys == R.PacketIDs(s.pending)
            && R.Lists(s.pendingOrder, s.pending.Keys) && R.Lists(s.completedOrder, s.completed.Keys)
            && s.pending.Keys !! s.completed.Keys && |s.completedOrder| <= R.MAXIMUM_TOMBSTONES
            && forall b :: b in s.pending ==> |s.pending[b].fragments| < s.pending[b].fragmentCount
  {
    hide R.Initial, R.WellFormed, R.Lists, R.TotalBytes, History, StateBefore, R.TerminalsFit;
    StateIsValid(h, n, m, ops, effects, k);
    LimitsStay(h, n, m, ops, effects, k);
  }

  /** An operation that answers with an error other than a digest mismatch, or with a duplicate, changed nothing. */
  lemma {:induction false} RefusalsChangeNothing(h: Hashes, n: int, m: int, ops: seq<Op>, effects: seq<Effect>, k: nat)
    requires R.Initial(n, m).Ok? && History(h, R.Initial(n, m).value, ops, effects) && k < |ops|
    requires effects[k].answer.Some?
    requires effects[k].answer.value.Duplicate?
             || (effects[k].answer.value.Failed? && effects[k].answer.value.error != BundleDigestMismatch)
    ensures effects[k].state == StateBefore(R.Initial(n, m).value, effects, k)
  {
    hide R.Initial, R.Consume;
    var s := StateBefore(R.Initial(n, m).value, effects, k);
    assert effects[k] == Apply(h, s, ops[k]);
    if ops[k].ConsumeOp? {
      R.RejectionLeavesState(h, s, ops[k].packet, ops[k].payloadKey, ops[k].routeRevision);
    }
  }

  // ---- A bundle that misses nothing ----

  ghost predicate HoldsFull(s: R.State, b: Id, p: R.Pending) {
    b in s.pending && s.pending[b] == p && forall i :: 0 <= i < p.fragmentCount ==> i in p.fragments
  }

  /** The operation does not discard the bundle. */
  predicate Spares(s: R.State, op: Op, b: Id) {
    match op
    case ConsumeOp(_, _, _) => true
    case DiscardOldestOp => s.pendingOrder == [] || s.pendingOrder[0] != b
    case DiscardOneOp(c) => c != b
    case DiscardAllOp => false
  }

  lemma DiscardSpares(s: R.State, c: Id, b: Id, p: R.Pending)
    requires HoldsFull(s, b, p) && c != b
    ensures HoldsFull(R.DiscardPendingBundle(s, c), b, p)
  {
    hide R.BundleBytes, Without;
  }

  lemma FinishSpares(h: Hashes, s: R.State, f: Fragment, b: Id, p: R.Pending)
    requires HoldsFull(s, b, p) && f.bundleID in s.pending && f.bundleID != b
    ensures HoldsFull(R.Finish(h, s, f).state, b, p)
    ensures R.Finish(h, s, f).outcome.Complete? ==> R.Finish(h, s, f).outcome.bundle.bundleID != b
  {
    hide R.BundleBytes, R.Assemble, Without, R.DiscardPendingBundle;
    DiscardSpares(s, f.bundleID, b, p);
  }

  predicate Unwelcome(o: R.Outcome) {
    o.Duplicate? || o == R.Failed(BundleConflict) || o == R.Failed(FragmentConflict)
  }

  lemma FragmentSpares(h: Hashes, s: R.State, f: Fragment, digest: Id, b: Id, p: R.Pending)
    requires HoldsFull(s, b, p) && ValidBucket(f.paddingBucket) && ValidFragment(f)
    ensures var step := R.ConsumeFragment(h, s, f, digest);
            && HoldsFull(step.state, b, p)
            && (f.bundleID == b ==> step.state == s && Unwelcome(step.outcome))
            && (step.outcome.Complete? ==> step.outcome.bundle.bundleID != b)
  {
    hide R.Finish;
    if f.bundleID != b {
      FinishSpares(h, R.Admit(s, f, digest), f, b, p);
    }
  }

  lemma StepSpares(h: Hashes, s: R.State, op: Op, b: Id, p: R.Pending)
    requires HoldsFull(s, b, p) && Spares(s, op, b)
    ensures HoldsFull(Apply(h, s, op).state, b, p) && !Completes(Apply(h, s, op), b)
  {
    hide R.ConsumeFragment, R.DiscardPendingBundle, OpenValidated, ValidPacket;
    match op
    case ConsumeOp(packet, key, revision) =>
      if ValidPacket(h, packet) && OpenValidated(packet, key, revision).Ok? {
        R.OpenedFragment(h, packet, key, revision);
        FragmentSpares(h, s, OpenValidated(packet, key, revision).value, packet.authorization.operationDigest, b, p);
      }
    case DiscardOldestOp =>
      if s.pendingOrder != [] {
        DiscardSpares(s, s.pendingOrder[0], b, p);
      }
    case DiscardOneOp(c) => DiscardSpares(s, c, b, p);
    case DiscardAllOp =>
  }

  predicate Completes(e: Effect, b: Id) {
    e.answer.Some? && e.answer.value.Complete? && e.answer.value.bundle.bundleID == b
  }

  lemma {:induction false} FullStays(h: Hashes, start: R.State, ops: seq<Op>, effects: seq<Effect>, b: Id, p: R.Pending,
                                     k: nat)
    requires HoldsFull(start, b, p) && History(h, start, ops, effects) && k <= |ops|
    requires forall i :: 0 <= i < k ==> Spares(StateBefore(start, effects, i), ops[i], b)
    ensures HoldsFull(StateBefore(start, effects, k), b, p)
  {
    hide HoldsFull, Apply, Spares;
    if k > 0 {
      FullStays(h, start, ops, effects, b, p, k - 1);
      var s := StateBefore(start, effects, k - 1);
      assert effects[k - 1] == Apply(h, s, ops[k - 1]);
      StepSpares(h, s, ops[k - 1], b, p);
    }
  }

  /** Every fragment of a well-formed bundle that holds as many as it counts is there. */
  lemma CountedIsFull(s: R.State, b: Id)
    requires R.Valid(s) && b in s.pending && |s.pending[b].fragments| == s.pending[b].fragmentCount
    ensures HoldsFull(s, b, s.pending[b])
  {
    hide R.TotalBytes, R.Lists, R.PacketsDisjoint, R.TerminalsFit;
    var p := s.pending[b];
    assert R.WellFormed(p, s.maximumBufferedBytes);
    R.AssembledLength(p, s.maximumBufferedBytes);
  }

  /**
   * A snapshot's full bundle is lost: whatever packets come after it is
   * restored, the bundle is never completed, and stays as it is until an
   * operation discards it. Its own packets are repeats or conflicts.
   */
  lemma {:induction false} FullBundleNeverCompletes(h: Hashes, v: S.Snapshot, expected: Option<Id>, i: nat,
                                                    ops: seq<Op>,
                                                    effects: seq<Effect>, k: nat)
    requires S.Accepts(v, expected) && i < |v.pendingBundles|
    requires |v.pendingBundles[i].fragments| == v.pendingBundles[i].fragmentCount
    requires History(h, S.Restored(v, expected), ops, effects) && k < |ops|
    requires forall j :: 0 <= j <= k ==>
               Spares(StateBefore(S.Restored(v, expected), effects, j), ops[j], v.pendingBundles[i].bundleID)
    ensures var start, b := S.Restored(v, expected), v.pendingBundles[i].bundleID;
            && b in start.pending && b in effects[k].state.pending && effects[k].state.pending[b] == start.pending[b]
            && !Completes(effects[k], b)
            && (OpensFor(h, ops[k], b) ==>
                  effects[k].answer.Some? && (Unwelcome(effects[k].answer.value)
                                              || effects[k].answer == Some(R.Failed(PacketIdentifierConflict))))
  {
    hide S.Accepts, S.Restored, Apply, Spares, R.Valid;
    var start, b := S.Restored(v, expected), v.pendingBundles[i].bundleID;
    S.RestoredIsValid(v, expected);
    S.RestoredMissesExactly(v, expected);
    CountedIsFull(start, b);
    FullStays(h, start, ops, effects, b, start.pending[b], k);
    EffectAt(h, start, ops, effects, k);
    StepSpares(h, StateBefore(start, effects, k), ops[k], b, start.pending[b]);
    if OpensFor(h, ops[k], b) {
      OwnPacketIsUnwelcome(h, StateBefore(start, effects, k), ops[k], b, start.pending[b]);
    }
  }

  lemma EffectAt(h: Hashes, start: R.State, ops: seq<Op>, effects: seq<Effect>, k: nat)
    requires History(h, start, ops, effects) && k < |ops|
    ensures effects[k] == Apply(h, StateBefore(start, effects, k), ops[k])
  {
    assert ops[k] == ops[k];
  }

  /** The operation is about a packet that opens to a fragment of the bundle. */
  predicate OpensFor(h: Hashes, op: Op, b: Id) {
    && op.ConsumeOp? && ValidPacket(h, op.packet)
    && var r := OpenValidated(op.packet, op.payloadKey, op.routeRevision);
       r.Ok? && r.value.bundleID == b
  }

  lemma OwnPacketIsUnwelcome(h: Hashes, s: R.State, op: Op, b: Id, p: R.Pending)
    requires HoldsFull(s, b, p) && OpensFor(h, op, b)
    ensures var a := Apply(h, s, op).answer;
            a.Some? && (Unwelcome(a.value) || a == Some(R.Failed(PacketIdentifierConflict)))
  {
    hide R.ConsumeFragment, OpenValidated, ValidPacket;
    R.OpenedFragment(h, op.packet, op.payloadKey, op.routeRevision);
    FragmentSpares(h, s, OpenValidated(op.packet, op.payloadKey, op.routeRevision).value,
                   op.packet.authorization.operationDigest, b, p);
  }

  /**
   * The state can be saved at any point, the saved form is accepted again, and
   * what is restored from it is the same state: it gives the same answers ever
   * after.
   */
  lemma {:induction false} SavingIsLossless(h: Hashes, n: int, m: int, ops: seq<Op>, effects: seq<Effect>, k: nat)
    requires R.Initial(n, m).Ok? && History(h, R.Initial(n, m).value, ops, effects) && k <= |ops|
    requires forall i :: 0 <= i < |ops| ==> Callable(ops[i])
    ensures var s := StateBefore(R.Initial(n, m).value, effects, k);
            S.Saveable(s) && S.Accepts(S.SnapshotOf(s), None) && S.Restored(S.SnapshotOf(s), None) == s
  {
    hide R.Valid, R.Incomplete, R.Initial, S.Saveable, S.Accepts, S.SnapshotOf, S.Restored, StateBefore;
    StateIsValid(h, n, m, ops, effects, k);
    S.RestoreUndoesSnapshot(StateBefore(R.Initial(n, m).value, effects, k), None);
  }
}
