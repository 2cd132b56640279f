/**
 * Every answer of the reassembler (src/opaque-route-packet-v2.js) to arbitrary
 * packets, read off the run alone: which fragments it accepted and has not
 * given up since, and which bundles it retired last.
 */
module ReassemblyHistory {
  import opened Wrappers
  import opened Bytes
  import opened Collections
  import opened PacketFrame
  import opened PacketSealing
  import opened ReplayHorizon
  import opened ReassemblerRuns
  import R = Reassembly

  /** An accepted fragment, with the operation digest of its packet. */
  datatype Fact = Fact(fragment: Fragment, digest: Id)

  /** What a bundle was when it was retired. */
  datatype Mark = Mark(bundleID: Id, routeID: Id, routeRevision: nat, bundleDigest: Id)

  function MarkOf(f: Fragment): Mark {
    Mark(f.bundleID, f.routeID, f.routeRevision, f.bundleDigest)
  }

  function Opened(op: Op): Option<Fragment> {
    match op
    case ConsumeOp(packet, key, revision) =>
      (match OpenValidated(packet, key, revision) case Ok(f) => Some(f) case Err(_) => None)
    case _ => None
  }

  // ---- The run's own record ----

  /** Fragments accepted so far, of bundles not retired or dropped since. */
  ghost function Held(ops: seq<Op>, effects: seq<Effect>, k: nat): set<Fact>
    requires k <= |ops| == |effects|
  {
    if k == 0 then {}
    else
      var before, op, e := Held(ops, effects, k - 1), ops[k - 1], effects[k - 1];
      if op.DiscardAllOp? then {}
      else if e.retired.Some? then Others(before, e.retired.value)
      else if e.answer == Some(R.Accepted) && Opened(op).Some? then
        before + {Fact(Opened(op).value, op.packet.authorization.operationDigest)}
      else before
  }

  /** What each retired bundle was, by the fragments that made it up when it was retired last. */
  ghost function Marks(ops: seq<Op>, effects: seq<Effect>, k: nat): set<Mark>
    requires k <= |ops| == |effects|
  {
    if k == 0 then {}
    else
      var before, op, e := Marks(ops, effects, k - 1), ops[k - 1], effects[k - 1];
      if e.retired.None? then before
      else
        var b := e.retired.value;
        (set x | x in before && x.bundleID != b)
        + (set x | x in Held(ops, effects, k - 1) && x.fragment.bundleID == b :: MarkOf(x.fragment))
        + if Opened(op).Some? then {MarkOf(Opened(op).value)} else {}
  }

  // ---- The state agrees with it ----

  ghost predicate SameKind(a: Fragment, f: Fragment) {
    && a.bundleID == f.bundleID && a.routeID == f.routeID && a.routeRevision == f.routeRevision
    && a.paddingBucket == f.paddingBucket && a.bundleDigest == f.bundleDigest && a.fragmentCount == f.fragmentCount
    && a.totalPayloadBytes == f.totalPayloadBytes
  }

  ghost predicate HoldsFact(s: R.State, x: Fact) {
    var f := x.fragment;
    && f.bundleID in s.pending && R.SameBundle(s.pending[f.bundleID], f)
    && f.fragmentIndex in s.pending[f.bundleID].fragments
    && s.pending[f.bundleID].fragments[f.fragmentIndex] == f.payload
    && f.packetID in s.pending[f.bundleID].packetIDs
    && f.packetID in s.packetDigests && s.packetDigests[f.packetID] == x.digest
  }

  ghost predicate HasFragment(held: set<Fact>, b: Id, i: nat) {
    exists x :: x in held && x.fragment.bundleID == b && x.fragment.fragmentIndex == i
  }

  ghost predicate HasPacket(held: set<Fact>, id: Id) {
    exists x :: x in held && x.fragment.packetID == id
  }

  /** The six fields hold the fragments on record, and nothing else. */
  ghost predicate Matches(s: R.State, held: set<Fact>) {
    && (forall x :: x in held ==> HoldsFact(s, x))
    && (forall b, i :: b in s.pending && i in s.pending[b].fragments ==> HasFragment(held, b, i))
    && (forall id :: id in s.packetDigests ==> HasPacket(held, id))
  }

  ghost predicate MarksFit(s: R.State, marks: set<Mark>) {
    forall b :: b in s.completed ==>
      var t := s.completed[b];
      Mark(b, t.routeID, t.routeRevision, t.bundleDigest) in marks
      && forall x :: x in marks && x.bundleID == b ==> x == Mark(b, t.routeID, t.routeRevision, t.bundleDigest)
  }

  // ---- Accepting and retiring ----

  /** A new fragment of its packet can be stored: its bundle is new or the same, and misses it. */
  ghost predicate Fits(s: R.State, f: Fragment) {
    && f.packetID !in s.packetDigests
    && (f.bundleID in s.pending ==>
          R.SameBundle(s.pending[f.bundleID], f) && f.fragmentIndex !in s.pending[f.bundleID].fragments)
  }

  lemma AdmittedHolds(s: R.State, f: Fragment, digest: Id, x: Fact)
    requires Fits(s, f) && (HoldsFact(s, x) || x == Fact(f, digest))
    ensures HoldsFact(R.Admit(s, f, digest), x)
  {
  }

  lemma FactAdded(held: set<Fact>, y: Fact)
    ensures forall b, i :: HasFragment(held, b, i) ==> HasFragment(held + {y}, b, i)
    ensures forall id :: HasPacket(held, id) ==> HasPacket(held + {y}, id)
    ensures HasFragment(held + {y}, y.fragment.bundleID, y.fragment.fragmentIndex)
    ensures HasPacket(held + {y}, y.fragment.packetID)
  {
    assert y in held + {y};
    forall b, i | HasFragment(held, b, i) ensures HasFragment(held + {y}, b, i) {
      var x :| x in held && x.fragment.bundleID == b && x.fragment.fragmentIndex == i;
      assert x in held + {y};
    }
    forall id | HasPacket(held, id) ensures HasPacket(held + {y}, id) {
      var x :| x in held && x.fragment.packetID == id;
      assert x in held + {y};
    }
  }

  lemma AdmitMatches(s: R.State, held: set<Fact>, f: Fragment, digest: Id)
    requires Matches(s, held) && Fits(s, f)
    ensures Matches(R.Admit(s, f, digest), held + {Fact(f, digest)})
  {
    hide HoldsFact, HasFragment, HasPacket;
    var t, after := R.Admit(s, f, digest), held + {Fact(f, digest)};
    FactAdded(held, Fact(f, digest));
    forall x | x in after ensures HoldsFact(t, x) {
      AdmittedHolds(s, f, digest, x);
    }
    forall b, i | b in t.pending && i in t.pending[b].fragments ensures HasFragment(after, b, i) {
      assert (b == f.bundleID && i == f.fragmentIndex) || (b in s.pending && i in s.pending[b].fragments);
    }
  }

  /** The bundle and the packets on record for it are gone, everything else stays. */
  ghost predicate Gone(s: R.State, t: R.State, b: Id) {
    && b in s.pending && t.pending == s.pending - {b} && t.packetDigests == s.packetDigests - s.pending[b].packetIDs
  }

  function Others(held: set<Fact>, b: Id): set<Fact> {
    set x | x in held && x.fragment.bundleID != b
  }

  lemma OtherHolds(s: R.State, t: R.State, b: Id, x: Fact)
    requires HoldsFact(s, x) && R.PacketsDisjoint(s.pending, s.packetDigests) && Gone(s, t, b)
    requires x.fragment.bundleID != b
    ensures HoldsFact(t, x)
  {
    hide R.PacketIDs;
    assert s.pending[x.fragment.bundleID].packetIDs !! s.pending[b].packetIDs;
  }

  lemma OtherFragment(held: set<Fact>, b: Id, c: Id, i: nat)
    requires HasFragment(held, c, i) && c != b
    ensures HasFragment(Others(held, b), c, i)
  {
    var x :| x in held && x.fragment.bundleID == c && x.fragment.fragmentIndex == i;
    assert x in Others(held, b);
  }

  lemma OtherPacket(s: R.State, held: set<Fact>, b: Id, id: Id)
    requires HasPacket(held, id) && (forall x :: x in held ==> HoldsFact(s, x))
    requires b in s.pending && id !in s.pending[b].packetIDs
    ensures HasPacket(Others(held, b), id)
  {
    var x :| x in held && x.fragment.packetID == id;
    assert HoldsFact(s, x);
    assert x in Others(held, b);
  }

  lemma RemoveMatches(s: R.State, t: R.State, held: set<Fact>, b: Id)
    requires Matches(s, held) && R.PacketsDisjoint(s.pending, s.packetDigests) && Gone(s, t, b)
    ensures Matches(t, Others(held, b))
  {
    hide HoldsFact, HasFragment, HasPacket, R.PacketsDisjoint;
    forall x | x in Others(held, b) ensures HoldsFact(t, x) {
      OtherHolds(s, t, b, x);
    }
    forall c, i | c in t.pending && i in t.pending[c].fragments ensures HasFragment(Others(held, b), c, i) {
      OtherFragment(held, b, c, i);
    }
    forall id | id in t.packetDigests ensures HasPacket(Others(held, b), id) {
      OtherPacket(s, held, b, id);
    }
  }

  // ---- Fields after each operation ----

  lemma RemovedFields(s: R.State, b: Id, t: R.Terminal)
    requires b in s.pending && b !in s.completed
    ensures var u := R.RememberTerminal(R.RemovePending(s, b), b, t);
            && Gone(s, u, b)
            && (forall c :: c in u.completed ==> u.completed[c] == if c == b then t else s.completed[c])
            && (forall c :: c in u.completed ==> c == b || c in s.completed)
  {
    hide R.BundleBytes, Without;
  }

  lemma DiscardFields(s: R.State, b: Id)
    requires b in s.pending && b !in s.completed
    ensures var u, p := R.DiscardPendingBundle(s, b), s.pending[b];
            && Gone(s, u, b)
            && (forall c :: c in u.completed ==>
                  (c == b || c in s.completed)
                  && u.completed[c] == if c == b then R.Terminal(p.routeID, p.routeRevision, p.bundleDigest)
                                       else s.completed[c])
  {
    hide R.RemovePending, R.RememberTerminal;
    var p := s.pending[b];
    RemovedFields(s, b, R.Terminal(p.routeID, p.routeRevision, p.bundleDigest));
  }

  /** What consuming an admissible fragment does: it stays pending, or fills its bundle, which is retired. */
  lemma FinishFields(h: Hashes, s: R.State, f: Fragment)
    requires f.bundleID in s.pending && f.bundleID !in s.completed && R.SameBundle(s.pending[f.bundleID], f)
    ensures var step, p := R.Finish(h, s, f), s.pending[f.bundleID];
            var payload := R.Assemble(p.fragments, p.fragmentCount);
            if |p.fragments| != p.fragmentCount then step == R.Step(s, R.Accepted)
            else
              && Gone(s, step.state, f.bundleID)
              && step.outcome == (if h.bundle(f.bundleID, payload) == f.bundleDigest
                                  then R.Complete(R.Bundle(f.routeID, f.routeRevision, f.bundleID, f.bundleDigest,
                                                           payload))
                                  else R.Failed(BundleDigestMismatch))
              && forall c :: c in step.state.completed ==>
                   (c == f.bundleID || c in s.completed)
                   && step.state.completed[c]
                      == if c == f.bundleID then R.Terminal(f.routeID, f.routeRevision, f.bundleDigest)
                         else s.completed[c]
  {
    hide R.Assemble, R.RemovePending, R.RememberTerminal, R.DiscardPendingBundle;
    DiscardFields(s, f.bundleID);
    RemovedFields(s, f.bundleID, R.Terminal(f.routeID, s.pending[f.bundleID].routeRevision,
                                            s.pending[f.bundleID].bundleDigest));
  }

  lemma MarksStay(s: R.State, t: R.State, marks: set<Mark>)
    requires MarksFit(s, marks) && t.completed == s.completed
    ensures MarksFit(t, marks)
  {
  }

  lemma MarksMove(s: R.State, t: R.State, before: set<Mark>, after: set<Mark>, b: Id, m: Mark)
    requires MarksFit(s, before) && m.bundleID == b
    requires forall c :: c in t.completed ==>
               (c == b || c in s.completed)
               && t.completed[c] == if c == b then R.Terminal(m.routeID, m.routeRevision, m.bundleDigest)
                                    else s.completed[c]
    requires m in after && forall x :: x in after && x.bundleID == b ==> x == m
    requires forall x: Mark :: x.bundleID != b ==> (x in after <==> x in before)
    ensures MarksFit(t, after)
  {
  }

  // ---- Every step ----

  ghost predicate Recorded(s: R.State, ops: seq<Op>, effects: seq<Effect>, k: nat)
    requires k <= |ops| == |effects|
  {
    Matches(s, Held(ops, effects, k)) && MarksFit(s, Marks(ops, effects, k))
  }

  ghost predicate Agrees(s: R.State, ops: seq<Op>, effects: seq<Effect>, k: nat)
    requires k <= |ops| == |effects|
  {
    R.Valid(s) && R.Incomplete(s) && Recorded(s, ops, effects, k)
  }

  lemma PendingHasFact(s: R.State, held: set<Fact>, b: Id) returns (x: Fact)
    requires R.Valid(s) && Matches(s, held) && b in s.pending
    ensures x in held && x.fragment.bundleID == b && HoldsFact(s, x)
  {
    hide R.PacketsDisjoint, R.TotalBytes, R.Lists, R.TerminalsFit;
    assert R.WellFormed(s.pending[b], s.maximumBufferedBytes);
    var i :| i in s.pending[b].fragments;
    assert HasFragment(held, b, i);
    x :| x in held && x.fragment.bundleID == b && x.fragment.fragmentIndex == i;
  }

  /** Retiring a pending bundle by hand. */
  lemma DiscardAgrees(s: R.State, ops: seq<Op>, effects: seq<Effect>, k: nat, b: Id)
    requires k < |ops| == |effects| && Agrees(s, ops, effects, k) && b in s.pending
    requires !ops[k].DiscardAllOp? && Opened(ops[k]).None? && effects[k].retired == Some(b)
    requires effects[k].state == R.DiscardPendingBundle(s, b)
    ensures Recorded(effects[k].state, ops, effects, k + 1)
  {
    hide R.WellFormed, R.TotalBytes, R.Lists, R.TerminalsFit, R.DiscardPendingBundle, R.PendingFit, MarksFit, Matches;
    DiscardFields(s, b);
    RemoveMatches(s, effects[k].state, Held(ops, effects, k), b);
    var held := Held(ops, effects, k);
    var x := PendingHasFact(s, held, b);
    SameMarks(s, held, b, MarkOf(x.fragment));
    RetiredMarks(s, effects[k].state, ops, effects, k, b, MarkOf(x.fragment));
  }

  lemma SameMarks(s: R.State, held: set<Fact>, b: Id, m: Mark)
    requires Matches(s, held) && b in s.pending
    requires var p := s.pending[b]; m == Mark(b, p.routeID, p.routeRevision, p.bundleDigest)
    ensures forall x :: x in held && x.fragment.bundleID == b ==> MarkOf(x.fragment) == m
  {
    forall x | x in held && x.fragment.bundleID == b ensures MarkOf(x.fragment) == m {
      assert HoldsFact(s, x);
    }
  }

  /** Consuming a fragment that fills its bundle. */
  lemma FilledAgrees(h: Hashes, s: R.State, ops: seq<Op>, effects: seq<Effect>, k: nat, f: Fragment)
    requires k < |ops| == |effects| && Agrees(s, ops, effects, k) && ops[k].ConsumeOp? && Opened(ops[k]) == Some(f)
    requires f.bundleID !in s.completed && Fits(s, f)
    requires var t := R.Admit(s, f, ops[k].packet.authorization.operationDigest);
             && R.PacketsDisjoint(t.pending, t.packetDigests)
             && |t.pending[f.bundleID].fragments| == t.pending[f.bundleID].fragmentCount
             && effects[k].state == R.Finish(h, t, f).state
    requires effects[k].retired == Some(f.bundleID)
    ensures Recorded(effects[k].state, ops, effects, k + 1)
  {
    hide R.Valid, R.Incomplete, MarksFit, Matches, R.PacketsDisjoint, R.Finish, Fits;
    var digest, held := ops[k].packet.authorization.operationDigest, Held(ops, effects, k);
    var t := R.Admit(s, f, digest);
    AdmitMatches(s, held, f, digest);
    AdmittedSame(s, f, digest);
    FinishFields(h, t, f);
    RemoveMatches(t, effects[k].state, held + {Fact(f, digest)}, f.bundleID);
    assert Others(held + {Fact(f, digest)}, f.bundleID) == Others(held, f.bundleID);
    SameMarks(t, held + {Fact(f, digest)}, f.bundleID, MarkOf(f));
    RetiredMarks(s, effects[k].state, ops, effects, k, f.bundleID, MarkOf(f));
  }

  lemma AdmittedSame(s: R.State, f: Fragment, digest: Id)
    requires Fits(s, f)
    ensures var t := R.Admit(s, f, digest);
            f.bundleID in t.pending && R.SameBundle(t.pending[f.bundleID], f) && t.completed == s.completed
  {
  }

  /** The marks of a bundle that is retired give way to those of its last fragments. */
  lemma RetiredMarks(s: R.State, t: R.State, ops: seq<Op>, effects: seq<Effect>, k: nat, b: Id, m: Mark)
    requires k < |ops| == |effects| && MarksFit(s, Marks(ops, effects, k)) && effects[k].retired == Some(b)
    requires m.bundleID == b
    requires forall c :: c in t.completed ==>
               (c == b || c in s.completed)
               && t.completed[c] == if c == b then R.Terminal(m.routeID, m.routeRevision, m.bundleDigest)
                                    else s.completed[c]
    requires Opened(ops[k]).Some? ==> MarkOf(Opened(ops[k]).value) == m
    requires Opened(ops[k]).None? ==>
               exists x :: x in Held(ops, effects, k) && x.fragment.bundleID == b && MarkOf(x.fragment) == m
    requires forall x :: x in Held(ops, effects, k) && x.fragment.bundleID == b ==> MarkOf(x.fragment) == m
    ensures MarksFit(t, Marks(ops, effects, k + 1))
  {
    hide MarksFit, Held, Opened;
    MarksMove(s, t, Marks(ops, effects, k), Marks(ops, effects, k + 1), b, m);
  }

  lemma AcceptedAgrees(s: R.State, ops: seq<Op>, effects: seq<Effect>, k: nat, f: Fragment)
    requires k < |ops| == |effects| && Agrees(s, ops, effects, k) && ops[k].ConsumeOp? && Opened(ops[k]) == Some(f)
    requires Fits(s, f)
    requires effects[k].state == R.Admit(s, f, ops[k].packet.authorization.operationDigest)
    requires effects[k].retired.None? && effects[k].answer == Some(R.Accepted)
    ensures Recorded(effects[k].state, ops, effects, k + 1)
  {
    hide R.Valid, MarksFit, Matches;
    AdmitMatches(s, Held(ops, effects, k), f, ops[k].packet.authorization.operationDigest);
    MarksStay(s, effects[k].state, Marks(ops, effects, k));
  }

  lemma UnchangedAgrees(s: R.State, ops: seq<Op>, effects: seq<Effect>, k: nat)
    requires k < |ops| == |effects| && Agrees(s, ops, effects, k)
    requires effects[k].state == s && effects[k].retired.None? && effects[k].answer != Some(R.Accepted)
    requires !ops[k].DiscardAllOp?
    ensures Recorded(effects[k].state, ops, effects, k + 1)
  {
  }

  lemma DroppedAgrees(s: R.State, ops: seq<Op>, effects: seq<Effect>, k: nat)
    requires k < |ops| == |effects| && Agrees(s, ops, effects, k) && ops[k].DiscardAllOp?
    requires effects[k].state == R.DiscardPendingBundles(s) && effects[k].retired.None?
    ensures Recorded(effects[k].state, ops, effects, k + 1)
  {
  }

  /** The fragment passed every check before it is stored. */
  ghost predicate Stores(s: R.State, f: Fragment) {
    f.bundleID !in s.completed && Fits(s, f)
  }

  lemma ConsumedAgrees(h: Hashes, s: R.State, ops: seq<Op>, effects: seq<Effect>, k: nat, f: Fragment)
    requires k < |ops| == |effects| && Agrees(s, ops, effects, k) && ops[k].ConsumeOp? && Opened(ops[k]) == Some(f)
    requires ops[k].routeRevision <= MAX_SAFE_INTEGER && ValidPacket(h, ops[k].packet)
    requires effects[k] == Apply(h, s, ops[k]) && Stores(s, f)
    requires ops[k].packet.packetID == f.packetID
    requires effects[k].answer != Some(R.Failed(ReassemblyCapacityExceeded))
    ensures Recorded(effects[k].state, ops, effects, k + 1)
  {
    hide R.WellFormed, R.TotalBytes, R.Lists, R.TerminalsFit, R.PendingFit, R.PacketsDisjoint, MarksFit, Matches;
    hide R.Finish, OpenValidated, ValidPacket, Held, Marks;
    var digest := ops[k].packet.authorization.operationDigest;
    R.OpenedFragment(h, ops[k].packet, ops[k].payloadKey, ops[k].routeRevision);
    var t := R.Admit(s, f, digest);
    assert R.Consume(h, s, ops[k].packet, ops[k].payloadKey, ops[k].routeRevision) == R.Finish(h, t, f);
    FinishFields(h, t, f);
    if |t.pending[f.bundleID].fragments| == t.pending[f.bundleID].fragmentCount {
      AdmittedDisjoint(s, f, digest);
      FilledAgrees(h, s, ops, effects, k, f);
    } else {
      AcceptedAgrees(s, ops, effects, k, f);
    }
  }

  lemma AdmittedDisjoint(s: R.State, f: Fragment, digest: Id)
    requires R.Valid(s) && Stores(s, f)
    ensures var t := R.Admit(s, f, digest); R.PacketsDisjoint(t.pending, t.packetDigests)
  {
    hide R.WellFormed, R.TotalBytes, R.Lists, R.TerminalsFit, R.PendingFit, R.PacketsDisjoint;
    var p := if f.bundleID in s.pending then s.pending[f.bundleID] else R.NewPending(f);
    R.AdmitKeepsPackets(s.pending, s.packetDigests, f.bundleID, R.WithFragment(p, f), f.packetID, digest);
  }

  lemma RefusedUnlessStored(h: Hashes, s: R.State, packet: Packet, key: Id, revision: nat)
    requires var r := OpenValidated(packet, key, revision);
             !ValidPacket(h, packet) || packet.packetID in s.packetDigests || r.Err? || !Stores(s, r.value)
    requires var r := OpenValidated(packet, key, revision); r.Ok? ==> r.value.packetID == packet.packetID
    ensures var step := R.Consume(h, s, packet, key, revision);
            step.state == s && !step.outcome.Accepted? && !step.outcome.Complete?
            && step.outcome != R.Failed(BundleDigestMismatch)
  {
    hide R.Finish, OpenValidated, ValidPacket;
    R.RejectedToOpen(packet, key, revision);
  }

  lemma StepAgrees(h: Hashes, s: R.State, ops: seq<Op>, effects: seq<Effect>, k: nat)
    requires k < |ops| == |effects| && Agrees(s, ops, effects, k) && Callable(ops[k])
    requires effects[k] == Apply(h, s, ops[k])
    ensures Recorded(effects[k].state, ops, effects, k + 1)
  {
    hide R.WellFormed, R.TotalBytes, R.TerminalsFit, R.PendingFit, R.PacketsDisjoint, MarksFit, Matches;
    hide OpenValidated, ValidPacket, Held, Marks, R.Consume, R.DiscardPendingBundle, R.Incomplete, Stores;
    match ops[k]
    case ConsumeOp(packet, key, revision) => ConsumeAgrees(h, s, ops, effects, k);
    case DiscardOldestOp =>
      if s.pendingOrder != [] {
        assert s.pendingOrder[0] in Elements(s.pendingOrder);
        DiscardAgrees(s, ops, effects, k, s.pendingOrder[0]);
      } else {
        UnchangedAgrees(s, ops, effects, k);
      }
    case DiscardOneOp(b) =>
      if b in s.pending {
        DiscardAgrees(s, ops, effects, k, b);
      } else {
        UnknownStays(s, b);
        UnchangedAgrees(s, ops, effects, k);
      }
    case DiscardAllOp => DroppedAgrees(s, ops, effects, k);
  }

  lemma UnknownStays(s: R.State, b: Id)
    requires b !in s.pending
    ensures R.DiscardPendingBundle(s, b) == s
  {
  }

  lemma ConsumeAgrees(h: Hashes, s: R.State, ops: seq<Op>, effects: seq<Effect>, k: nat)
    requires k < |ops| == |effects| && Agrees(s, ops, effects, k) && Callable(ops[k]) && ops[k].ConsumeOp?
    requires effects[k] == Apply(h, s, ops[k])
    ensures Recorded(effects[k].state, ops, effects, k + 1)
  {
    hide R.Valid, MarksFit, Matches, OpenValidated, ValidPacket, Held, Marks, R.Consume, R.Incomplete, Stores;
    var packet, key, revision := ops[k].packet, ops[k].payloadKey, ops[k].routeRevision;
    var r := OpenValidated(packet, key, revision);
    OpenedPacket(packet, key, revision);
    if ValidPacket(h, packet) && packet.packetID !in s.packetDigests && r.Ok? && Stores(s, r.value) {
      if effects[k].answer == Some(R.Failed(ReassemblyCapacityExceeded)) {
        R.RejectionLeavesState(h, s, packet, key, revision);
        UnchangedAgrees(s, ops, effects, k);
      } else {
        ConsumedAgrees(h, s, ops, effects, k, r.value);
      }
    } else {
      RefusedUnlessStored(h, s, packet, key, revision);
      UnchangedAgrees(s, ops, effects, k);
    }
  }

  lemma OpenedPacket(packet: Packet, key: Id, revision: nat)
    ensures var r := OpenValidated(packet, key, revision); r.Ok? ==> r.value.packetID == packet.packetID
  {
  }

  lemma {:induction false} RunAgrees(h: Hashes, n: int, m: int, ops: seq<Op>, effects: seq<Effect>, k: nat)
    requires R.Initial(n, m).Ok? && History(h, R.Initial(n, m).value, ops, effects) && k <= |ops|
    requires forall i :: 0 <= i < |ops| ==> Callable(ops[i])
    ensures Agrees(StateBefore(R.Initial(n, m).value, effects, k), ops, effects, k)
  {
    hide R.Valid, R.Incomplete, R.Initial, Matches, MarksFit, Apply, Held, Marks;
    StateIsValid(h, n, m, ops, effects, k);
    if k == 0 {
      NothingAgrees(n, m, ops, effects);
    } else {
      RunAgrees(h, n, m, ops, effects, k - 1);
      EffectAt(h, R.Initial(n, m).value, ops, effects, k - 1);
      StepAgrees(h, StateBefore(R.Initial(n, m).value, effects, k - 1), ops, effects, k - 1);
    }
  }

  lemma NothingAgrees(n: int, m: int, ops: seq<Op>, effects: seq<Effect>)
    requires R.Initial(n, m).Ok? && |ops| == |effects|
    ensures Recorded(R.Initial(n, m).value, ops, effects, 0)
  {
  }

  // ---- The answer to any packet ----

  /** The payload of a full bundle: every fragment in its place. */
  ghost predicate IsPayload(held: set<Fact>, f: Fragment, payload: seq<Byte>) {
    && |payload| == f.totalPayloadBytes
    && Places(f, payload) && forall x :: x in held && x.fragment.bundleID == f.bundleID ==> Places(x.fragment, payload)
  }

  ghost predicate Places(f: Fragment, payload: seq<Byte>) {
    ValidBucket(f.paddingBucket) &&
    var at := f.fragmentIndex * Capacity(f.paddingBucket);
    at + |f.payload| <= |payload| && payload[at..at + |f.payload|] == f.payload
  }

  ghost predicate HasDigest(held: set<Fact>, id: Id, digest: Id) {
    exists x :: x in held && x.fragment.packetID == id && x.digest == digest
  }

  ghost predicate HasBundle(held: set<Fact>, b: Id) {
    exists x :: x in held && x.fragment.bundleID == b
  }

  /** Some fragment of the bundle was accepted with other data than this one states. */
  ghost predicate Contradicts(held: set<Fact>, f: Fragment) {
    exists x :: x in held && x.fragment.bundleID == f.bundleID && !SameKind(x.fragment, f)
  }

  /** With this fragment the bundle has every index. */
  ghost predicate Fills(held: set<Fact>, f: Fragment) {
    forall i :: 0 <= i < f.fragmentCount && i != f.fragmentIndex ==> HasFragment(held, f.bundleID, i)
  }

  ghost predicate NoRoom(s: R.State, held: set<Fact>, f: Fragment) {
    || s.bufferedBytes + |f.payload| > s.maximumBufferedBytes
    || (!HasBundle(held, f.bundleID)
        && (|s.pending| >= s.maximumBufferedBundles || f.totalPayloadBytes > s.maximumBufferedBytes))
  }

  /** What a fragment of a bundle not remembered as finished is answered with. */
  ghost predicate FragmentAnswer(h: Hashes, s: R.State, held: set<Fact>, f: Fragment, answer: R.Outcome) {
    if Contradicts(held, f) then answer == R.Failed(BundleConflict)
    else if HasFragment(held, f.bundleID, f.fragmentIndex) then
      answer == if exists x :: x in held && x.fragment == f.(packetID := x.fragment.packetID) then R.Duplicate
                else R.Failed(FragmentConflict)
    else if NoRoom(s, held, f) then answer == R.Failed(ReassemblyCapacityExceeded)
    else if !Fills(held, f) then answer == R.Accepted
    else
      exists payload ::
        && IsPayload(held, f, payload)
        && answer == if h.bundle(f.bundleID, payload) == f.bundleDigest
                     then R.Complete(R.Bundle(f.routeID, f.routeRevision, f.bundleID, f.bundleDigest, payload))
                     else R.Failed(BundleDigestMismatch)
  }

  lemma {:induction false} AssembleAt(fragments: map<nat, seq<Byte>>, n: nat, i: nat, size: nat)
    requires i < n && forall j: nat :: j < n ==> j in fragments && (j < n - 1 ==> |fragments[j]| == size)
    ensures |R.Assemble(fragments, n)| == (n - 1) * size + |fragments[n - 1]|
    ensures var a := R.Assemble(fragments, n);
            0 <= i * size && i * size + |fragments[i]| <= |a| && a[i * size..i * size + |fragments[i]|] == fragments[i]
  {
    var front, a := R.Assemble(fragments, n - 1), R.Assemble(fragments, n);
    assert a == front + fragments[n - 1];
    if n == 1 {
      assert front == [] && a[0..|fragments[0]|] == fragments[0];
    } else {
      AssembleAt(fragments, n - 1, if i == n - 1 then 0 else i, size);
      assert (n - 2) * size + size == (n - 1) * size;
    }
  }

  lemma PlacedFragment(s: R.State, x: Fact)
    requires R.Valid(s) && HoldsFact(s, x) && R.Valid(s)
    requires |s.pending[x.fragment.bundleID].fragments| == s.pending[x.fragment.bundleID].fragmentCount
    ensures var p := s.pending[x.fragment.bundleID]; var payload := R.Assemble(p.fragments, p.fragmentCount);
            |payload| == p.totalPayloadBytes && Places(x.fragment, payload)
  {
    hide R.PacketsDisjoint, R.TotalBytes, R.Lists, R.TerminalsFit;
    var f := x.fragment;
    var p := s.pending[f.bundleID];
    assert R.WellFormed(p, s.maximumBufferedBytes);
    R.AssembledLength(p, s.maximumBufferedBytes);
    AssembleAt(p.fragments, p.fragmentCount, f.fragmentIndex, Capacity(p.paddingBucket));
  }

  lemma HeldBundle(s: R.State, held: set<Fact>, b: Id)
    requires R.Valid(s) && Matches(s, held)
    ensures HasBundle(held, b) <==> b in s.pending
  {
    hide R.Valid;
    if b in s.pending {
      var x := PendingHasFact(s, held, b);
    }
    if HasBundle(held, b) {
      var x :| x in held && x.fragment.bundleID == b;
      assert HoldsFact(s, x);
    }
  }

  /** A contradiction with any fragment on record is one with the pending bundle. */
  lemma ContradictedBundle(s: R.State, held: set<Fact>, f: Fragment)
    requires R.Valid(s) && Matches(s, held)
    ensures Contradicts(held, f) <==> f.bundleID in s.pending && !R.SameBundle(s.pending[f.bundleID], f)
  {
    hide R.Valid;
    if f.bundleID in s.pending {
      var y := PendingHasFact(s, held, f.bundleID);
    }
    forall x | x in held && x.fragment.bundleID == f.bundleID
      ensures HoldsFact(s, x)
    {
    }
  }

  lemma HeldIndex(s: R.State, held: set<Fact>, b: Id, i: nat)
    requires Matches(s, held)
    ensures HasFragment(held, b, i) <==> b in s.pending && i in s.pending[b].fragments
  {
    if HasFragment(held, b, i) {
      var x :| x in held && x.fragment.bundleID == b && x.fragment.fragmentIndex == i;
      assert HoldsFact(s, x);
    }
  }

  /** The fragment on record under an index is the same but for its packet exactly when its payload is. */
  lemma SamePiece(s: R.State, held: set<Fact>, f: Fragment)
    requires Matches(s, held) && f.bundleID in s.pending && R.SameBundle(s.pending[f.bundleID], f)
    requires f.fragmentIndex in s.pending[f.bundleID].fragments
    ensures (exists x :: x in held && x.fragment == f.(packetID := x.fragment.packetID)) <==>
            s.pending[f.bundleID].fragments[f.fragmentIndex] == f.payload
  {
    assert HasFragment(held, f.bundleID, f.fragmentIndex);
    var y :| y in held && y.fragment.bundleID == f.bundleID && y.fragment.fragmentIndex == f.fragmentIndex;
    assert HoldsFact(s, y);
    if x :| x in held && x.fragment == f.(packetID := x.fragment.packetID) {
      assert HoldsFact(s, x);
    }
    if s.pending[f.bundleID].fragments[f.fragmentIndex] == f.payload {
      assert y.fragment == f.(packetID := y.fragment.packetID);
    }
  }

  lemma FilledExactly(s: R.State, held: set<Fact>, f: Fragment, digest: Id)
    requires R.Valid(s) && Matches(s, held) && Fits(s, f) && R.Valid(R.Admit(s, f, digest))
    ensures var p := R.Admit(s, f, digest).pending[f.bundleID];
            |p.fragments| == p.fragmentCount <==> Fills(held, f)
  {
    hide R.PacketsDisjoint, R.TotalBytes, R.Lists, R.TerminalsFit, Matches;
    var t := R.Admit(s, f, digest);
    var p := t.pending[f.bundleID];
    assert R.WellFormed(p, t.maximumBufferedBytes);
    forall i: nat ensures HasFragment(held, f.bundleID, i) || i == f.fragmentIndex <==> i in p.fragments {
      HeldIndex(s, held, f.bundleID, i);
    }
    assert |p.fragments.Keys| == |p.fragments|;
    RangeSize(p.fragmentCount);
    if |p.fragments| == p.fragmentCount {
      FullRange(p.fragments.Keys, p.fragmentCount);
    } else if Fills(held, f) {
      assert Range(p.fragmentCount) <= p.fragments.Keys;
      SubsetSize(Range(p.fragmentCount), p.fragments.Keys);
      SubsetSize(p.fragments.Keys, Range(p.fragmentCount));
    }
  }

  lemma FilledPayload(s: R.State, held: set<Fact>, f: Fragment, digest: Id)
    requires R.Valid(s) && Matches(s, held) && Fits(s, f) && R.Valid(R.Admit(s, f, digest))
    requires var p := R.Admit(s, f, digest).pending[f.bundleID]; |p.fragments| == p.fragmentCount
    ensures var p := R.Admit(s, f, digest).pending[f.bundleID];
            IsPayload(held, f, R.Assemble(p.fragments, p.fragmentCount))
  {
    hide R.Valid, Matches, Places;
    var t, after := R.Admit(s, f, digest), held + {Fact(f, digest)};
    AdmitMatches(s, held, f, digest);
    AdmittedSame(s, f, digest);
    forall x | x in after && x.fragment.bundleID == f.bundleID
      ensures Places(x.fragment, R.Assemble(t.pending[f.bundleID].fragments, t.pending[f.bundleID].fragmentCount))
              && |R.Assemble(t.pending[f.bundleID].fragments, t.pending[f.bundleID].fragmentCount)|
                 == f.totalPayloadBytes
    {
      MatchedFact(t, after, x);
      PlacedFragment(t, x);
    }
    assert Fact(f, digest) in after;
  }

  lemma MatchedFact(s: R.State, held: set<Fact>, x: Fact)
    requires Matches(s, held) && x in held
    ensures HoldsFact(s, x)
  {
  }

  lemma FragmentAnswered(h: Hashes, s: R.State, held: set<Fact>, f: Fragment, digest: Id)
    requires R.Valid(s) && Matches(s, held) && f.bundleID !in s.completed && f.packetID !in s.packetDigests
    requires ValidBucket(f.paddingBucket) && ValidFragment(f) && NonZero(f.bundleID) && NonZero(f.routeID)
             && NonZero(f.packetID) && f.routeRevision <= MAX_SAFE_INTEGER
    ensures FragmentAnswer(h, s, held, f, R.ConsumeFragment(h, s, f, digest).outcome)
  {
    hide R.Valid, Matches, R.Finish, R.Admit, Contradicts, HasFragment, HasBundle, Fills, IsPayload, R.SameBundle;
    hide ValidFragment;
    HeldBundle(s, held, f.bundleID);
    ContradictedBundle(s, held, f);
    HeldIndex(s, held, f.bundleID, f.fragmentIndex);
    if !Contradicts(held, f) {
      if f.bundleID in s.pending && f.fragmentIndex in s.pending[f.bundleID].fragments {
        SamePiece(s, held, f);
      } else if !NoRoom(s, held, f) {
        StoredAnswer(h, s, held, f, digest);
      }
    }
  }

  lemma StoredAnswer(h: Hashes, s: R.State, held: set<Fact>, f: Fragment, digest: Id)
    requires R.Valid(s) && Matches(s, held) && f.bundleID !in s.completed && Fits(s, f) && !NoRoom(s, held, f)
    requires ValidBucket(f.paddingBucket) && ValidFragment(f) && NonZero(f.bundleID) && NonZero(f.routeID)
             && NonZero(f.packetID) && f.routeRevision <= MAX_SAFE_INTEGER
    ensures var answer := R.Finish(h, R.Admit(s, f, digest), f).outcome;
            if !Fills(held, f) then answer == R.Accepted
            else
              exists payload ::
                && IsPayload(held, f, payload)
                && answer == if h.bundle(f.bundleID, payload) == f.bundleDigest
                             then R.Complete(R.Bundle(f.routeID, f.routeRevision, f.bundleID, f.bundleDigest, payload))
                             else R.Failed(BundleDigestMismatch)
  {
    hide R.Valid, Matches, R.Finish, R.Admit, Fills, IsPayload, R.SameBundle, ValidFragment, HasBundle;
    HeldBundle(s, held, f.bundleID);
    var t := R.Admit(s, f, digest);
    AdmitsValidly(s, f, digest);
    AdmittedSame(s, f, digest);
    FinishFields(h, t, f);
    FilledExactly(s, held, f, digest);
    if Fills(held, f) {
      FilledPayload(s, held, f, digest);
    }
  }

  lemma AdmitsValidly(s: R.State, f: Fragment, digest: Id)
    requires R.Valid(s) && f.bundleID !in s.completed && Fits(s, f)
    requires s.bufferedBytes + |f.payload| <= s.maximumBufferedBytes
    requires f.bundleID !in s.pending ==>
               |s.pending| < s.maximumBufferedBundles && f.totalPayloadBytes <= s.maximumBufferedBytes
    requires ValidBucket(f.paddingBucket) && ValidFragment(f) && NonZero(f.bundleID) && NonZero(f.routeID)
             && NonZero(f.packetID) && f.routeRevision <= MAX_SAFE_INTEGER
    ensures R.Valid(R.Admit(s, f, digest))
  {
    hide R.PendingFit, R.PacketsDisjoint, R.TotalBytes, R.Lists, R.TerminalsFit, ValidFragment, R.SameBundle, R.Admit;
    R.AdmitKeepsValid(s, f, digest);
  }

  /**
   * The answer to any packet whatever, at any point of any run from the
   * constructor: an invalid one is refused; one on record repeats or conflicts
   * by its operation digest; one that does not open fails as it does; a fragment
   * of a bundle among the last 1024 retired repeats or conflicts by what that
   * bundle was; any other is judged by the fragments on record alone, and what
   * completes is their payloads in order, under a digest that matches.
   */
  lemma {:induction false} AnswersByHistory(h: Hashes, n: int, m: int, ops: seq<Op>, effects: seq<Effect>, k: nat)
    requires R.Initial(n, m).Ok? && History(h, R.Initial(n, m).value, ops, effects) && k < |ops| && ops[k].ConsumeOp?
    requires forall i :: 0 <= i < |ops| ==> Callable(ops[i])
    ensures var packet, held := ops[k].packet, Held(ops, effects, k);
            var read := OpenValidated(packet, ops[k].payloadKey, ops[k].routeRevision);
            effects[k].answer.Some? && var answer := effects[k].answer.value;
            if !ValidPacket(h, packet) then answer == R.Failed(InvalidPacket)
            else if HasPacket(held, packet.packetID) then
              answer == if HasDigest(held, packet.packetID, packet.authorization.operationDigest) then R.Duplicate
                        else R.Failed(PacketIdentifierConflict)
            else if read.Err? then answer == R.Failed(read.error)
            else if read.value.bundleID in Recent(Retired(effects[..k])) then
              answer == if MarkOf(read.value) in Marks(ops, effects, k) then R.Duplicate else R.Failed(BundleConflict)
            else FragmentAnswer(h, StateBefore(R.Initial(n, m).value, effects, k), held, read.value, answer)
  {
    hide R.Valid, R.Incomplete, R.Initial, Matches, MarksFit, Held, Marks, Recent, Retired, FragmentAnswer, ValidPacket;
    hide OpenValidated, R.ConsumeFragment, HasPacket, HasDigest;
    var start := R.Initial(n, m).value;
    var s := StateBefore(start, effects, k);
    RunAgrees(h, n, m, ops, effects, k);
    EffectAt(h, start, ops, effects, k);
    HistoryRemembers(h, n, m, ops, effects, k);
    var packet := ops[k].packet;
    PacketOnRecord(s, Held(ops, effects, k), packet.packetID);
    var read := OpenValidated(packet, ops[k].payloadKey, ops[k].routeRevision);
    if ValidPacket(h, packet) && packet.packetID !in s.packetDigests && read.Ok? {
      R.OpenedFragment(h, packet, ops[k].payloadKey, ops[k].routeRevision);
      ValidIDs(h, packet);
      FinishedOnRecord(s, read.value.bundleID, Retired(effects[..k]));
      if read.value.bundleID in s.completed {
        MarkOnRecord(s, Marks(ops, effects, k), read.value);
        FinishedAnswer(h, s, read.value, packet.authorization.operationDigest);
      } else {
        FragmentAnswered(h, s, Held(ops, effects, k), read.value, packet.authorization.operationDigest);
      }
    }
  }

  lemma FinishedAnswer(h: Hashes, s: R.State, f: Fragment, digest: Id)
    requires f.bundleID in s.completed
    ensures R.ConsumeFragment(h, s, f, digest).outcome
         == if s.completed[f.bundleID] == R.Terminal(f.routeID, f.routeRevision, f.bundleDigest) then R.Duplicate
            else R.Failed(BundleConflict)
  {
  }

  lemma ValidIDs(h: Hashes, packet: Packet)
    requires ValidPacket(h, packet)
    ensures NonZero(packet.routeID) && NonZero(packet.packetID)
  {
  }

  lemma PacketOnRecord(s: R.State, held: set<Fact>, id: Id)
    requires Matches(s, held)
    ensures HasPacket(held, id) <==> id in s.packetDigests
    ensures forall digest :: HasDigest(held, id, digest) <==>
                               id in s.packetDigests && s.packetDigests[id] == digest
  {
    forall x | x in held ensures HoldsFact(s, x) {
    }
    if id in s.packetDigests {
      assert HasPacket(held, id);
      var x :| x in held && x.fragment.packetID == id;
    }
  }

  lemma FinishedOnRecord(s: R.State, b: Id, log: seq<Id>)
    requires Remembers(s, log)
    ensures b in s.completed <==> b in Recent(log)
  {
    hide R.PendingFit, R.PacketsDisjoint, R.TotalBytes, R.TerminalsFit, R.Incomplete, Separated, Recent;
    assert b in Elements(s.completedOrder) <==> b in s.completedOrder;
  }

  lemma MarkOnRecord(s: R.State, marks: set<Mark>, f: Fragment)
    requires MarksFit(s, marks) && f.bundleID in s.completed
    ensures MarkOf(f) in marks <==> s.completed[f.bundleID] == R.Terminal(f.routeID, f.routeRevision, f.bundleDigest)
  {
  }

  /** Whatever completes, in any run, has the digest it states. */
  lemma {:induction false} CompletedIsVerified(h: Hashes, n: int, m: int, ops: seq<Op>, effects: seq<Effect>, k: nat,
                                               bundle: R.Bundle)
    requires R.Initial(n, m).Ok? && History(h, R.Initial(n, m).value, ops, effects) && k < |ops|
    requires forall i :: 0 <= i < |ops| ==> Callable(ops[i])
    requires effects[k].answer == Some(R.Complete(bundle))
    ensures h.bundle(bundle.bundleID, bundle.payload) == bundle.bundleDigest
    ensures ops[k].ConsumeOp?
    ensures var read := OpenValidated(ops[k].packet, ops[k].payloadKey, ops[k].routeRevision);
            read.Ok? && bundle.bundleID == read.value.bundleID
            && IsPayload(Held(ops, effects, k), read.value, bundle.payload)
  {
    hide R.Valid, R.Initial, Held, Marks, Recent, Retired, ValidPacket, OpenValidated, R.Consume, IsPayload;
    EffectAt(h, R.Initial(n, m).value, ops, effects, k);
    AnswersByHistory(h, n, m, ops, effects, k);
  }
}
