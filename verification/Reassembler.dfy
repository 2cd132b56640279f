/**
 * The reassembler object (src/opaque-route-packet-v2.js): six fields updated in
 * place, each method tied to the function of module Reassembly it carries out.
 */
module Reassembler {
  import opened Wrappers
  import opened Bytes
  import opened Collections
  import opened PacketFrame
  import opened PacketSealing
  import R = Reassembly
  import S = Snapshots

  function IndexOf(order: seq<Id>, key: Id): (i: int)
    ensures i == -1 ==> key !in order
    ensures i != -1 ==> 0 <= i < |order| && order[i] == key && key !in order[..i]
  {
    if order == [] then -1
    else if order[0] == key then 0
    else
      var rest := IndexOf(order[1..], key);
      assert rest != -1 ==> order[..rest + 1] == [order[0]] + order[1..][..rest];
      if rest == -1 then -1 else rest + 1
  }

  class OpaqueRoutePacketReassembler {
    const maximumBufferedBundles: nat
    const maximumBufferedBytes: nat
    var pending: map<Id, R.Pending>
    var pendingOrder: seq<Id>
    var packetDigests: map<Id, Id>
    var completed: map<Id, R.Terminal>
    var completedOrder: seq<Id>
    var bufferedBytes: int

    ghost function Abstract(): R.State
      reads this
    {
      R.State(maximumBufferedBundles, maximumBufferedBytes, pending, pendingOrder, packetDigests, completed,
              completedOrder, bufferedBytes)
    }

    ghost predicate Consistent()
      reads this
    {
      R.Valid(Abstract())
    }

    ghost predicate Incomplete()
      reads this
    {
      R.Incomplete(Abstract())
    }

    constructor (maximumBufferedBundles: nat, maximumBufferedBytes: nat)
      ensures this.maximumBufferedBundles == maximumBufferedBundles && this.maximumBufferedBytes == maximumBufferedBytes
      ensures Abstract() == R.State(maximumBufferedBundles, maximumBufferedBytes, map[], [], map[], map[], [], 0)
    {
      this.maximumBufferedBundles := maximumBufferedBundles;
      this.maximumBufferedBytes := maximumBufferedBytes;
      pending := map[];
      pendingOrder := [];
      packetDigests := map[];
      completed := map[];
      completedOrder := [];
      bufferedBytes := 0;
    }

    /** The checked construction: capacities outside their range are refused. */
    static method Create(maximumBufferedBundles: int, maximumBufferedBytes: int)
      returns (r: Result<OpaqueRoutePacketReassembler, PacketError>)
      ensures r.Ok? <==> R.Initial(maximumBufferedBundles, maximumBufferedBytes).Ok?
      ensures r.Err? ==> r.error == ReassemblyCapacityExceeded
      ensures r.Ok? ==> fresh(r.value) && r.value.Consistent() && r.value.Incomplete()
      ensures r.Ok? ==> r.value.Abstract() == R.Initial(maximumBufferedBundles, maximumBufferedBytes).value
    {
      if maximumBufferedBundles <= 0 || maximumBufferedBundles > 256 || maximumBufferedBytes <= 0
         || maximumBufferedBytes > MAXIMUM_BUNDLE_BYTES {
        return Err(ReassemblyCapacityExceeded);
      }
      var created := new OpaqueRoutePacketReassembler(maximumBufferedBundles, maximumBufferedBytes);
      return Ok(created);
    }

    // ---- Persistence ----

    method LoadFragments(b: S.SavedBundle) returns (loaded: Option<map<nat, seq<Byte>>>)
      requires S.BundleFits(b) && bufferedBytes >= 0
      modifies `bufferedBytes
      ensures loaded.Some? <==> S.FragmentsLoad(b, |b.fragments|, old(bufferedBytes), maximumBufferedBytes)
      ensures loaded.Some? ==> loaded.value == S.FragmentMap(b.fragments)
      ensures loaded.Some? ==> bufferedBytes == old(bufferedBytes) + S.FragmentBytes(b.fragments)
    {
      hide S.BundleFits;
      var fragments: map<nat, seq<Byte>> := map[];
      for n := 0 to |b.fragments|
        invariant S.FragmentsLoad(b, n, old(bufferedBytes), maximumBufferedBytes)
        invariant fragments == S.FragmentMap(b.fragments[..n])
        invariant bufferedBytes == old(bufferedBytes) + S.FragmentBytes(b.fragments[..n])
      {
        assert b.fragments[..n + 1][..n] == b.fragments[..n];
        var persisted := b.fragments[n];
        var total := bufferedBytes + |persisted.payload|;
        if !S.FragmentFits(b, persisted) || persisted.index in fragments || total > maximumBufferedBytes {
          assert !S.FragmentsLoad(b, n + 1, old(bufferedBytes), maximumBufferedBytes);
          if S.FragmentsLoad(b, |b.fragments|, old(bufferedBytes), maximumBufferedBytes) {
            S.FragmentsLoadPrefix(b, n + 1, |b.fragments|, old(bufferedBytes), maximumBufferedBytes);
          }
          return None;
        }
        fragments := fragments[persisted.index := persisted.payload];
        bufferedBytes := total;
      }
      assert b.fragments[..|b.fragments|] == b.fragments;
      return Some(fragments);
    }

    static method LoadPacketIDs(b: S.SavedBundle, earlier: set<Id>) returns (loaded: Option<set<Id>>)
      ensures loaded.Some? <==> S.PacketsLoad(b, |b.packetIDs|, earlier)
      ensures loaded.Some? ==> loaded.value == set id | id in b.packetIDs
    {
      var packetIDs := {};
      for n := 0 to |b.packetIDs|
        invariant S.PacketsLoad(b, n, earlier)
        invariant packetIDs == set id | id in b.packetIDs[..n]
      {
        var id := b.packetIDs[n];
        if !NonZero(id) || id in packetIDs || id in earlier {
          assert !S.PacketsLoad(b, n + 1, earlier);
          if S.PacketsLoad(b, |b.packetIDs|, earlier) {
            S.PacketsLoadPrefix(b, n + 1, |b.packetIDs|, earlier);
          }
          return None;
        }
        packetIDs := packetIDs + {id};
        assert b.packetIDs[..n + 1] == b.packetIDs[..n] + [id];
      }
      assert b.packetIDs[..|b.packetIDs|] == b.packetIDs;
      return Some(packetIDs);
    }

    /** One persisted bundle: fields, fragments, packet identifiers, then its place in the order. */
    method LoadBundle(b: S.SavedBundle, expected: Option<Id>, earlier: set<Id>) returns (loaded: Option<set<Id>>)
      requires bufferedBytes >= 0 && (b.bundleID in pending <==> b.bundleID in pendingOrder)
      modifies `bufferedBytes, `pending, `pendingOrder
      ensures loaded.Some?
         <==> S.BundleLoads(b, expected, old(bufferedBytes), earlier, maximumBufferedBytes)
              && b.bundleID !in old(pendingOrder)
      ensures loaded.Some? ==> S.BundleFits(b) && loaded.value == earlier + (set id | id in b.packetIDs)
      ensures loaded.Some? ==> pending == old(pending)[b.bundleID := S.PendingFrom(b)]
      ensures loaded.Some? ==> pendingOrder == old(pendingOrder) + [b.bundleID]
      ensures loaded.Some? ==> bufferedBytes == old(bufferedBytes) + S.FragmentBytes(b.fragments)
    {
      hide S.FragmentsLoad, S.PacketsLoad, S.FragmentMap, S.FragmentBytes;
      if !S.RouteFits(b.routeID, expected) || !S.BundleFits(b) || b.totalPayloadBytes > maximumBufferedBytes {
        return None;
      }
      var fragments := LoadFragments(b);
      if fragments.None? {
        return None;
      }
      var packetIDs := LoadPacketIDs(b, earlier);
      if packetIDs.None? || b.bundleID in pending {
        return None;
      }
      pending := pending[b.bundleID := R.Pending(b.routeID, b.routeRevision, b.paddingBucket, b.bundleDigest,
        b.fragmentCount, b.totalPayloadBytes, fragments.value, packetIDs.value)];
      assert pending[b.bundleID] == S.PendingFrom(b);
      pendingOrder := pendingOrder + [b.bundleID];
      return Some(earlier + packetIDs.value);
    }

    method LoadBundles(saved: seq<S.SavedBundle>, expected: Option<Id>) returns (loaded: Option<set<Id>>)
      requires pending == map[] && pendingOrder == [] && bufferedBytes == 0
      modifies `bufferedBytes, `pending, `pendingOrder
      ensures loaded.Some? <==> S.BundlesLoad(saved, expected, maximumBufferedBytes)
      ensures loaded.Some? ==> loaded.value == S.SavedPacketIDs(saved)
      ensures loaded.Some? ==>
                (forall i :: 0 <= i < |saved| ==> S.BundleFits(saved[i])) && pending == S.PendingMap(saved)
      ensures loaded.Some? ==> pendingOrder == S.BundleOrder(saved) && bufferedBytes == S.SavedBytes(saved)
    {
      hide S.BundleLoads, S.BundleFits, S.PendingFrom, S.BundlesLoad, S.PendingMap, S.BundleOrder;
      hide S.SavedPacketIDs, S.SavedBytes;
      StartsEmpty(expected, maximumBufferedBytes);
      var pendingPacketIDs := {};
      assert saved[..0] == [];
      for n := 0 to |saved|
        invariant S.BundlesLoad(saved[..n], expected, maximumBufferedBytes)
        invariant (forall i :: 0 <= i < n ==> S.BundleFits(saved[i])) && pending == S.PendingMap(saved[..n])
        invariant pendingOrder == S.BundleOrder(saved[..n]) && bufferedBytes == S.SavedBytes(saved[..n])
        invariant pendingPacketIDs == S.SavedPacketIDs(saved[..n])
      {
        S.NextBundle(saved, n, expected, maximumBufferedBytes);
        OrderNamesKeys(saved[..n], expected, maximumBufferedBytes, saved[n].bundleID);
        var next := LoadBundle(saved[n], expected, pendingPacketIDs);
        if next.None? {
          if S.BundlesLoad(saved, expected, maximumBufferedBytes) {
            S.BundlesLoadPrefix(saved, n + 1, expected, maximumBufferedBytes);
          }
          return None;
        }
        pendingPacketIDs := next.value;
      }
      assert saved[..|saved|] == saved;
      return Some(pendingPacketIDs);
    }

    method LoadDigests(saved: seq<S.SavedDigest>) returns (loaded: bool)
      requires packetDigests == map[]
      modifies `packetDigests
      ensures loaded <==> S.DigestsLoad(saved)
      ensures loaded ==> packetDigests == S.DigestMap(saved)
    {
      for n := 0 to |saved|
        invariant S.DigestsLoad(saved[..n]) && packetDigests == S.DigestMap(saved[..n])
      {
        S.UnfoldDigests(saved, n + 1);
        if !NonZero(saved[n].packetID) || saved[n].packetID in packetDigests {
          if S.DigestsLoad(saved) {
            S.DigestsLoadPrefix(saved, n + 1);
          }
          return false;
        }
        packetDigests := packetDigests[saved[n].packetID := saved[n].digest];
      }
      assert saved[..|saved|] == saved;
      return true;
    }

    method LoadTerminals(saved: seq<S.SavedTerminal>, expected: Option<Id>) returns (loaded: bool)
      requires completed == map[] && completedOrder == []
      modifies `completed, `completedOrder
      ensures loaded <==> S.TerminalsLoad(saved, expected, pending.Keys)
      ensures loaded ==> forall i :: 0 <= i < |saved| ==> saved[i].routeRevision >= 0
      ensures loaded ==> completed == S.TerminalMap(saved) && completedOrder == S.TerminalOrder(saved)
    {
      hide S.TerminalsLoad, S.TerminalMap, S.TerminalOrder;
      StartsEmptyTerminals(expected, pending.Keys);
      assert saved[..0] == [];
      for n := 0 to |saved|
        invariant S.TerminalsLoad(saved[..n], expected, pending.Keys)
        invariant forall i :: 0 <= i < n ==> saved[i].routeRevision >= 0
        invariant completed == S.TerminalMap(saved[..n]) && completedOrder == S.TerminalOrder(saved[..n])
      {
        var b := saved[n];
        TerminalNamesKeys(saved[..n], expected, pending.Keys, b.bundleID);
        assert saved[..n + 1][..n] == saved[..n];
        if !NonZero(b.bundleID) || !S.RouteFits(b.routeID, expected) || !(0 <= b.routeRevision <= MAX_SAFE_INTEGER)
           || b.bundleID in pending || b.bundleID in completed {
          if S.TerminalsLoad(saved, expected, pending.Keys) {
            S.TerminalsLoadPrefix(saved, n + 1, expected, pending.Keys);
            LastTerminalFits(saved[..n + 1], expected, pending.Keys);
          }
          return false;
        }
        S.UnfoldTerminals(saved[..n + 1], expected, pending.Keys);
        completed := completed[b.bundleID := R.Terminal(b.routeID, b.routeRevision, b.bundleDigest)];
        completedOrder := completedOrder + [b.bundleID];
      }
      assert saved[..|saved|] == saved;
      return true;
    }

    /** Rebuilds a reassembler from persisted state, or refuses all of it. */
    static method Restore(v: S.Snapshot, expected: Option<Id>)
      returns (r: Result<OpaqueRoutePacketReassembler, PacketError>)
      ensures r.Ok? <==> S.Accepts(v, expected)
      ensures r.Err? ==> r.error == InvalidReassemblyState
      ensures r.Ok? ==> fresh(r.value) && r.value.Consistent() && r.value.Abstract() == S.Restored(v, expected)
    {
      hide S.BundlesLoad, S.DigestsLoad, S.TerminalsLoad, S.PendingMap, S.DigestMap, S.TerminalMap;
      hide S.BundleOrder, S.TerminalOrder, S.SavedPacketIDs, S.SavedBytes, R.Valid, S.BundleFits;
      if !S.BoundsFit(v) {
        return Err(InvalidReassemblyState);
      }
      var restored := new OpaqueRoutePacketReassembler(v.maximumBufferedBundles, v.maximumBufferedBytes);
      var pendingPacketIDs := restored.LoadBundles(v.pendingBundles, expected);
      if pendingPacketIDs.None? {
        return Err(InvalidReassemblyState);
      }
      BundleKeys(v.pendingBundles, expected, v.maximumBufferedBytes);
      assert restored.pending.Keys == S.OrderKeys(S.BundleOrder(v.pendingBundles));
      var digestsLoaded := restored.LoadDigests(v.packetDigests);
      if !digestsLoaded || restored.packetDigests.Keys != pendingPacketIDs.value {
        return Err(InvalidReassemblyState);
      }
      var terminalsLoaded := restored.LoadTerminals(v.completedBundles, expected);
      if !terminalsLoaded {
        return Err(InvalidReassemblyState);
      }
      assert S.Accepts(v, expected);
      assert restored.Abstract() == S.Restored(v, expected);
      S.RestoredIsValid(v, expected);
      return Ok(restored);
    }

    /** Lists the state in protocol order; a listing that would not restore is refused. */
    method Snapshot() returns (r: Result<S.Snapshot, PacketError>)
      requires Consistent()
      ensures S.Saveable(Abstract()) && r == Ok(S.SnapshotOf(Abstract()))
      ensures unchanged(this)
    {
      hide R.Valid, S.SnapshotOf, S.Accepts, S.Restored;
      S.ValidIsSaveable(Abstract());
      S.RestoreUndoesSnapshot(Abstract(), None);
      if !S.Saveable(R.State(maximumBufferedBundles, maximumBufferedBytes, pending, pendingOrder, packetDigests,
                             completed, completedOrder, bufferedBytes)) {
        return Err(InvalidReassemblyState);
      }
      var snapshot := S.SnapshotOf(R.State(maximumBufferedBundles, maximumBufferedBytes, pending, pendingOrder,
                                           packetDigests, completed, completedOrder, bufferedBytes));
      var restored := Restore(snapshot, None);
      if restored.Err? {
        return Err(InvalidReassemblyState);
      }
      return Ok(snapshot);
    }

    // ---- Retirement ----

    method RemovePending(key: Id)
      requires key in pending ==> forall i :: i in pending[key].fragments ==> i < pending[key].fragmentCount
      modifies this
      ensures Abstract() == R.RemovePending(old(Abstract()), key)
    {
      hide Without, IndexOf, R.BundleBytes;
      if key !in pending {
        return;
      }
      var removed := pending[key];
      pending := pending - {key};
      DropFromOrder(key);
      ReleaseBytes(removed);
      ForgetPackets(removed.packetIDs);
    }

    /** Splices the first occurrence of the key out of the order list. */
    method DropFromOrder(key: Id)
      modifies `pendingOrder
      ensures pendingOrder == Without(old(pendingOrder), key)
    {
      hide Without, IndexOf;
      var orderIndex := IndexOf(pendingOrder, key);
      WithoutFirst(pendingOrder, key);
      if orderIndex >= 0 {
        pendingOrder := pendingOrder[..orderIndex] + pendingOrder[orderIndex + 1..];
      }
    }

    method ReleaseBytes(removed: R.Pending)
      requires forall i :: i in removed.fragments ==> i < removed.fragmentCount
      modifies `bufferedBytes
      ensures bufferedBytes == old(bufferedBytes) - R.BundleBytes(removed)
    {
      var rest: map<nat, seq<Byte>> := removed.fragments;
      while rest.Keys != {}
        invariant forall i :: i in rest ==> i < removed.fragmentCount
        invariant bufferedBytes == old(bufferedBytes) - R.BundleBytes(removed)
                                   + R.HeldBytes(rest, removed.fragmentCount)
        decreases |rest|
      {
        var i: nat :| i in rest.Keys;
        bufferedBytes := bufferedBytes - |rest[i]|;
        var smaller: map<nat, seq<Byte>> := rest - {i};
        R.HeldBytesInsert(smaller, i, rest[i], removed.fragmentCount);
        assert smaller[i := rest[i]] == rest;
        assert smaller.Keys == rest.Keys - {i} && |smaller| == |smaller.Keys|;
        rest := smaller;
      }
      assert rest == map[];
      R.HeldBytesEmpty(removed.fragmentCount);
    }

    method ForgetPackets(packetIDs: set<Id>)
      modifies `packetDigests
      ensures packetDigests == old(packetDigests) - packetIDs
    {
      var rest := packetIDs;
      while rest != {}
        invariant rest <= packetIDs
        invariant packetDigests == old(packetDigests) - (packetIDs - rest)
        decreases rest
      {
        var id :| id in rest;
        packetDigests := packetDigests - {id};
        rest := rest - {id};
      }
    }

    method RememberTerminalBundle(key: Id, t: R.Terminal)
      modifies `completed, `completedOrder
      ensures Abstract() == R.RememberTerminal(old(Abstract()), key, t)
    {
      completed := completed[key := t];
      completedOrder := completedOrder + [key];
      if |completedOrder| > R.MAXIMUM_TOMBSTONES {
        completed := completed - {completedOrder[0]};
        completedOrder := completedOrder[1..];
      }
    }

    /** Drops every partial payload; the tombstones stay. */
    method DiscardPendingBundles()
      requires Consistent()
      modifies this
      ensures Abstract() == R.DiscardPendingBundles(old(Abstract())) && Consistent() && Incomplete()
      ensures completed == old(completed) && completedOrder == old(completedOrder)
    {
      R.DiscardAllKeepsValid(Abstract());
      pending := map[];
      pendingOrder := [];
      packetDigests := map[];
      bufferedBytes := 0;
    }

    method DiscardPendingBundle(key: Id) returns (retired: bool)
      requires Consistent()
      modifies this
      ensures Abstract() == R.DiscardPendingBundle(old(Abstract()), key) && Consistent()
      ensures retired <==> key in old(pending)
      ensures old(Incomplete()) ==> Incomplete()
    {
      R.DiscardKeepsValid(Abstract(), key);
      if key !in pending {
        return false;
      }
      var state := pending[key];
      assert R.WellFormed(state, maximumBufferedBytes);
      RemovePending(key);
      RememberTerminalBundle(key, R.Terminal(state.routeID, state.routeRevision, state.bundleDigest));
      return true;
    }

    method DiscardOldestPendingBundle() returns (oldest: Option<Id>)
      requires Consistent()
      modifies this
      ensures Abstract() == R.DiscardOldestPendingBundle(old(Abstract())) && Consistent()
      ensures old(Incomplete()) ==> Incomplete()
      ensures oldest == if old(pendingOrder) == [] then None else Some(old(pendingOrder)[0])
    {
      if pendingOrder == [] {
        return None;
      }
      var key := pendingOrder[0];
      assert key in pending by {
        assert key in Elements(pendingOrder);
      }
      var retired := DiscardPendingBundle(key);
      if !retired {
        return None;
      }
      return Some(key);
    }

    /** Concatenates the fragments in index order; the source's missing-part error cannot happen here. */
    method AssembleParts(state: R.Pending) returns (payload: seq<Byte>)
      requires forall i :: 0 <= i < state.fragmentCount ==> i in state.fragments
      ensures payload == R.Assemble(state.fragments, state.fragmentCount)
    {
      payload := [];
      for index := 0 to state.fragmentCount
        invariant payload == R.Assemble(state.fragments, index)
      {
        payload := payload + state.fragments[index];
      }
    }

    /** The tail of consumption once the fragment is stored. */
    method FinishBundle(h: Hashes, f: Fragment) returns (outcome: R.Outcome)
      requires R.Valid(Abstract()) && f.bundleID in pending
      modifies this
      ensures R.Step(Abstract(), outcome) == R.Finish(h, old(Abstract()), f)
    {
      var state := pending[f.bundleID];
      assert R.WellFormed(state, maximumBufferedBytes);
      if |state.fragments| != state.fragmentCount {
        return R.Accepted;
      }
      R.AssembledLength(state, maximumBufferedBytes);
      var payload := AssembleParts(state);
      if |payload| != state.totalPayloadBytes {
        assert false;
      }
      var digest := h.bundle(f.bundleID, payload);
      if digest != state.bundleDigest {
        var _ := DiscardPendingBundle(f.bundleID);
        return R.Failed(BundleDigestMismatch);
      }
      var bundle := R.Bundle(f.routeID, state.routeRevision, f.bundleID, state.bundleDigest, payload);
      RemovePending(f.bundleID);
      RememberTerminalBundle(f.bundleID, R.Terminal(bundle.routeID, bundle.routeRevision, bundle.bundleDigest));
      return R.Complete(bundle);
    }

    /** Stores a fragment, opening its bundle when this is the first one. */
    method StoreFragment(f: Fragment, operationDigest: Id)
      modifies this
      ensures Abstract() == R.Admit(old(Abstract()), f, operationDigest)
    {
      if f.bundleID in pending {
        pending := pending[f.bundleID := R.WithFragment(pending[f.bundleID], f)];
      } else {
        pending := pending[f.bundleID := R.WithFragment(R.NewPending(f), f)];
        pendingOrder := pendingOrder + [f.bundleID];
      }
      packetDigests := packetDigests[f.packetID := operationDigest];
      bufferedBytes := bufferedBytes + |f.payload|;
    }

    /** Looks the fragment up, stores it when it is new, and finishes its bundle when nothing is missing. */
    method ConsumeFragment(h: Hashes, f: Fragment, operationDigest: Id) returns (outcome: R.Outcome)
      requires Consistent() && f.packetID !in packetDigests
      requires ValidBucket(f.paddingBucket) && ValidFragment(f) && f.routeRevision <= MAX_SAFE_INTEGER
      requires NonZero(f.routeID) && NonZero(f.bundleID) && NonZero(f.packetID)
      modifies this
      ensures R.Step(Abstract(), outcome) == R.ConsumeFragment(h, old(Abstract()), f, operationDigest)
    {
      hide ValidFragment, R.Valid, R.Finish, R.Admit;
      ghost var s := Abstract();
      if f.bundleID in completed {
        var tombstone := completed[f.bundleID];
        if tombstone.routeID != f.routeID || tombstone.routeRevision != f.routeRevision
           || tombstone.bundleDigest != f.bundleDigest {
          return R.Failed(BundleConflict);
        }
        return R.Duplicate;
      }
      if f.bundleID in pending {
        var state := pending[f.bundleID];
        if !R.SameBundle(state, f) {
          return R.Failed(BundleConflict);
        }
        if f.fragmentIndex in state.fragments {
          if state.fragments[f.fragmentIndex] != f.payload {
            return R.Failed(FragmentConflict);
          }
          return R.Duplicate;
        }
        if |f.payload| > maximumBufferedBytes - bufferedBytes {
          return R.Failed(ReassemblyCapacityExceeded);
        }
      } else if |pending| >= maximumBufferedBundles || f.totalPayloadBytes > maximumBufferedBytes
                || |f.payload| > maximumBufferedBytes - bufferedBytes {
        return R.Failed(ReassemblyCapacityExceeded);
      }
      R.AdmitKeepsValid(s, f, operationDigest);
      R.AdmitTouchesOneBundle(s, f, operationDigest);
      StoreFragment(f, operationDigest);
      outcome := FinishBundle(h, f);
    }

    method Consume(h: Hashes, packet: Packet, payloadKey: Id, routeRevision: nat) returns (outcome: R.Outcome)
      requires Consistent() && routeRevision <= MAX_SAFE_INTEGER
      modifies this
      ensures R.Step(Abstract(), outcome) == R.Consume(h, old(Abstract()), packet, payloadKey, routeRevision)
      ensures Consistent() && (old(Incomplete()) ==> Incomplete())
    {
      hide R.PendingFit, R.PacketsDisjoint, R.PacketIDs, R.TotalBytes, R.TerminalsFit, R.Lists;
      hide R.ConsumeFragment;
      R.ConsumeKeepsValid(h, Abstract(), packet, payloadKey, routeRevision);
      if !ValidPacket(h, packet) {
        return R.Failed(InvalidPacket);
      }
      if packet.packetID in packetDigests {
        if packetDigests[packet.packetID] != packet.authorization.operationDigest {
          return R.Failed(PacketIdentifierConflict);
        }
        return R.Duplicate;
      }
      var fragment := OpenValidatedPacket(packet, payloadKey, routeRevision);
      if fragment.Err? {
        return R.Failed(fragment.error);
      }
      R.OpenedFragment(h, packet, payloadKey, routeRevision);
      outcome := ConsumeFragment(h, fragment.value, packet.authorization.operationDigest);
    }
  }

  lemma WithoutFirst(order: seq<Id>, key: Id)
    ensures var i := IndexOf(order, key);
            Without(order, key) == if i >= 0 then order[..i] + order[i + 1..] else order
  {
    var i := IndexOf(order, key);
    if i >= 0 {
      WithoutAt(order, i);
    } else {
      WithoutAbsent(order, key);
    }
  }

  lemma {:induction false} WithoutAbsent(order: seq<Id>, key: Id)
    requires key !in order
    ensures Without(order, key) == order
  {
    if order != [] {
      WithoutAbsent(order[1..], key);
    }
  }

  lemma StartsEmpty(expected: Option<Id>, m: nat)
    ensures S.BundlesLoad([], expected, m) && S.PendingMap([]) == map[] && S.BundleOrder([]) == []
    ensures S.SavedPacketIDs([]) == {} && S.SavedBytes([]) == 0
  {
  }

  lemma StartsEmptyTerminals(expected: Option<Id>, pending: set<Id>)
    ensures S.TerminalsLoad([], expected, pending) && S.TerminalMap([]) == map[] && S.TerminalOrder([]) == []
  {
  }

  lemma OrderNamesKeys(saved: seq<S.SavedBundle>, expected: Option<Id>, m: nat, b: Id)
    requires S.BundlesLoad(saved, expected, m)
    ensures forall i :: 0 <= i < |saved| ==> S.BundleFits(saved[i])
    ensures b in S.PendingMap(saved) <==> b in S.BundleOrder(saved)
  {
    hide S.BundlesLoad, S.BundleFits;
    S.LoadedBundles(saved, expected, m);
    S.ListedKey(S.PendingMap(saved), S.BundleOrder(saved), b);
  }

  lemma BundleKeys(saved: seq<S.SavedBundle>, expected: Option<Id>, m: nat)
    requires S.BundlesLoad(saved, expected, m)
    ensures forall i :: 0 <= i < |saved| ==> S.BundleFits(saved[i])
    ensures S.OrderKeys(S.BundleOrder(saved)) == S.PendingMap(saved).Keys
  {
    hide S.BundlesLoad, S.BundleFits;
    S.LoadedBundles(saved, expected, m);
    assert S.OrderKeys(S.BundleOrder(saved)) == Elements(S.BundleOrder(saved));
  }

  lemma TerminalNamesKeys(saved: seq<S.SavedTerminal>, expected: Option<Id>, pending: set<Id>, b: Id)
    requires S.TerminalsLoad(saved, expected, pending)
    ensures forall i :: 0 <= i < |saved| ==> saved[i].routeRevision >= 0
    ensures b in S.TerminalMap(saved) <==> b in S.TerminalOrder(saved)
  {
    hide S.TerminalsLoad;
    S.LoadedTerminals(saved, expected, pending);
    assert b in S.TerminalOrder(saved) <==> b in Elements(S.TerminalOrder(saved));
  }

  lemma LastTerminalFits(saved: seq<S.SavedTerminal>, expected: Option<Id>, pending: set<Id>)
    requires saved != [] && S.TerminalsLoad(saved, expected, pending)
    ensures var last := saved[|saved| - 1];
            && NonZero(last.bundleID) && S.RouteFits(last.routeID, expected)
               && 0 <= last.routeRevision <= MAX_SAFE_INTEGER
            && last.bundleID !in pending && last.bundleID !in S.TerminalOrder(saved[..|saved| - 1])
  {
  }
}
