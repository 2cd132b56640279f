/**
 * End-to-end delivery of sealed bundles (src/opaque-route-packet-v2.js). Any
 * reordering, interleaving and duplication of the packets of any set of sealed
 * bundles is answered exactly as a receiver with unlimited memory would.
 */
module Delivery {
  import opened Wrappers
  import opened Bytes
  import opened Collections
  import opened PacketFrame
  import opened PacketSealing
  import R = Reassembly
  import Horizon = ReplayHorizon

  /** What was sealed for each bundle identifier. */
  datatype Sent = Sent(request: SealRequest, packets: seq<Packet>)

  /** One packet arrives: packet `index` of a bundle. */
  datatype Arrival = Arrival(bundleID: Id, index: nat)

  type Shipment = map<Id, Sent>

  ghost predicate BundleSealed(h: Hashes, b: Id, sent: Sent) {
    && Sealable(sent.request) && sent.request.bundleID == b
    && |sent.packets| == FragmentCount(sent.request)
    && forall i :: 0 <= i < |sent.packets| ==> SealedFrom(h, sent.request, i, sent.packets[i])
  }

  /** Packet identifiers are random, so no two packets share one. */
  ghost predicate Shipped(h: Hashes, ship: Shipment) {
    && (forall b {:trigger BundleSealed(h, b, ship[b])} :: b in ship ==> BundleSealed(h, b, ship[b]))
    && DistinctPackets(ship)
  }

  ghost predicate DistinctPackets(ship: Shipment) {
    forall a, c {:trigger PacketOf(ship, a), PacketOf(ship, c)} ::
      Possible(ship, a) && Possible(ship, c) && PacketOf(ship, a) == PacketOf(ship, c) ==> a == c
  }

  function PacketOf(ship: Shipment, a: Arrival): Id
    requires Possible(ship, a)
  {
    ship[a.bundleID].packets[a.index].packetID
  }

  predicate Possible(ship: Shipment, a: Arrival) {
    a.bundleID in ship && a.index < |ship[a.bundleID].packets|
  }

  // ---- The unlimited receiver ----

  /** Indexes of bundle `b` among the arrivals. */
  function Seen(arrivals: seq<Arrival>, b: Id): set<nat> {
    if arrivals == [] then {}
    else
      var last := arrivals[|arrivals| - 1];
      Seen(arrivals[..|arrivals| - 1], b) + if last.bundleID == b then {last.index} else {}
  }

  function Original(h: Hashes, r: SealRequest): R.Bundle {
    R.Bundle(r.routeID, r.routeRevision, r.bundleID, h.bundle(r.bundleID, r.payload), r.payload)
  }

  function Supplies(ship: Shipment, history: seq<Arrival>, a: Arrival): bool
    requires Possible(ship, a)
  {
    var before := Seen(history, a.bundleID);
    a.index !in before && |before| + 1 == |ship[a.bundleID].packets|
  }

  /** The answer an arrival deserves after `history`, from the set of indexes seen so far alone. */
  function Deserved(h: Hashes, ship: Shipment, history: seq<Arrival>, a: Arrival): R.Outcome
    requires Possible(ship, a)
  {
    if a.index in Seen(history, a.bundleID) then R.Duplicate
    else if Supplies(ship, history, a) then R.Complete(Original(h, ship[a.bundleID].request))
    else R.Accepted
  }

  /** Bundles completed by the arrivals, in order of completion. */
  function Finished(ship: Shipment, arrivals: seq<Arrival>): seq<Id>
    requires forall k :: 0 <= k < |arrivals| ==> Possible(ship, arrivals[k])
  {
    if arrivals == [] then []
    else
      var front, last := arrivals[..|arrivals| - 1], arrivals[|arrivals| - 1];
      Finished(ship, front) + if Supplies(ship, front, last) then [last.bundleID] else []
  }

  ghost predicate Sensible(ship: Shipment, arrivals: seq<Arrival>) {
    forall k :: 0 <= k < |arrivals| ==> Possible(ship, arrivals[k])
  }

  /** A repeated packet of a finished bundle arrives while the bundle is still remembered. */
  ghost predicate InHorizon(ship: Shipment, history: seq<Arrival>, a: Arrival)
    requires Sensible(ship, history)
  {
    var finished := Finished(ship, history);
    a.bundleID in finished ==> a.bundleID in Horizon.Recent(finished)
  }

  // ---- Relation between the bounded reassembler and the history ----

  /** The pending record of a bundle of which exactly `seen` arrived. */
  ghost function PendingFor(h: Hashes, sent: Sent, seen: set<nat>): R.Pending
    requires Sealable(sent.request) && |sent.packets| == FragmentCount(sent.request)
    requires forall i :: i in seen ==> i < |sent.packets|
  {
    var r := sent.request;
    R.Pending(r.routeID, r.routeRevision, r.paddingBucket, h.bundle(r.bundleID, r.payload), FragmentCount(r),
              |r.payload|,
              map i | i in seen :: PieceOf(r, i),
              set i | i in seen :: sent.packets[i].packetID)
  }

  ghost function PieceOf(r: SealRequest, i: nat): seq<Byte>
    requires Sealable(r) && i < FragmentCount(r)
  {
    PieceLength(r, i);
    Piece(r, i)
  }

  ghost predicate SeenInRange(ship: Shipment, arrivals: seq<Arrival>) {
    forall b, i :: b in ship && i in Seen(arrivals, b) ==> i < |ship[b].packets|
  }

  ghost predicate PendingMatches(h: Hashes, ship: Shipment, arrivals: seq<Arrival>, pending: map<Id, R.Pending>)
    requires Shipped(h, ship) && SeenInRange(ship, arrivals)
  {
    && (forall b :: b in pending <==>
          b in ship && Seen(arrivals, b) != {} && |Seen(arrivals, b)| < |ship[b].packets|)
    && (forall b :: b in pending ==>
          assert BundleSealed(h, b, ship[b]); pending[b] == PendingFor(h, ship[b], Seen(arrivals, b)))
  }

  ghost predicate DigestsMatch(ship: Shipment, digests: map<Id, Id>) {
    forall b, i :: b in ship && 0 <= i < |ship[b].packets| && ship[b].packets[i].packetID in digests
      ==> digests[ship[b].packets[i].packetID] == ship[b].packets[i].authorization.operationDigest
  }

  ghost predicate TombstonesMatch(h: Hashes, ship: Shipment, completed: map<Id, R.Terminal>) {
    forall b :: b in completed ==> b in ship && completed[b] == TerminalFor(h, ship[b].request)
  }

  function TerminalFor(h: Hashes, r: SealRequest): R.Terminal {
    R.Terminal(r.routeID, r.routeRevision, h.bundle(r.bundleID, r.payload))
  }

  ghost predicate Finishes(ship: Shipment, arrivals: seq<Arrival>, finished: seq<Id>) {
    && Distinct(finished)
    && forall b :: b in finished <==> b in ship && |Seen(arrivals, b)| == |ship[b].packets|
  }

  ghost predicate Tracks(h: Hashes, ship: Shipment, arrivals: seq<Arrival>, s: R.State) {
    && Shipped(h, ship) && Sensible(ship, arrivals) && SeenInRange(ship, arrivals)
    && R.Valid(s) && R.Incomplete(s)
    && PendingMatches(h, ship, arrivals, s.pending)
    && DigestsMatch(ship, s.packetDigests)
    && TombstonesMatch(h, ship, s.completed)
    && Finishes(ship, arrivals, Finished(ship, arrivals))
    && s.completedOrder == Horizon.Recent(Finished(ship, arrivals))
  }

  // ---- History facts ----

  lemma SeenNext(arrivals: seq<Arrival>, a: Arrival, b: Id)
    ensures Seen(arrivals + [a], b) == Seen(arrivals, b) + if a.bundleID == b then {a.index} else {}
  {
    assert (arrivals + [a])[..|arrivals|] == arrivals;
  }

  lemma SeenBounds(ship: Shipment, arrivals: seq<Arrival>, b: Id)
    requires SeenInRange(ship, arrivals) && b in ship
    ensures |Seen(arrivals, b)| <= |ship[b].packets|
    ensures |Seen(arrivals, b)| == |ship[b].packets| ==>
              forall i: nat :: i in Seen(arrivals, b) <==> i < |ship[b].packets|
  {
    FullRange(Seen(arrivals, b), |ship[b].packets|);
    RangeSize(|ship[b].packets|);
  }

  lemma FinishedNext(ship: Shipment, arrivals: seq<Arrival>, a: Arrival)
    requires Sensible(ship, arrivals) && Possible(ship, a)
    ensures Sensible(ship, arrivals + [a])
    ensures Finished(ship, arrivals + [a])
         == Finished(ship, arrivals) + if Supplies(ship, arrivals, a) then [a.bundleID] else []
  {
    assert (arrivals + [a])[..|arrivals|] == arrivals;
  }

  lemma HistoryNext(ship: Shipment, arrivals: seq<Arrival>, a: Arrival)
    requires Sensible(ship, arrivals) && Possible(ship, a) && SeenInRange(ship, arrivals)
    requires Finishes(ship, arrivals, Finished(ship, arrivals))
    ensures Sensible(ship, arrivals + [a]) && SeenInRange(ship, arrivals + [a])
    ensures Finishes(ship, arrivals + [a], Finished(ship, arrivals + [a]))
  {
    hide Seen, Finished;
    FinishedNext(ship, arrivals, a);
    OthersSeen(arrivals, a);
    SeenNext(arrivals, a, a.bundleID);
    SeenBounds(ship, arrivals, a.bundleID);
    FinishesNext(ship, arrivals, a, Finished(ship, arrivals));
  }

  lemma FinishesNext(ship: Shipment, arrivals: seq<Arrival>, a: Arrival, finished: seq<Id>)
    requires Possible(ship, a) && Finishes(ship, arrivals, finished)
    requires |Seen(arrivals, a.bundleID)| == |ship[a.bundleID].packets| ==> a.index in Seen(arrivals, a.bundleID)
    ensures Finishes(ship, arrivals + [a], finished + if Supplies(ship, arrivals, a) then [a.bundleID] else [])
  {
    hide Seen;
    var seen := Seen(arrivals, a.bundleID);
    OthersSeen(arrivals, a);
    SeenNext(arrivals, a, a.bundleID);
    if a.index in seen {
      assert Seen(arrivals + [a], a.bundleID) == seen;
      assert finished + [] == finished;
    } else {
      assert |seen + {a.index}| == |seen| + 1;
      if Supplies(ship, arrivals, a) {
        assert a.bundleID !in finished;
        AppendDistinct(finished, a.bundleID);
      } else {
        assert finished + [] == finished;
      }
    }
  }

  // ---- Opening ----

  lemma OpensTo(h: Hashes, ship: Shipment, a: Arrival)
    requires Shipped(h, ship) && Possible(ship, a)
    ensures var sent := ship[a.bundleID];
            var packet := sent.packets[a.index];
            && Sealable(sent.request) && a.index < FragmentCount(sent.request)
            && ValidPacket(h, packet)
            && OpenValidated(packet, sent.request.payloadKey, sent.request.routeRevision)
               == Ok(FragmentOf(h, sent.request, packet.packetID, a.index))
  {
    assert BundleSealed(h, a.bundleID, ship[a.bundleID]);
    assert SealedFrom(h, ship[a.bundleID].request, a.index, ship[a.bundleID].packets[a.index]);
  }

  /** A packet's digest is on record exactly when its fragment is pending. */
  lemma RecordedIffPending(h: Hashes, ship: Shipment, arrivals: seq<Arrival>, s: R.State, a: Arrival)
    requires Tracks(h, ship, arrivals, s) && Possible(ship, a)
    ensures ship[a.bundleID].packets[a.index].packetID in s.packetDigests
       <==> a.bundleID in s.pending && a.index in Seen(arrivals, a.bundleID)
  {
    hide R.PendingFit, R.TerminalsFit, R.Lists, R.TotalBytes, R.Incomplete, R.PacketIDs, Finishes;
    hide TombstonesMatch, DigestsMatch, BundleSealed, PendingFor, PendingMatches, DistinctPackets;
    PacketHeld(h, ship, arrivals, s.pending, a);
  }

  lemma PacketHeld(h: Hashes, ship: Shipment, arrivals: seq<Arrival>, pending: map<Id, R.Pending>, a: Arrival)
    requires Shipped(h, ship) && SeenInRange(ship, arrivals) && PendingMatches(h, ship, arrivals, pending)
             && Possible(ship, a)
    ensures ship[a.bundleID].packets[a.index].packetID in R.PacketIDs(pending)
       <==> a.bundleID in pending && a.index in Seen(arrivals, a.bundleID)
  {
    hide BundleSealed, Seen;
    var id := ship[a.bundleID].packets[a.index].packetID;
    if id in R.PacketIDs(pending) {
      var b :| b in pending && id in pending[b].packetIDs;
      var i :| i in Seen(arrivals, b) && ship[b].packets[i].packetID == id;
      assert PacketOf(ship, Arrival(b, i)) == PacketOf(ship, a);
    }
    if a.bundleID in pending && a.index in Seen(arrivals, a.bundleID) {
      assert id in pending[a.bundleID].packetIDs;
    }
  }

  lemma {:induction false} AssemblesPieces(r: SealRequest, fragments: map<nat, seq<Byte>>, n: nat)
    requires Sealable(r) && n <= FragmentCount(r)
    requires forall i: nat :: i < FragmentCount(r) ==> i in fragments && fragments[i] == PieceOf(r, i)
    ensures R.Assemble(fragments, n) == Flatten(Pieces(r, n))
  {
    if n > 0 {
      AssemblesPieces(r, fragments, n - 1);
      PieceLength(r, n - 1);
      FlattenAppend(Pieces(r, n - 1), Piece(r, n - 1));
    }
  }

  // ---- One arrival ----

  /** Of a sealed bundle, `seen` is known and `index` is still missing. */
  ghost predicate Missing(sent: Sent, seen: set<nat>, index: nat) {
    && Sealable(sent.request) && |sent.packets| == FragmentCount(sent.request)
    && (forall i :: i in seen ==> i < |sent.packets|) && index < |sent.packets| && index !in seen
  }

  /** A bundle with one more arrival is the pending record of one more index. */
  lemma StoresOne(h: Hashes, sent: Sent, seen: set<nat>, index: nat)
    requires Missing(sent, seen, index)
    ensures var f := FragmentOf(h, sent.request, sent.packets[index].packetID, index);
            && R.SameBundle(PendingFor(h, sent, seen), f)
            && R.WithFragment(PendingFor(h, sent, seen), f) == PendingFor(h, sent, seen + {index})
            && R.NewPending(f) == PendingFor(h, sent, {})
            && |PendingFor(h, sent, seen).fragments| == |seen|
  {
    var p, q := PendingFor(h, sent, seen), PendingFor(h, sent, seen + {index});
    assert p.fragments.Keys == seen;
    assert |p.fragments| == |p.fragments.Keys|;
    assert q.fragments == p.fragments[index := PieceOf(sent.request, index)];
    assert q.packetIDs == p.packetIDs + {sent.packets[index].packetID};
    assert PendingFor(h, sent, {}).fragments == map[];
  }

  lemma Completes(h: Hashes, sent: Sent, seen: set<nat>)
    requires Sealable(sent.request) && |sent.packets| == FragmentCount(sent.request)
    requires (forall i :: i in seen ==> i < |sent.packets|) && |seen| == |sent.packets|
    ensures var p := PendingFor(h, sent, seen); R.Assemble(p.fragments, p.fragmentCount) == sent.request.payload
  {
    FullRange(seen, |sent.packets|);
    RangeSize(|sent.packets|);
    AssemblesPieces(sent.request, PendingFor(h, sent, seen).fragments, |sent.packets|);
    PiecesTilePayload(sent.request);
  }

  /** The three places a bundle can be, read off the history. */
  lemma WhereBundleIs(h: Hashes, ship: Shipment, arrivals: seq<Arrival>, s: R.State, a: Arrival)
    requires Tracks(h, ship, arrivals, s) && Possible(ship, a) && InHorizon(ship, arrivals, a)
    ensures var seen := Seen(arrivals, a.bundleID);
            && (a.bundleID in s.completed <==> |seen| == |ship[a.bundleID].packets|)
            && (a.bundleID in s.completed ==> a.index in seen)
            && (a.bundleID !in s.completed && a.bundleID !in s.pending ==> seen == {})
  {
    hide R.PendingFit, R.TerminalsFit, R.TotalBytes, R.Incomplete, R.PacketsDisjoint, DigestsMatch;
    hide BundleSealed, PendingFor;
    SeenBounds(ship, arrivals, a.bundleID);
    var finished := Finished(ship, arrivals);
    RecentSubset(finished);
    assert a.bundleID in Elements(s.completedOrder) <==> a.bundleID in Horizon.Recent(finished);
    assert |ship[a.bundleID].packets| > 0;
  }

  lemma RecentSubset(log: seq<Id>)
    ensures forall b :: b in Horizon.Recent(log) ==> b in log
  {
  }

  lemma PendingMatchesNext(h: Hashes, ship: Shipment, arrivals: seq<Arrival>, pending: map<Id, R.Pending>, a: Arrival,
                           next: map<Id, R.Pending>)
    requires Shipped(h, ship) && Sensible(ship, arrivals) && SeenInRange(ship, arrivals) && Possible(ship, a)
    requires SeenInRange(ship, arrivals + [a]) && BundleSealed(h, a.bundleID, ship[a.bundleID])
    requires PendingMatches(h, ship, arrivals, pending)
    requires var seen := Seen(arrivals, a.bundleID) + {a.index};
             next == if |seen| < |ship[a.bundleID].packets|
                     then pending[a.bundleID := PendingFor(h, ship[a.bundleID], seen)]
                     else pending - {a.bundleID}
    ensures PendingMatches(h, ship, arrivals + [a], next)
  {
    hide BundleSealed, PendingFor, Seen, DistinctPackets;
    SeenBounds(ship, arrivals + [a], a.bundleID);
    SeenNext(arrivals, a, a.bundleID);
    OthersSeen(arrivals, a);
    assert forall b :: b != a.bundleID ==> (b in next <==> b in pending) && (b in next ==> next[b] == pending[b]);
  }

  lemma OthersSeen(arrivals: seq<Arrival>, a: Arrival)
    ensures forall b :: b != a.bundleID ==> Seen(arrivals + [a], b) == Seen(arrivals, b)
  {
    forall b | b != a.bundleID ensures Seen(arrivals + [a], b) == Seen(arrivals, b) {
      SeenNext(arrivals, a, b);
    }
  }

  lemma DuplicateTracks(h: Hashes, ship: Shipment, arrivals: seq<Arrival>, s: R.State, a: Arrival)
    requires Tracks(h, ship, arrivals, s) && Possible(ship, a) && a.index in Seen(arrivals, a.bundleID)
    ensures Tracks(h, ship, arrivals + [a], s)
  {
    hide R.Valid, R.Incomplete, DigestsMatch, TombstonesMatch, BundleSealed, PendingFor, Shipped, Finishes;
    hide PendingMatches, Horizon.Recent, Seen, Finished;
    HistoryNext(ship, arrivals, a);
    FinishedNext(ship, arrivals, a);
    assert Finished(ship, arrivals) + [] == Finished(ship, arrivals);
    RepeatSeen(arrivals, a);
    SameSeenSamePending(h, ship, arrivals, arrivals + [a], s.pending);
  }

  lemma RepeatSeen(arrivals: seq<Arrival>, a: Arrival)
    requires a.index in Seen(arrivals, a.bundleID)
    ensures forall b :: Seen(arrivals + [a], b) == Seen(arrivals, b)
  {
    forall b ensures Seen(arrivals + [a], b) == Seen(arrivals, b) {
      SeenNext(arrivals, a, b);
      if b == a.bundleID {
        assert Seen(arrivals, b) + {a.index} == Seen(arrivals, b);
      }
    }
  }

  lemma SameSeenSamePending(h: Hashes, ship: Shipment, x: seq<Arrival>, y: seq<Arrival>, pending: map<Id, R.Pending>)
    requires Shipped(h, ship) && SeenInRange(ship, x) && SeenInRange(ship, y)
    requires forall b :: Seen(x, b) == Seen(y, b)
    requires PendingMatches(h, ship, x, pending)
    ensures PendingMatches(h, ship, y, pending)
  {
    hide Seen, PendingFor, BundleSealed;
  }

  /** Storing a fragment that was missing: the answer and the new state. */
  lemma StoreTracks(h: Hashes, ship: Shipment, arrivals: seq<Arrival>, s: R.State, a: Arrival, f: Fragment,
                    sent: Sent, seen: set<nat>)
    requires Missing(sent, seen, a.index)
    requires f == FragmentOf(h, sent.request, sent.packets[a.index].packetID, a.index)
    requires f.bundleID == a.bundleID && a.bundleID in ship && sent == ship[a.bundleID]
    requires a.bundleID in s.pending ==> s.pending[a.bundleID] == PendingFor(h, sent, seen)
    requires a.bundleID !in s.pending ==> seen == {}
    requires DigestsMatch(ship, s.packetDigests) && DistinctPackets(ship)
    ensures var t := R.Admit(s, f, sent.packets[a.index].authorization.operationDigest);
            && f.bundleID in t.pending
            && t.pending == s.pending[a.bundleID := PendingFor(h, sent, seen + {a.index})]
            && DigestsMatch(ship, t.packetDigests)
  {
    hide PendingFor, FragmentOf, Sealable, FragmentCount;
    StoresOne(h, sent, seen, a.index);
    FragmentPacket(h, sent.request, sent.packets[a.index].packetID, a.index);
    MoreDigests(ship, s.packetDigests, a, f.packetID);
  }

  lemma FragmentPacket(h: Hashes, r: SealRequest, id: Id, index: nat)
    requires Sealable(r) && index < FragmentCount(r)
    ensures FragmentOf(h, r, id, index).packetID == id
  {
  }

  lemma MoreDigests(ship: Shipment, digests: map<Id, Id>, a: Arrival, id: Id)
    requires DigestsMatch(ship, digests) && DistinctPackets(ship) && Possible(ship, a)
    requires id == ship[a.bundleID].packets[a.index].packetID
    ensures DigestsMatch(ship, digests[id := ship[a.bundleID].packets[a.index].authorization.operationDigest])
  {
    var next := digests[id := ship[a.bundleID].packets[a.index].authorization.operationDigest];
    forall b, i | b in ship && 0 <= i < |ship[b].packets| && ship[b].packets[i].packetID in next
      ensures next[ship[b].packets[i].packetID] == ship[b].packets[i].authorization.operationDigest
    {
      if ship[b].packets[i].packetID == id {
        assert PacketOf(ship, Arrival(b, i)) == PacketOf(ship, a);
      }
    }
  }

  lemma FinishTracks(h: Hashes, ship: Shipment, arrivals: seq<Arrival>, s: R.State, a: Arrival, t: R.State, f: Fragment,
                     sent: Sent, seen: set<nat>)
    requires Missing(sent, seen, a.index)
    requires f == FragmentOf(h, sent.request, sent.packets[a.index].packetID, a.index)
    requires f.bundleID == a.bundleID && a.bundleID in ship && sent == ship[a.bundleID]
    requires a.bundleID in t.pending && t.pending == s.pending[a.bundleID := PendingFor(h, sent, seen + {a.index})]
    requires t.completed == s.completed && t.completedOrder == s.completedOrder && a.bundleID !in s.completed
    requires DigestsMatch(ship, t.packetDigests)
    requires R.Valid(R.Finish(h, t, f).state) && R.Incomplete(R.Finish(h, t, f).state)
    requires seen == Seen(arrivals, a.bundleID) && Tracks(h, ship, arrivals, s)
    ensures R.Finish(h, t, f).outcome == Deserved(h, ship, arrivals, a)
    ensures Tracks(h, ship, arrivals + [a], R.Finish(h, t, f).state)
  {
    hide R.Valid, R.Incomplete, R.Finish, Finished, PendingFor, BundleSealed, TombstonesMatch, DigestsMatch;
    hide Finishes, Shipped, PendingMatches, Horizon.Recent, Seen, ValidFragment, FragmentOf;
    SealedAt(h, ship, a.bundleID);
    SeenBounds(ship, arrivals, a.bundleID);
    SeenNext(arrivals, a, a.bundleID);
    HistoryNext(ship, arrivals, a);
    FinishedNext(ship, arrivals, a);
    assert |seen + {a.index}| == |seen| + 1;
    SeenBounds(ship, arrivals + [a], a.bundleID);
    FinishStored(h, sent, t, f, seen, a.index);
    if |seen| + 1 == |sent.packets| {
      RemoveStored(s.pending, a.bundleID, t.pending[a.bundleID]);
      PendingMatchesNext(h, ship, arrivals, s.pending, a, s.pending - {a.bundleID});
      FewerDigests(ship, t.packetDigests, t.pending[a.bundleID].packetIDs);
      CompletionTracks(h, ship, arrivals, R.RemovePending(t, a.bundleID), a);
    } else {
      PendingMatchesNext(h, ship, arrivals, s.pending, a, t.pending);
      assert Finished(ship, arrivals) + [] == Finished(ship, arrivals);
    }
  }

  /** What finishing does to the record of a bundle that just got fragment `index`. */
  lemma FinishStored(h: Hashes, sent: Sent, t: R.State, f: Fragment, seen: set<nat>, index: nat)
    requires Missing(sent, seen, index)
    requires f == FragmentOf(h, sent.request, sent.packets[index].packetID, index)
    requires f.bundleID in t.pending && t.pending[f.bundleID] == PendingFor(h, sent, seen + {index})
    ensures R.Finish(h, t, f)
         == if |seen| + 1 == |sent.packets|
            then R.Step(R.RememberTerminal(R.RemovePending(t, f.bundleID), f.bundleID, TerminalFor(h, sent.request)),
                        R.Complete(Original(h, sent.request)))
            else R.Step(t, R.Accepted)
  {
    hide R.RememberTerminal, R.RemovePending, R.Assemble, ValidFragment;
    var p := t.pending[f.bundleID];
    PendingKeys(h, sent, seen + {index});
    assert |p.fragments| == |p.fragments.Keys| == |seen| + 1;
    if |seen| + 1 == |sent.packets| {
      Completes(h, sent, seen + {index});
    }
  }

  lemma SealedAt(h: Hashes, ship: Shipment, b: Id)
    requires Shipped(h, ship) && b in ship
    ensures BundleSealed(h, b, ship[b])
  {
    assert BundleSealed(h, b, ship[b]) || b !in ship;
  }

  lemma SealedShape(h: Hashes, b: Id, sent: Sent)
    requires BundleSealed(h, b, sent)
    ensures Sealable(sent.request) && |sent.packets| == FragmentCount(sent.request) && sent.request.bundleID == b
  {
  }

  lemma RemoveStored(pending: map<Id, R.Pending>, b: Id, p: R.Pending)
    ensures pending[b := p] - {b} == pending - {b}
  {
  }

  lemma FewerDigests(ship: Shipment, digests: map<Id, Id>, gone: set<Id>)
    requires DigestsMatch(ship, digests)
    ensures DigestsMatch(ship, digests - gone)
  {
  }

  lemma CompletionTracks(h: Hashes, ship: Shipment, arrivals: seq<Arrival>, v: R.State, a: Arrival)
    requires Sensible(ship, arrivals) && Possible(ship, a) && Supplies(ship, arrivals, a)
    requires TombstonesMatch(h, ship, v.completed)
    requires v.completedOrder == Horizon.Recent(Finished(ship, arrivals))
    ensures Sensible(ship, arrivals + [a])
    ensures var u := R.RememberTerminal(v, a.bundleID, TerminalFor(h, ship[a.bundleID].request));
            && TombstonesMatch(h, ship, u.completed)
            && u.completedOrder == Horizon.Recent(Finished(ship, arrivals + [a]))
            && u.pending == v.pending && u.packetDigests == v.packetDigests
  {
    hide Supplies, Finished, TerminalFor, Horizon.Recent;
    FinishedNext(ship, arrivals, a);
    Horizon.RecentAppend(v, Finished(ship, arrivals), a.bundleID, TerminalFor(h, ship[a.bundleID].request));
  }

  /** The answer and the new state for one arrival. */
  function Answer(h: Hashes, ship: Shipment, s: R.State, a: Arrival): R.Step
    requires Possible(ship, a)
  {
    var sent := ship[a.bundleID];
    R.Consume(h, s, sent.packets[a.index], sent.request.payloadKey, sent.request.routeRevision)
  }

  lemma RepeatTracks(h: Hashes, ship: Shipment, arrivals: seq<Arrival>, s: R.State, a: Arrival)
    requires Tracks(h, ship, arrivals, s) && Possible(ship, a) && InHorizon(ship, arrivals, a)
    requires a.index in Seen(arrivals, a.bundleID)
    ensures Answer(h, ship, s, a) == R.Step(s, R.Duplicate) && Tracks(h, ship, arrivals + [a], s)
  {
    hide R.Valid, R.Incomplete, PendingMatches, DigestsMatch, TombstonesMatch, Finishes, R.ConsumeFragment;
    hide BundleSealed, ValidPacket, OpenValidated, FragmentOf, ValidFragment;
    OpensTo(h, ship, a);
    RecordedIffPending(h, ship, arrivals, s, a);
    WhereBundleIs(h, ship, arrivals, s, a);
    DigestKnown(h, ship, arrivals, s, a);
    DuplicateTracks(h, ship, arrivals, s, a);
    if a.bundleID in s.completed {
      CompletedAnswersDuplicate(h, ship, arrivals, s, a);
    }
  }

  lemma FreshTracks(h: Hashes, ship: Shipment, arrivals: seq<Arrival>, s: R.State, a: Arrival)
    requires Tracks(h, ship, arrivals, s) && Possible(ship, a) && InHorizon(ship, arrivals, a)
    requires a.index !in Seen(arrivals, a.bundleID)
    ensures var step := Answer(h, ship, s, a);
            || step == R.Step(s, R.Failed(ReassemblyCapacityExceeded))
            || (step.outcome == Deserved(h, ship, arrivals, a) && Tracks(h, ship, arrivals + [a], step.state))
  {
    hide PendingMatches, DigestsMatch, TombstonesMatch, Finishes, R.ConsumeFragment, R.Finish, R.Admit;
    hide BundleSealed, PendingFor, FragmentOf, Shipped, SeenInRange, ValidPacket, OpenValidated;
    hide ValidFragment, R.Valid, R.Incomplete, Deserved, R.Admissible;
    OpensTo(h, ship, a);
    RecordedIffPending(h, ship, arrivals, s, a);
    WhereBundleIs(h, ship, arrivals, s, a);
    DigestKnown(h, ship, arrivals, s, a);
    MissingFragment(h, ship, arrivals, s, a);
    var sent := ship[a.bundleID];
    var digest := sent.packets[a.index].authorization.operationDigest;
    var f := FragmentOf(h, sent.request, sent.packets[a.index].packetID, a.index);
    var seen := Seen(arrivals, a.bundleID);
    if R.Admissible(s, f) {
      MissingHere(h, ship, arrivals, s, a);
      StoreTracks(h, ship, arrivals, s, a, f, sent, seen);
      FinishAdmitted(h, ship, arrivals, s, a, f, digest, sent, seen);
    }
  }

  lemma MissingHere(h: Hashes, ship: Shipment, arrivals: seq<Arrival>, s: R.State, a: Arrival)
    requires Tracks(h, ship, arrivals, s) && Possible(ship, a) && a.index !in Seen(arrivals, a.bundleID)
    ensures Missing(ship[a.bundleID], Seen(arrivals, a.bundleID), a.index)
    ensures a.bundleID in s.pending
            ==> s.pending[a.bundleID] == PendingFor(h, ship[a.bundleID], Seen(arrivals, a.bundleID))
    ensures DigestsMatch(ship, s.packetDigests) && DistinctPackets(ship)
  {
    hide R.Valid, R.Incomplete, TombstonesMatch, Finishes, PendingFor, Finished, Seen, DigestsMatch;
    hide DistinctPackets;
    SealedShape(h, a.bundleID, ship[a.bundleID]);
  }

  lemma FinishAdmitted(h: Hashes, ship: Shipment, arrivals: seq<Arrival>, s: R.State, a: Arrival, f: Fragment,
                       digest: Id,
                       sent: Sent, seen: set<nat>)
    requires Missing(sent, seen, a.index)
    requires f == FragmentOf(h, sent.request, sent.packets[a.index].packetID, a.index)
    requires f.bundleID == a.bundleID && a.bundleID in ship && sent == ship[a.bundleID]
    requires R.Admissible(s, f)
    requires var t := R.Admit(s, f, digest);
             && t.pending == s.pending[a.bundleID := PendingFor(h, sent, seen + {a.index})]
             && DigestsMatch(ship, t.packetDigests)
    requires seen == Seen(arrivals, a.bundleID) && Tracks(h, ship, arrivals, s)
    ensures f.bundleID in R.Admit(s, f, digest).pending
    ensures var step := R.Finish(h, R.Admit(s, f, digest), f);
            step.outcome == Deserved(h, ship, arrivals, a) && Tracks(h, ship, arrivals + [a], step.state)
  {
    hide R.Finish, R.Valid, R.Incomplete, PendingFor, DigestsMatch, TombstonesMatch, Finishes, PendingMatches;
    hide Shipped, Deserved, Seen, Finished, FragmentOf, R.Admit;
    var t := R.Admit(s, f, digest);
    R.AdmitTouchesOneBundle(s, f, digest);
    R.AdmitKeepsValid(s, f, digest);
    R.AdmitKeepsIncomplete(s, f, digest);
    R.FinishKeepsValid(h, t, f);
    FinishTracks(h, ship, arrivals, s, a, t, f, sent, seen);
  }

  /**
   * One arrival: refused for lack of room, or answered as the unlimited
   * receiver answers, with the reassembler still tracking the history.
   */
  lemma ArrivalTracks(h: Hashes, ship: Shipment, arrivals: seq<Arrival>, s: R.State, a: Arrival)
    requires Tracks(h, ship, arrivals, s) && Possible(ship, a) && InHorizon(ship, arrivals, a)
    ensures var step := Answer(h, ship, s, a);
            || (step == R.Step(s, R.Failed(ReassemblyCapacityExceeded)) && a.index !in Seen(arrivals, a.bundleID))
            || (step.outcome == Deserved(h, ship, arrivals, a) && Tracks(h, ship, arrivals + [a], step.state))
  {
    hide Tracks, R.Consume, Answer, InHorizon, Supplies;
    if a.index in Seen(arrivals, a.bundleID) {
      RepeatTracks(h, ship, arrivals, s, a);
    } else {
      FreshTracks(h, ship, arrivals, s, a);
    }
  }

  lemma DigestKnown(h: Hashes, ship: Shipment, arrivals: seq<Arrival>, s: R.State, a: Arrival)
    requires Tracks(h, ship, arrivals, s) && Possible(ship, a)
    ensures BundleSealed(h, a.bundleID, ship[a.bundleID])
    ensures var packet := ship[a.bundleID].packets[a.index];
            packet.packetID in s.packetDigests ==>
              s.packetDigests[packet.packetID] == packet.authorization.operationDigest
  {
    hide R.Valid, R.Incomplete, Finishes, BundleSealed, PendingFor, TombstonesMatch;
  }

  lemma CompletedAnswersDuplicate(h: Hashes, ship: Shipment, arrivals: seq<Arrival>, s: R.State, a: Arrival)
    requires Tracks(h, ship, arrivals, s) && Possible(ship, a) && a.bundleID in s.completed
    requires BundleSealed(h, a.bundleID, ship[a.bundleID])
    ensures var sent := ship[a.bundleID];
            var f := FragmentOf(h, sent.request, sent.packets[a.index].packetID, a.index);
            R.ConsumeFragment(h, s, f, sent.packets[a.index].authorization.operationDigest) == R.Step(s, R.Duplicate)
  {
    hide R.Valid, R.Incomplete, Finishes, Shipped, PendingFor, DigestsMatch;
  }

  /** A missing fragment is either admissible or refused for lack of room. */
  lemma MissingFragment(h: Hashes, ship: Shipment, arrivals: seq<Arrival>, s: R.State, a: Arrival)
    requires Tracks(h, ship, arrivals, s) && Possible(ship, a) && InHorizon(ship, arrivals, a)
    requires a.index !in Seen(arrivals, a.bundleID) && BundleSealed(h, a.bundleID, ship[a.bundleID])
    ensures var sent := ship[a.bundleID];
            var f := FragmentOf(h, sent.request, sent.packets[a.index].packetID, a.index);
            var digest := sent.packets[a.index].authorization.operationDigest;
            && f.bundleID == a.bundleID
            && R.ConsumeFragment(h, s, f, digest)
               == if R.Admissible(s, f) then R.Finish(h, R.Admit(s, f, digest), f)
                  else R.Step(s, R.Failed(ReassemblyCapacityExceeded))
  {
    hide R.Valid, R.Incomplete, Finishes, Shipped, DigestsMatch, TombstonesMatch, R.Finish, R.Admit;
    hide PendingFor;
    RecordedIffPending(h, ship, arrivals, s, a);
    WhereBundleIs(h, ship, arrivals, s, a);
    var sent := ship[a.bundleID];
    assert SealedFrom(h, sent.request, a.index, sent.packets[a.index]);
    StoresOne(h, sent, Seen(arrivals, a.bundleID), a.index);
    if a.bundleID in s.pending {
      assert s.pending[a.bundleID] == PendingFor(h, sent, Seen(arrivals, a.bundleID));
      PendingKeys(h, sent, Seen(arrivals, a.bundleID));
    }
  }

  lemma PendingKeys(h: Hashes, sent: Sent, seen: set<nat>)
    requires Sealable(sent.request) && |sent.packets| == FragmentCount(sent.request)
    requires forall i :: i in seen ==> i < |sent.packets|
    ensures PendingFor(h, sent, seen).fragments.Keys == seen
  {
  }

  // ---- Runs ----

  datatype Receipt = Receipt(state: R.State, outcomes: seq<R.Outcome>)

  /** Consuming the packets of the arrivals one after the other. */
  function Receive(h: Hashes, ship: Shipment, start: R.State, arrivals: seq<Arrival>): (r: Receipt)
    requires forall k :: 0 <= k < |arrivals| ==> Possible(ship, arrivals[k])
    ensures |r.outcomes| == |arrivals|
  {
    if arrivals == [] then Receipt(start, [])
    else
      var before := Receive(h, ship, start, arrivals[..|arrivals| - 1]);
      var a := arrivals[|arrivals| - 1];
      assert Possible(ship, a);
      var step := Answer(h, ship, before.state, a);
      Receipt(step.state, before.outcomes + [step.outcome])
  }

  ghost predicate WithinHorizon(ship: Shipment, arrivals: seq<Arrival>)
    requires Sensible(ship, arrivals)
  {
    forall k {:trigger HorizonAt(ship, arrivals, k)} :: 0 <= k < |arrivals| ==> HorizonAt(ship, arrivals, k)
  }

  ghost predicate HorizonAt(ship: Shipment, arrivals: seq<Arrival>, k: nat)
    requires Sensible(ship, arrivals) && k < |arrivals|
  {
    InHorizon(ship, arrivals[..k], arrivals[k])
  }

  lemma HorizonNext(ship: Shipment, front: seq<Arrival>, a: Arrival)
    requires Sensible(ship, front) && Possible(ship, a)
    ensures Sensible(ship, front + [a])
    ensures WithinHorizon(ship, front + [a]) <==> WithinHorizon(ship, front) && InHorizon(ship, front, a)
  {
    hide InHorizon;
    var all := front + [a];
    assert all[..|front|] == front && all[|front|] == a;
    assert HorizonAt(ship, all, |front|) <==> InHorizon(ship, front, a);
    forall k | 0 <= k < |front| ensures HorizonAt(ship, all, k) <==> HorizonAt(ship, front, k) {
      assert all[..k] == front[..k] && all[k] == front[k];
    }
  }

  ghost predicate Roomy(outcomes: seq<R.Outcome>) {
    forall k :: 0 <= k < |outcomes| ==> outcomes[k] != R.Failed(ReassemblyCapacityExceeded)
  }

  lemma {:induction false} StartTracks(h: Hashes, ship: Shipment, n: nat, m: nat)
    requires Shipped(h, ship) && R.Initial(n, m).Ok?
    ensures Tracks(h, ship, [], R.Initial(n, m).value)
  {
    forall b | b in ship ensures |ship[b].packets| > 0 {
      assert BundleSealed(h, b, ship[b]);
      CeilDivBounds(|ship[b].request.payload|, Capacity(ship[b].request.paddingBucket));
    }
    var s := R.Initial(n, m).value;
    assert R.PacketIDs(s.pending) == {};
  }

  lemma {:induction false} ReceiveTracks(h: Hashes, ship: Shipment, n: nat, m: nat, arrivals: seq<Arrival>)
    requires Shipped(h, ship) && R.Initial(n, m).Ok? && Sensible(ship, arrivals) && WithinHorizon(ship, arrivals)
    requires Roomy(Receive(h, ship, R.Initial(n, m).value, arrivals).outcomes)
    ensures var r := Receive(h, ship, R.Initial(n, m).value, arrivals);
            && Tracks(h, ship, arrivals, r.state)
            && forall k :: 0 <= k < |arrivals| ==> r.outcomes[k] == Deserved(h, ship, arrivals[..k], arrivals[k])
  {
    hide Tracks, Shipped, Deserved, InHorizon, WithinHorizon, Answer, R.Initial;
    var start := R.Initial(n, m).value;
    if arrivals == [] {
      StartTracks(h, ship, n, m);
    } else {
      var front, a := arrivals[..|arrivals| - 1], arrivals[|arrivals| - 1];
      var before, after := Receive(h, ship, start, front), Receive(h, ship, start, arrivals);
      assert front + [a] == arrivals;
      assert after.outcomes == before.outcomes + [Answer(h, ship, before.state, a).outcome];
      assert after.outcomes[|front|] == Answer(h, ship, before.state, a).outcome;
      assert forall k :: 0 <= k < |front| ==> before.outcomes[k] == after.outcomes[k];
      HorizonNext(ship, front, a);
      ReceiveTracks(h, ship, n, m, front);
      ArrivalTracks(h, ship, front, before.state, a);
      forall k | 0 <= k < |arrivals| ensures after.outcomes[k] == Deserved(h, ship, arrivals[..k], arrivals[k]) {
        if k < |front| {
          assert front[..k] == arrivals[..k] && front[k] == arrivals[k];
        }
      }
    }
  }

  /**
   * Delivery: with room for everything and repeats inside the horizon, every
   * answer is the one the set of indexes already seen calls for.
   */
  lemma DeliversAsUnlimited(h: Hashes, ship: Shipment, n: nat, m: nat, arrivals: seq<Arrival>, k: nat)
    requires Shipped(h, ship) && R.Initial(n, m).Ok? && Sensible(ship, arrivals) && WithinHorizon(ship, arrivals)
    requires Roomy(Receive(h, ship, R.Initial(n, m).value, arrivals).outcomes)
    requires k < |arrivals|
    ensures Receive(h, ship, R.Initial(n, m).value, arrivals).outcomes[k]
              == Deserved(h, ship, arrivals[..k], arrivals[k])
  {
    ReceiveTracks(h, ship, n, m, arrivals);
  }

  lemma {:induction false} SeenGrows(arrivals: seq<Arrival>, j: nat, k: nat, b: Id)
    requires j <= k <= |arrivals|
    ensures Seen(arrivals[..j], b) <= Seen(arrivals[..k], b)
  {
    if j < k {
      SeenGrows(arrivals, j, k - 1, b);
      assert arrivals[..k] == arrivals[..k - 1] + [arrivals[k - 1]];
      SeenNext(arrivals[..k - 1], arrivals[k - 1], b);
    }
  }

  /** The first position by which every index of `b` arrived. */
  lemma {:induction false} LastMissingArrives(ship: Shipment, arrivals: seq<Arrival>, b: Id) returns (k: nat)
    requires Sensible(ship, arrivals) && b in ship && 0 < |ship[b].packets|
    requires |Seen(arrivals, b)| == |ship[b].packets|
    ensures k < |arrivals| && arrivals[k].bundleID == b && Supplies(ship, arrivals[..k], arrivals[k])
  {
    var front, a := arrivals[..|arrivals| - 1], arrivals[|arrivals| - 1];
    if |Seen(front, b)| == |ship[b].packets| {
      k := LastMissingArrives(ship, front, b);
      assert front[..k] == arrivals[..k];
    } else {
      k := |arrivals| - 1;
      assert arrivals[..k] == front;
      assert Seen(arrivals, b) == Seen(front, b) + if a.bundleID == b then {a.index} else {};
    }
  }

  /** Every bundle all of whose packets arrive completes once and only once, with the payload that was sealed. */
  lemma CompletesExactlyOnce(h: Hashes, ship: Shipment, n: nat, m: nat, arrivals: seq<Arrival>, b: Id) returns (k: nat)
    requires Shipped(h, ship) && R.Initial(n, m).Ok? && Sensible(ship, arrivals) && WithinHorizon(ship, arrivals)
    requires Roomy(Receive(h, ship, R.Initial(n, m).value, arrivals).outcomes)
    requires b in ship && |Seen(arrivals, b)| == |ship[b].packets|
    ensures k < |arrivals|
    ensures Receive(h, ship, R.Initial(n, m).value, arrivals).outcomes[k] == R.Complete(Original(h, ship[b].request))
    ensures forall j :: 0 <= j < |arrivals| && j != k ==>
              var o := Receive(h, ship, R.Initial(n, m).value, arrivals).outcomes[j];
              !(o.Complete? && o.bundle.bundleID == b)
  {
    hide Receive, R.Initial, Roomy, InHorizon;
    assert BundleSealed(h, b, ship[b]);
    CeilDivBounds(|ship[b].request.payload|, Capacity(ship[b].request.paddingBucket));
    k := LastMissingArrives(ship, arrivals, b);
    DeliversAsUnlimited(h, ship, n, m, arrivals, k);
    forall j | 0 <= j < |arrivals| && j != k
      ensures var o := Receive(h, ship, R.Initial(n, m).value, arrivals).outcomes[j];
              !(o.Complete? && o.bundle.bundleID == b)
    {
      DeliversAsUnlimited(h, ship, n, m, arrivals, j);
      assert BundleSealed(h, arrivals[j].bundleID, ship[arrivals[j].bundleID]);
      if arrivals[j].bundleID == b {
        OnlyOneSupplies(ship, arrivals, j, k);
      }
    }
  }

  lemma OnlyOneSupplies(ship: Shipment, arrivals: seq<Arrival>, j: nat, k: nat)
    requires Sensible(ship, arrivals) && j < |arrivals| && k < |arrivals| && j != k
    requires arrivals[j].bundleID == arrivals[k].bundleID && Supplies(ship, arrivals[..k], arrivals[k])
    ensures !Supplies(ship, arrivals[..j], arrivals[j])
  {
    hide Seen;
    var b := arrivals[k].bundleID;
    var lo, hi := if j < k then j else k, if j < k then k else j;
    SeenGrows(arrivals, lo + 1, hi, b);
    assert arrivals[..lo + 1] == arrivals[..lo] + [arrivals[lo]];
    SeenNext(arrivals[..lo], arrivals[lo], b);
    SubsetSize(Seen(arrivals[..lo + 1], b), Seen(arrivals[..hi], b));
  }
}
