/**
 * How much room delivery needs (src/opaque-route-packet-v2.js), read off the
 * arrivals alone: the reassembler refuses a packet for lack of room exactly
 * when too many bundles are unfinished or too many octets are held.
 */
module DeliveryRoom {
  import opened PacketFrame
  import opened PacketSealing
  import opened Delivery
  import R = Reassembly

  /** Bundles of which something but not everything arrived. */
  ghost function Unfinished(ship: Shipment, arrivals: seq<Arrival>): set<Id> {
    set b | b in ship && Seen(arrivals, b) != {} && |Seen(arrivals, b)| < |ship[b].packets|
  }

  /** Octets of payload that packet carries. */
  function Carried(ship: Shipment, a: Arrival): nat
    requires Possible(ship, a)
  {
    var r := ship[a.bundleID].request;
    if Sealable(r) && a.index < FragmentCount(r) then
      PieceLength(r, a.index);
      |Piece(r, a.index)|
    else 0
  }

  /** Octets the arrivals brought, less those of finished bundles. */
  function Held(ship: Shipment, arrivals: seq<Arrival>): int
    requires forall k :: 0 <= k < |arrivals| ==> Possible(ship, arrivals[k])
  {
    if arrivals == [] then 0
    else
      var front, a := arrivals[..|arrivals| - 1], arrivals[|arrivals| - 1];
      Held(ship, front) + (if a.index in Seen(front, a.bundleID) then 0 else Carried(ship, a))
      - (if Supplies(ship, front, a) then |ship[a.bundleID].request.payload| else 0)
  }

  /** There is room for one more arrival with limits of `n` bundles and `m` octets. */
  ghost predicate Fits(ship: Shipment, n: nat, m: nat, history: seq<Arrival>, a: Arrival)
    requires Sensible(ship, history) && Possible(ship, a)
  {
    || a.index in Seen(history, a.bundleID)
    || (Carried(ship, a) <= m - Held(ship, history)
        && (a.bundleID in Unfinished(ship, history)
            || (|Unfinished(ship, history)| < n && |ship[a.bundleID].request.payload| <= m)))
  }

  ghost predicate HasRoom(ship: Shipment, n: nat, m: nat, arrivals: seq<Arrival>)
    requires Sensible(ship, arrivals)
  {
    forall k {:trigger FitsAt(ship, n, m, arrivals, k)} :: 0 <= k < |arrivals| ==> FitsAt(ship, n, m, arrivals, k)
  }

  ghost predicate FitsAt(ship: Shipment, n: nat, m: nat, arrivals: seq<Arrival>, k: nat)
    requires Sensible(ship, arrivals) && k < |arrivals|
  {
    Fits(ship, n, m, arrivals[..k], arrivals[k])
  }

  /** The limits and the octets held are what the history says. */
  predicate Weighs(ship: Shipment, n: nat, m: nat, arrivals: seq<Arrival>, s: R.State)
    requires forall k :: 0 <= k < |arrivals| ==> Possible(ship, arrivals[k])
  {
    s.maximumBufferedBundles == n && s.maximumBufferedBytes == m && s.bufferedBytes == Held(ship, arrivals)
  }

  lemma HeldNext(ship: Shipment, arrivals: seq<Arrival>, a: Arrival)
    requires Sensible(ship, arrivals) && Possible(ship, a)
    ensures Sensible(ship, arrivals + [a])
    ensures Held(ship, arrivals + [a])
         == Held(ship, arrivals) + (if a.index in Seen(arrivals, a.bundleID) then 0 else Carried(ship, a))
            - (if Supplies(ship, arrivals, a) then |ship[a.bundleID].request.payload| else 0)
  {
    assert (arrivals + [a])[..|arrivals|] == arrivals;
  }

  lemma PendingIsUnfinished(h: Hashes, ship: Shipment, arrivals: seq<Arrival>, s: R.State)
    requires Tracks(h, ship, arrivals, s)
    ensures s.pending.Keys == Unfinished(ship, arrivals) && |s.pending| == |Unfinished(ship, arrivals)|
  {
    hide R.Valid, R.Incomplete, BundleSealed, DigestsMatch, TombstonesMatch, Finishes, PendingFor, Seen;
    assert |s.pending| == |s.pending.Keys|;
  }

  /** A full bundle holds exactly its payload's octets. */
  lemma FullBytes(h: Hashes, sent: Sent, seen: set<nat>)
    requires Sealable(sent.request) && |sent.packets| == FragmentCount(sent.request)
    requires (forall i :: i in seen ==> i < |sent.packets|) && |seen| == |sent.packets|
    ensures R.BundleBytes(PendingFor(h, sent, seen)) == |sent.request.payload|
  {
    var p := PendingFor(h, sent, seen);
    Completes(h, sent, seen);
    R.HeldBytesIsAssembledLength(p.fragments, p.fragmentCount);
  }

  /** A missing fragment is admissible exactly when there is room. */
  lemma AdmissibleIffFits(h: Hashes, ship: Shipment, n: nat, m: nat, arrivals: seq<Arrival>, s: R.State, a: Arrival)
    requires Tracks(h, ship, arrivals, s) && Possible(ship, a) && InHorizon(ship, arrivals, a)
    requires Weighs(ship, n, m, arrivals, s) && a.index !in Seen(arrivals, a.bundleID)
    requires BundleSealed(h, a.bundleID, ship[a.bundleID])
    ensures var sent := ship[a.bundleID];
            R.Admissible(s, FragmentOf(h, sent.request, sent.packets[a.index].packetID, a.index)) <==>
              Fits(ship, n, m, arrivals, a)
  {
    hide R.Valid, R.Incomplete, PendingMatches, DigestsMatch, TombstonesMatch, Finishes, PendingFor, Shipped;
    hide Seen, Held, Unfinished, Finished;
    var sent := ship[a.bundleID];
    var seen := Seen(arrivals, a.bundleID);
    SealedPacket(h, sent, a);
    PendingIsUnfinished(h, ship, arrivals, s);
    RecordedIffPending(h, ship, arrivals, s, a);
    WhereBundleIs(h, ship, arrivals, s, a);
    MissingHere(h, ship, arrivals, s, a);
    StoresOne(h, sent, seen, a.index);
    PendingKeys(h, sent, seen);
    if a.bundleID in s.pending {
      assert a.index !in s.pending[a.bundleID].fragments;
    }
  }

  lemma SealedPacket(h: Hashes, sent: Sent, a: Arrival)
    requires BundleSealed(h, a.bundleID, sent) && a.index < |sent.packets|
    ensures NonZero(sent.packets[a.index].packetID)
    ensures Sealable(sent.request) && a.index < FragmentCount(sent.request)
  {
    assert SealedFrom(h, sent.request, a.index, sent.packets[a.index]);
  }

  lemma RetiredBytes(s: R.State, key: Id, t: R.Terminal)
    requires key in s.pending
    ensures var u := R.RememberTerminal(R.RemovePending(s, key), key, t);
            && u.bufferedBytes == s.bufferedBytes - R.BundleBytes(s.pending[key])
            && u.maximumBufferedBundles == s.maximumBufferedBundles && u.maximumBufferedBytes == s.maximumBufferedBytes
  {
  }

  lemma AdmittedBytes(s: R.State, f: Fragment, digest: Id)
    ensures var t := R.Admit(s, f, digest);
            && t.bufferedBytes == s.bufferedBytes + |f.payload|
            && t.maximumBufferedBundles == s.maximumBufferedBundles && t.maximumBufferedBytes == s.maximumBufferedBytes
  {
  }

  lemma CarriedBytes(h: Hashes, ship: Shipment, a: Arrival, sent: Sent, seen: set<nat>)
    requires Possible(ship, a) && sent == ship[a.bundleID] && Missing(sent, seen, a.index)
    ensures |FragmentOf(h, sent.request, sent.packets[a.index].packetID, a.index).payload| == Carried(ship, a)
  {
  }

  /** What a stored fragment does to the octets held. */
  lemma StoredBytes(h: Hashes, ship: Shipment, n: nat, m: nat, arrivals: seq<Arrival>, s: R.State, a: Arrival,
                    f: Fragment,
                    digest: Id, sent: Sent, seen: set<nat>)
    requires Tracks(h, ship, arrivals, s) && Sensible(ship, arrivals) && Possible(ship, a)
             && Weighs(ship, n, m, arrivals, s)
    requires sent == ship[a.bundleID] && seen == Seen(arrivals, a.bundleID) && Missing(sent, seen, a.index)
    requires f == FragmentOf(h, sent.request, sent.packets[a.index].packetID, a.index) && f.bundleID == a.bundleID
    requires a.index !in seen && digest == sent.packets[a.index].authorization.operationDigest
    ensures Sensible(ship, arrivals + [a]) && f.bundleID in R.Admit(s, f, digest).pending
    ensures Weighs(ship, n, m, arrivals + [a], R.Finish(h, R.Admit(s, f, digest), f).state)
    ensures R.Finish(h, R.Admit(s, f, digest), f).outcome != R.Failed(ReassemblyCapacityExceeded)
  {
    hide R.Finish, R.Admit, R.RememberTerminal, R.RemovePending, R.BundleBytes, PendingFor, Seen, Held;
    hide Tracks, Missing, FragmentOf, Carried, DigestsMatch, DistinctPackets, TerminalFor;
    WhereSeen(h, ship, arrivals, s, a);
    StoreTracks(h, ship, arrivals, s, a, f, sent, seen);
    FinishStored(h, sent, R.Admit(s, f, digest), f, seen, a.index);
    HeldNext(ship, arrivals, a);
    AdmittedBytes(s, f, digest);
    CarriedBytes(h, ship, a, sent, seen);
    if |seen| + 1 == |sent.packets| {
      LastMissing(sent, seen, a.index);
      FullBytes(h, sent, seen + {a.index});
      RetiredBytes(R.Admit(s, f, digest), f.bundleID, TerminalFor(h, sent.request));
    }
  }

  lemma LastMissing(sent: Sent, seen: set<nat>, index: nat)
    requires Missing(sent, seen, index) && |seen| + 1 == |sent.packets|
    ensures Sealable(sent.request) && |sent.packets| == FragmentCount(sent.request)
    ensures (forall i :: i in seen + {index} ==> i < |sent.packets|) && |seen + {index}| == |sent.packets|
  {
    assert |seen + {index}| == |seen| + 1;
  }

  lemma WhereSeen(h: Hashes, ship: Shipment, arrivals: seq<Arrival>, s: R.State, a: Arrival)
    requires Tracks(h, ship, arrivals, s) && Possible(ship, a) && a.index !in Seen(arrivals, a.bundleID)
    ensures Missing(ship[a.bundleID], Seen(arrivals, a.bundleID), a.index)
    ensures a.bundleID in s.pending ==>
              s.pending[a.bundleID] == PendingFor(h, ship[a.bundleID], Seen(arrivals, a.bundleID))
    ensures a.bundleID !in s.pending ==> Seen(arrivals, a.bundleID) == {}
    ensures DigestsMatch(ship, s.packetDigests) && DistinctPackets(ship)
  {
    hide R.Valid, R.Incomplete, TombstonesMatch, Finishes, PendingFor, Finished, Seen, DigestsMatch;
    hide DistinctPackets;
    SealedShape(h, a.bundleID, ship[a.bundleID]);
    MissingHere(h, ship, arrivals, s, a);
    var seen := Seen(arrivals, a.bundleID);
    SeenBounds(ship, arrivals, a.bundleID);
  }

  /** One arrival: refused exactly when it does not fit, and otherwise the octets held follow the history. */
  lemma ArrivalWeighs(h: Hashes, ship: Shipment, n: nat, m: nat, arrivals: seq<Arrival>, s: R.State, a: Arrival)
    requires Tracks(h, ship, arrivals, s) && Possible(ship, a) && InHorizon(ship, arrivals, a)
    requires Weighs(ship, n, m, arrivals, s)
    ensures Answer(h, ship, s, a).outcome == R.Failed(ReassemblyCapacityExceeded) <==> !Fits(ship, n, m, arrivals, a)
    ensures Sensible(ship, arrivals + [a])
    ensures Fits(ship, n, m, arrivals, a) ==> Weighs(ship, n, m, arrivals + [a], Answer(h, ship, s, a).state)
  {
    hide PendingMatches, DigestsMatch, TombstonesMatch, Finishes, R.ConsumeFragment, R.Finish, R.Admit;
    hide BundleSealed, PendingFor, FragmentOf, Shipped, SeenInRange, ValidPacket, OpenValidated;
    hide ValidFragment, R.Valid, R.Incomplete, Deserved, R.Admissible, Held, Seen, Missing, Finished;
    hide Unfinished;
    HeldNext(ship, arrivals, a);
    if a.index in Seen(arrivals, a.bundleID) {
      RepeatTracks(h, ship, arrivals, s, a);
    } else {
      OpensTo(h, ship, a);
      RecordedIffPending(h, ship, arrivals, s, a);
      DigestKnown(h, ship, arrivals, s, a);
      MissingFragment(h, ship, arrivals, s, a);
      AdmissibleIffFits(h, ship, n, m, arrivals, s, a);
      WhereSeen(h, ship, arrivals, s, a);
      var sent := ship[a.bundleID];
      var f := FragmentOf(h, sent.request, sent.packets[a.index].packetID, a.index);
      StoredBytes(h, ship, n, m, arrivals, s, a, f, sent.packets[a.index].authorization.operationDigest, sent,
                  Seen(arrivals, a.bundleID));
      FreshTracks(h, ship, arrivals, s, a);
    }
  }

  // ---- Runs ----

  lemma ReceiveNext(h: Hashes, ship: Shipment, start: R.State, front: seq<Arrival>, a: Arrival)
    requires Sensible(ship, front) && Possible(ship, a)
    ensures Sensible(ship, front + [a])
    ensures var before := Receive(h, ship, start, front);
            var step := Answer(h, ship, before.state, a);
            Receive(h, ship, start, front + [a]) == Receipt(step.state, before.outcomes + [step.outcome])
  {
    hide Answer;
    assert (front + [a])[..|front|] == front;
  }

  lemma RoomNext(ship: Shipment, n: nat, m: nat, front: seq<Arrival>, a: Arrival)
    requires Sensible(ship, front) && Possible(ship, a)
    ensures Sensible(ship, front + [a])
    ensures HasRoom(ship, n, m, front + [a]) <==> HasRoom(ship, n, m, front) && Fits(ship, n, m, front, a)
  {
    hide Fits;
    var all := front + [a];
    assert all[..|front|] == front && all[|front|] == a;
    assert FitsAt(ship, n, m, all, |front|) <==> Fits(ship, n, m, front, a);
    forall k | 0 <= k < |front| ensures FitsAt(ship, n, m, all, k) <==> FitsAt(ship, n, m, front, k) {
      assert all[..k] == front[..k] && all[k] == front[k];
    }
  }

  lemma RoomyNext(outcomes: seq<R.Outcome>, o: R.Outcome)
    ensures Roomy(outcomes + [o]) <==> Roomy(outcomes) && o != R.Failed(ReassemblyCapacityExceeded)
  {
    assert (outcomes + [o])[|outcomes|] == o;
    assert forall k :: 0 <= k < |outcomes| ==> (outcomes + [o])[k] == outcomes[k];
  }

  lemma NothingYet(h: Hashes, ship: Shipment, n: nat, m: nat)
    requires R.Initial(n, m).Ok?
    ensures Receive(h, ship, R.Initial(n, m).value, []) == Receipt(R.Initial(n, m).value, []) && Roomy([])
    ensures HasRoom(ship, n, m, []) && Weighs(ship, n, m, [], R.Initial(n, m).value)
  {
  }

  /** Nothing is refused for lack of room exactly when everything fits, and then the octets held follow the history. */
  lemma {:induction false} RoomIsExact(h: Hashes, ship: Shipment, n: nat, m: nat, arrivals: seq<Arrival>)
    requires Shipped(h, ship) && R.Initial(n, m).Ok? && Sensible(ship, arrivals) && WithinHorizon(ship, arrivals)
    ensures Roomy(Receive(h, ship, R.Initial(n, m).value, arrivals).outcomes) <==> HasRoom(ship, n, m, arrivals)
    ensures HasRoom(ship, n, m, arrivals) ==>
              Weighs(ship, n, m, arrivals, Receive(h, ship, R.Initial(n, m).value, arrivals).state)
  {
    hide Shipped, InHorizon, Answer, Fits, Tracks, Receive, Weighs, HasRoom, Roomy, WithinHorizon, R.Initial;
    var start := R.Initial(n, m).value;
    if arrivals == [] {
      NothingYet(h, ship, n, m);
    } else {
      var front, a := arrivals[..|arrivals| - 1], arrivals[|arrivals| - 1];
      assert front + [a] == arrivals;
      RoomNext(ship, n, m, front, a);
      HorizonNext(ship, front, a);
      ReceiveNext(h, ship, start, front, a);
      var before := Receive(h, ship, start, front);
      var step := Answer(h, ship, before.state, a);
      RoomyNext(before.outcomes, step.outcome);
      RoomIsExact(h, ship, n, m, front);
      if Roomy(before.outcomes) {
        ReceiveTracks(h, ship, n, m, front);
        ArrivalWeighs(h, ship, n, m, front, before.state, a);
      }
    }
  }

  /**
   * Within capacity and horizon, both read off the arrivals, each answer is the
   * one the packets already seen call for.
   */
  lemma {:induction false} AnswersWithinCapacity(h: Hashes, ship: Shipment, n: nat, m: nat, arrivals: seq<Arrival>,
                                                 k: nat)
    requires Shipped(h, ship) && R.Initial(n, m).Ok? && Sensible(ship, arrivals) && WithinHorizon(ship, arrivals)
    requires HasRoom(ship, n, m, arrivals) && k < |arrivals|
    ensures Receive(h, ship, R.Initial(n, m).value, arrivals).outcomes[k]
              == Deserved(h, ship, arrivals[..k], arrivals[k])
  {
    hide Receive, R.Initial, HasRoom, Shipped, WithinHorizon, Deserved;
    RoomIsExact(h, ship, n, m, arrivals);
    DeliversAsUnlimited(h, ship, n, m, arrivals, k);
  }

  /**
   * Within capacity and horizon every bundle all of whose packets arrive, in
   * whatever order and however often, is delivered once and only once, with the
   * payload that was sealed.
   */
  lemma {:induction false} DeliversWithinCapacity(h: Hashes, ship: Shipment, n: nat, m: nat, arrivals: seq<Arrival>,
                                                  b: Id)
    requires Shipped(h, ship) && R.Initial(n, m).Ok? && Sensible(ship, arrivals) && WithinHorizon(ship, arrivals)
    requires HasRoom(ship, n, m, arrivals)
    requires b in ship && |Seen(arrivals, b)| == |ship[b].packets|
    ensures DeliveredOnce(h, ship, Receive(h, ship, R.Initial(n, m).value, arrivals).outcomes, b)
  {
    hide Receive, R.Initial, HasRoom, Shipped, WithinHorizon, Seen, Deserved, DeliveredOnce;
    RoomIsExact(h, ship, n, m, arrivals);
    var k := CompletesExactlyOnce(h, ship, n, m, arrivals, b);
    OnceAt(h, ship, Receive(h, ship, R.Initial(n, m).value, arrivals).outcomes, b, k);
  }

  /** One arrival, and no other, is answered with the bundle. */
  ghost predicate DeliveredOnce(h: Hashes, ship: Shipment, outcomes: seq<R.Outcome>, b: Id)
    requires b in ship
  {
    exists k :: 0 <= k < |outcomes| && OnlyAt(h, ship, outcomes, b, k)
  }

  ghost predicate OnlyAt(h: Hashes, ship: Shipment, outcomes: seq<R.Outcome>, b: Id, k: nat)
    requires b in ship && k < |outcomes|
  {
    && outcomes[k] == R.Complete(Original(h, ship[b].request))
    && forall j :: 0 <= j < |outcomes| && j != k ==> !(outcomes[j].Complete? && outcomes[j].bundle.bundleID == b)
  }

  lemma OnceAt(h: Hashes, ship: Shipment, outcomes: seq<R.Outcome>, b: Id, k: nat)
    requires b in ship && k < |outcomes| && OnlyAt(h, ship, outcomes, b, k)
    ensures DeliveredOnce(h, ship, outcomes, b)
  {
  }
}
