/**
 * Persisted reassembler state (src/opaque-route-packet-v2.js): what a snapshot
 * lists, which snapshots are accepted back, and that nothing is lost between.
 */
module Snapshots {
  import opened Wrappers
  import opened Bytes
  import opened Collections
  import opened PacketFrame
  import R = Reassembly

  datatype SavedFragment = SavedFragment(index: int, payload: seq<Byte>)

  datatype SavedBundle = SavedBundle(
    bundleID: Id,
    routeID: Id,
    routeRevision: int,
    paddingBucket: int,
    bundleDigest: Id,
    fragmentCount: int,
    totalPayloadBytes: int,
    fragments: seq<SavedFragment>,
    packetIDs: seq<Id>)

  datatype SavedDigest = SavedDigest(packetID: Id, digest: Id)

  datatype SavedTerminal = SavedTerminal(bundleID: Id, routeID: Id, routeRevision: int, bundleDigest: Id)

  datatype Snapshot = Snapshot(
    maximumBufferedBundles: int,
    maximumBufferedBytes: int,
    pendingBundles: seq<SavedBundle>,
    packetDigests: seq<SavedDigest>,
    completedBundles: seq<SavedTerminal>)

  // ---- What a list of saved records stands for ----

  function FragmentMap(saved: seq<SavedFragment>): map<nat, seq<Byte>> {
    if saved == [] then map[]
    else
      var front, last := FragmentMap(saved[..|saved| - 1]), saved[|saved| - 1];
      if last.index < 0 then front else front[last.index := last.payload]
  }

  function FragmentBytes(saved: seq<SavedFragment>): nat {
    if saved == [] then 0 else FragmentBytes(saved[..|saved| - 1]) + |saved[|saved| - 1].payload|
  }

  function PendingFrom(b: SavedBundle): R.Pending
    requires BundleFits(b)
  {
    R.Pending(b.routeID, b.routeRevision, b.paddingBucket, b.bundleDigest, b.fragmentCount, b.totalPayloadBytes,
              FragmentMap(b.fragments), set id | id in b.packetIDs)
  }

  function PendingMap(saved: seq<SavedBundle>): map<Id, R.Pending>
    requires forall i :: 0 <= i < |saved| ==> BundleFits(saved[i])
  {
    if saved == [] then map[]
    else PendingMap(saved[..|saved| - 1])[saved[|saved| - 1].bundleID := PendingFrom(saved[|saved| - 1])]
  }

  function BundleOrder(saved: seq<SavedBundle>): seq<Id> {
    if saved == [] then [] else BundleOrder(saved[..|saved| - 1]) + [saved[|saved| - 1].bundleID]
  }

  function OrderKeys(order: seq<Id>): set<Id> {
    set b | b in order
  }

  function SavedPacketIDs(saved: seq<SavedBundle>): set<Id> {
    if saved == [] then {}
    else
      var last := saved[|saved| - 1].packetIDs;
      SavedPacketIDs(saved[..|saved| - 1]) + set id | id in last
  }

  function SavedBytes(saved: seq<SavedBundle>): nat {
    if saved == [] then 0 else SavedBytes(saved[..|saved| - 1]) + FragmentBytes(saved[|saved| - 1].fragments)
  }

  function DigestMap(saved: seq<SavedDigest>): map<Id, Id> {
    if saved == [] then map[]
    else
      var last := saved[|saved| - 1];
      DigestMap(saved[..|saved| - 1])[last.packetID := last.digest]
  }

  function TerminalMap(saved: seq<SavedTerminal>): map<Id, R.Terminal>
    requires forall i :: 0 <= i < |saved| ==> saved[i].routeRevision >= 0
  {
    if saved == [] then map[]
    else
      var last := saved[|saved| - 1];
      var terminal := R.Terminal(last.routeID, last.routeRevision, last.bundleDigest);
      TerminalMap(saved[..|saved| - 1])[last.bundleID := terminal]
  }

  function TerminalOrder(saved: seq<SavedTerminal>): seq<Id> {
    if saved == [] then [] else TerminalOrder(saved[..|saved| - 1]) + [saved[|saved| - 1].bundleID]
  }

  // ---- Which snapshots are accepted ----

  predicate RouteFits(routeID: Id, expected: Option<Id>) {
    NonZero(routeID) && (expected.Some? ==> routeID == expected.value)
  }

  /** The scalar fields of a persisted pending bundle. */
  predicate BundleFits(b: SavedBundle) {
    && NonZero(b.bundleID) && 0 <= b.routeRevision <= MAX_SAFE_INTEGER
    && ValidBucket(b.paddingBucket)
    && 1 <= b.fragmentCount <= MAXIMUM_FRAGMENTS && 1 <= b.totalPayloadBytes
    && CeilDiv(b.totalPayloadBytes, Capacity(b.paddingBucket)) == b.fragmentCount
    && 0 < |b.fragments| <= b.fragmentCount && |b.packetIDs| == |b.fragments|
  }

  predicate FragmentFits(b: SavedBundle, f: SavedFragment)
    requires BundleFits(b)
  {
    && 0 <= f.index < b.fragmentCount
    && |f.payload| == ExpectedBytes(f.index, b.fragmentCount, b.totalPayloadBytes, Capacity(b.paddingBucket))
  }

  /** Fragments 0..n of the bundle can be loaded into a reassembler already holding `bytes` octets. */
  predicate FragmentsLoad(b: SavedBundle, n: nat, bytes: nat, maximumBufferedBytes: nat)
    requires BundleFits(b) && n <= |b.fragments|
  {
    n == 0
    || (&& FragmentsLoad(b, n - 1, bytes, maximumBufferedBytes)
        && FragmentFits(b, b.fragments[n - 1])
        && b.fragments[n - 1].index !in FragmentMap(b.fragments[..n - 1])
        && bytes + FragmentBytes(b.fragments[..n]) <= maximumBufferedBytes)
  }

  /** Packet identifiers 0..n of the bundle are new. */
  predicate PacketsLoad(b: SavedBundle, n: nat, earlier: set<Id>)
    requires n <= |b.packetIDs|
  {
    n == 0
    || (&& PacketsLoad(b, n - 1, earlier)
        && NonZero(b.packetIDs[n - 1]) && b.packetIDs[n - 1] !in b.packetIDs[..n - 1] && b.packetIDs[n - 1] !in earlier)
  }

  predicate BundleLoads(b: SavedBundle, expected: Option<Id>, bytes: nat, earlier: set<Id>, maximumBufferedBytes: nat) {
    && RouteFits(b.routeID, expected) && BundleFits(b) && b.totalPayloadBytes <= maximumBufferedBytes
    && FragmentsLoad(b, |b.fragments|, bytes, maximumBufferedBytes)
    && PacketsLoad(b, |b.packetIDs|, earlier)
  }

  predicate BundlesLoad(saved: seq<SavedBundle>, expected: Option<Id>, maximumBufferedBytes: nat) {
    saved == []
    || (var front, last := saved[..|saved| - 1], saved[|saved| - 1];
        && BundlesLoad(front, expected, maximumBufferedBytes)
        && BundleLoads(last, expected, SavedBytes(front), SavedPacketIDs(front), maximumBufferedBytes)
        && last.bundleID !in BundleOrder(front))
  }

  predicate DigestsLoad(saved: seq<SavedDigest>) {
    saved == []
    || (var front, last := saved[..|saved| - 1], saved[|saved| - 1];
        && DigestsLoad(front) && NonZero(last.packetID) && last.packetID !in DigestMap(front))
  }

  predicate TerminalsLoad(saved: seq<SavedTerminal>, expected: Option<Id>, pending: set<Id>) {
    saved == []
    || (var front, last := saved[..|saved| - 1], saved[|saved| - 1];
        && TerminalsLoad(front, expected, pending)
        && NonZero(last.bundleID) && RouteFits(last.routeID, expected) && 0 <= last.routeRevision <= MAX_SAFE_INTEGER
        && last.bundleID !in pending && last.bundleID !in TerminalOrder(front))
  }

  predicate BoundsFit(v: Snapshot) {
    && 1 <= v.maximumBufferedBundles <= 256 && 1 <= v.maximumBufferedBytes <= MAXIMUM_BUNDLE_BYTES
    && |v.pendingBundles| <= v.maximumBufferedBundles
    && |v.packetDigests| <= v.maximumBufferedBundles * MAXIMUM_FRAGMENTS
    && |v.packetDigests| <= v.maximumBufferedBytes + v.maximumBufferedBundles
    && |v.completedBundles| <= R.MAXIMUM_TOMBSTONES
  }

  predicate Accepts(v: Snapshot, expected: Option<Id>) {
    && BoundsFit(v)
    && BundlesLoad(v.pendingBundles, expected, v.maximumBufferedBytes)
    && DigestsLoad(v.packetDigests)
    && DigestMap(v.packetDigests).Keys == SavedPacketIDs(v.pendingBundles)
    && TerminalsLoad(v.completedBundles, expected, OrderKeys(BundleOrder(v.pendingBundles)))
  }

  lemma {:induction false} BundlesFit(saved: seq<SavedBundle>, expected: Option<Id>, m: nat)
    requires BundlesLoad(saved, expected, m)
    ensures forall i :: 0 <= i < |saved| ==> BundleFits(saved[i])
  {
    if saved != [] {
      BundlesFit(saved[..|saved| - 1], expected, m);
    }
  }

  lemma {:induction false} RevisionsFit(saved: seq<SavedTerminal>, expected: Option<Id>, pending: set<Id>)
    requires TerminalsLoad(saved, expected, pending)
    ensures forall i :: 0 <= i < |saved| ==> saved[i].routeRevision >= 0
  {
    if saved != [] {
      RevisionsFit(saved[..|saved| - 1], expected, pending);
    }
  }

  /** The state an accepted snapshot stands for. */
  function Restored(v: Snapshot, expected: Option<Id>): R.State
    requires Accepts(v, expected)
  {
    BundlesFit(v.pendingBundles, expected, v.maximumBufferedBytes);
    RevisionsFit(v.completedBundles, expected, OrderKeys(BundleOrder(v.pendingBundles)));
    R.State(v.maximumBufferedBundles, v.maximumBufferedBytes, PendingMap(v.pendingBundles),
            BundleOrder(v.pendingBundles),
            DigestMap(v.packetDigests), TerminalMap(v.completedBundles), TerminalOrder(v.completedBundles),
            SavedBytes(v.pendingBundles))
  }

  // ---- An accepted snapshot stands for a valid state ----

  lemma {:induction false} LoadedFragments(b: SavedBundle, n: nat, bytes: nat, m: nat)
    requires BundleFits(b) && n <= |b.fragments| && FragmentsLoad(b, n, bytes, m)
    ensures var fragments := FragmentMap(b.fragments[..n]);
            && |fragments| == n
            && R.HeldBytes(fragments, b.fragmentCount) == FragmentBytes(b.fragments[..n])
            && forall i :: i in fragments ==>
                 i < b.fragmentCount
                 && |fragments[i]| == ExpectedBytes(i, b.fragmentCount, b.totalPayloadBytes, Capacity(b.paddingBucket))
    ensures n > 0 ==> bytes + FragmentBytes(b.fragments[..n]) <= m
  {
    var fragments := FragmentMap(b.fragments[..n]);
    if n == 0 {
      R.HeldBytesEmpty(b.fragmentCount);
    } else {
      LoadedFragments(b, n - 1, bytes, m);
      var front, last := FragmentMap(b.fragments[..n - 1]), b.fragments[n - 1];
      assert b.fragments[..n][..n - 1] == b.fragments[..n - 1];
      assert fragments == front[last.index as nat := last.payload];
      assert fragments.Keys == front.Keys + {last.index as nat};
      assert |fragments| == |fragments.Keys| && |front| == |front.Keys|;
      R.HeldBytesInsert(front, last.index, last.payload, b.fragmentCount);
    }
  }

  lemma {:induction false} LoadedPackets(b: SavedBundle, n: nat, earlier: set<Id>)
    requires n <= |b.packetIDs| && PacketsLoad(b, n, earlier)
    ensures Distinct(b.packetIDs[..n]) && Elements(b.packetIDs[..n]) !! earlier
    ensures forall id :: id in b.packetIDs[..n] ==> NonZero(id)
  {
    if n > 0 {
      LoadedPackets(b, n - 1, earlier);
      assert b.packetIDs[..n] == b.packetIDs[..n - 1] + [b.packetIDs[n - 1]];
      AppendDistinct(b.packetIDs[..n - 1], b.packetIDs[n - 1]);
    }
  }

  lemma LoadedBundle(b: SavedBundle, expected: Option<Id>, bytes: nat, earlier: set<Id>, m: nat)
    requires BundleLoads(b, expected, bytes, earlier, m)
    ensures R.WellFormed(PendingFrom(b), m) && R.BundleBytes(PendingFrom(b)) == FragmentBytes(b.fragments)
    ensures bytes + FragmentBytes(b.fragments) <= m && PendingFrom(b).packetIDs !! earlier
  {
    LoadedFragments(b, |b.fragments|, bytes, m);
    LoadedPackets(b, |b.packetIDs|, earlier);
    assert b.fragments[..|b.fragments|] == b.fragments && b.packetIDs[..|b.packetIDs|] == b.packetIDs;
    DistinctSize(b.packetIDs);
    assert Elements(b.packetIDs) == PendingFrom(b).packetIDs;
  }

  ghost predicate PendingGood(pending: map<Id, R.Pending>, order: seq<Id>, ids: set<Id>, bytes: nat, m: nat) {
    && R.Lists(order, pending.Keys) && |pending| == |order|
    && (forall b :: b in pending ==> NonZero(b) && R.WellFormed(pending[b], m))
    && R.PacketIDs(pending) == ids
    && (forall b, c :: b in pending && c in pending && b != c ==> pending[b].packetIDs !! pending[c].packetIDs)
    && R.TotalBytes(pending, order) == bytes <= m
  }

  lemma AddGood(pending: map<Id, R.Pending>, order: seq<Id>, ids: set<Id>, bytes: nat, m: nat, b: Id, p: R.Pending)
    requires PendingGood(pending, order, ids, bytes, m) && b !in order && NonZero(b)
    requires R.WellFormed(p, m) && p.packetIDs !! ids && bytes + R.BundleBytes(p) <= m
    ensures PendingGood(pending[b := p], order + [b], ids + p.packetIDs, bytes + R.BundleBytes(p), m)
  {
    hide R.WellFormed, R.BundleBytes, R.TotalBytes, R.PacketIDs, R.Lists;
    ListedKey(pending, order, b);
    R.InsertNew(pending, order, b, p);
    AddPackets(pending, b, p);
    forall c | c in pending ensures pending[c].packetIDs <= R.PacketIDs(pending) {
      OwnPackets(pending, c);
    }
  }

  lemma ListedKey(pending: map<Id, R.Pending>, order: seq<Id>, b: Id)
    requires R.Lists(order, pending.Keys)
    ensures b in order <==> b in pending
  {
    assert b in order <==> b in Elements(order);
  }

  lemma OwnPackets(pending: map<Id, R.Pending>, b: Id)
    requires b in pending
    ensures pending[b].packetIDs <= R.PacketIDs(pending)
  {
  }

  lemma AddPackets(pending: map<Id, R.Pending>, b: Id, p: R.Pending)
    requires b !in pending
    ensures R.PacketIDs(pending[b := p]) == R.PacketIDs(pending) + p.packetIDs
  {
    var next := pending[b := p];
    forall x | x in R.PacketIDs(pending) ensures x in R.PacketIDs(next) {
      var c :| c in pending && x in pending[c].packetIDs;
      assert c in next && x in next[c].packetIDs;
    }
    forall x | x in p.packetIDs ensures x in R.PacketIDs(next) {
      assert b in next && x in next[b].packetIDs;
    }
  }

  lemma {:induction false} LoadedBundles(saved: seq<SavedBundle>, expected: Option<Id>, m: nat)
    requires BundlesLoad(saved, expected, m)
    ensures forall i :: 0 <= i < |saved| ==> BundleFits(saved[i])
    ensures PendingGood(PendingMap(saved), BundleOrder(saved), SavedPacketIDs(saved), SavedBytes(saved), m)
    ensures |BundleOrder(saved)| == |saved|
  {
    hide PendingGood, BundleLoads, PendingFrom, FragmentBytes, BundleFits, PendingMap, BundleOrder;
    hide SavedPacketIDs, SavedBytes;
    BundlesFit(saved, expected, m);
    UnfoldBundles(saved);
    if saved == [] {
      NothingGood(m);
    } else {
      var front, last := saved[..|saved| - 1], saved[|saved| - 1];
      LoadedBundles(front, expected, m);
      LoadedBundle(last, expected, SavedBytes(front), SavedPacketIDs(front), m);
      IdsOf(last);
      AddGood(PendingMap(front), BundleOrder(front), SavedPacketIDs(front), SavedBytes(front), m, last.bundleID,
              PendingFrom(last));
    }
  }

  lemma UnfoldBundles(saved: seq<SavedBundle>)
    requires forall i :: 0 <= i < |saved| ==> BundleFits(saved[i])
    ensures saved == [] ==>
              PendingMap(saved) == map[] && BundleOrder(saved) == [] && SavedPacketIDs(saved) == {}
                && SavedBytes(saved) == 0
    ensures saved != [] ==>
              var front, last := saved[..|saved| - 1], saved[|saved| - 1];
              && PendingMap(saved) == PendingMap(front)[last.bundleID := PendingFrom(last)]
              && BundleOrder(saved) == BundleOrder(front) + [last.bundleID]
              && SavedPacketIDs(saved) == SavedPacketIDs(front) + PendingFrom(last).packetIDs
              && SavedBytes(saved) == SavedBytes(front) + FragmentBytes(last.fragments)
  {
    hide BundleFits, FragmentBytes, FragmentMap;
  }

  lemma IdsOf(b: SavedBundle)
    requires BundleFits(b)
    ensures PendingFrom(b).packetIDs == (set id | id in b.packetIDs) && NonZero(b.bundleID)
  {
  }

  lemma NothingGood(m: nat)
    ensures PendingGood(map[], [], {}, 0, m)
  {
    var none: map<Id, R.Pending> := map[];
    assert R.PacketIDs(none) == {};
  }

  lemma {:induction false} LoadedTerminals(saved: seq<SavedTerminal>, expected: Option<Id>, pending: set<Id>)
    requires TerminalsLoad(saved, expected, pending)
    ensures forall i :: 0 <= i < |saved| ==> saved[i].routeRevision >= 0
    ensures R.Lists(TerminalOrder(saved), TerminalMap(saved).Keys) && |TerminalOrder(saved)| == |saved|
    ensures R.TerminalsFit(TerminalMap(saved)) && TerminalMap(saved).Keys !! pending
  {
    RevisionsFit(saved, expected, pending);
    if saved != [] {
      var front, last := saved[..|saved| - 1], saved[|saved| - 1];
      LoadedTerminals(front, expected, pending);
      AppendDistinct(TerminalOrder(front), last.bundleID);
    }
  }

  /** Every accepted snapshot restores to a state that satisfies the whole reassembler invariant. */
  lemma RestoredIsValid(v: Snapshot, expected: Option<Id>)
    requires Accepts(v, expected)
    ensures R.Valid(Restored(v, expected))
  {
    hide R.WellFormed, R.TotalBytes, R.TerminalFit, R.PacketIDs, R.TerminalsFit, BundlesLoad, TerminalsLoad;
    hide DigestsLoad, PendingMap, TerminalMap, DigestMap, SavedBytes, SavedPacketIDs, BundleOrder;
    hide TerminalOrder;
    LoadedBundles(v.pendingBundles, expected, v.maximumBufferedBytes);
    LoadedTerminals(v.completedBundles, expected, OrderKeys(BundleOrder(v.pendingBundles)));
    assert Elements(BundleOrder(v.pendingBundles)) == OrderKeys(BundleOrder(v.pendingBundles));
  }

  // ---- What a state is saved as ----

  function SaveFragments(fragments: map<nat, seq<Byte>>): (saved: seq<SavedFragment>) {
    var keys: seq<nat> := Ascending(fragments.Keys);
    seq(|keys|, i requires 0 <= i < |keys| => SavedFragment(keys[i], fragments[keys[i]]))
  }

  /** The list names every fragment once, by ascending index. */
  ghost predicate ListsFragments(saved: seq<SavedFragment>, fragments: map<nat, seq<Byte>>) {
    && |saved| == |fragments|
    && (forall i :: 0 <= i < |saved| ==> saved[i].index in fragments && saved[i].payload == fragments[saved[i].index])
    && (forall i, j :: 0 <= i < j < |saved| ==> saved[i].index < saved[j].index)
  }

  ghost predicate NamesEveryFragment(saved: seq<SavedFragment>, fragments: map<nat, seq<Byte>>) {
    forall k :: k in fragments ==> exists i :: 0 <= i < |saved| && saved[i].index == k
  }

  lemma FragmentsListed(fragments: map<nat, seq<Byte>>)
    ensures ListsFragments(SaveFragments(fragments), fragments)
            && NamesEveryFragment(SaveFragments(fragments), fragments)
  {
    hide Ascending;
    AscendingIsSorted(fragments.Keys);
    var keys: seq<nat> := Ascending(fragments.Keys);
    var saved := SaveFragments(fragments);
    assert |fragments| == |fragments.Keys|;
    forall k | k in fragments ensures exists i :: 0 <= i < |saved| && saved[i].index == k {
      var i :| 0 <= i < |keys| && keys[i] == k;
      assert saved[i].index == k;
    }
  }

  function SaveBundle(b: Id, p: R.Pending): SavedBundle {
    SavedBundle(b, p.routeID, p.routeRevision, p.paddingBucket, p.bundleDigest, p.fragmentCount, p.totalPayloadBytes,
                SaveFragments(p.fragments), Ascending(p.packetIDs))
  }

  function SaveBundles(pending: map<Id, R.Pending>, order: seq<Id>): (saved: seq<SavedBundle>)
    requires forall b :: b in order ==> b in pending
    ensures |saved| == |order|
  {
    if order == [] then []
    else
      assert order[|order| - 1] in order;
      SaveBundles(pending, order[..|order| - 1]) + [SaveBundle(order[|order| - 1], pending[order[|order| - 1]])]
  }

  function SaveDigests(digests: map<Id, Id>): (saved: seq<SavedDigest>) {
    var keys: seq<Id> := Ascending(digests.Keys);
    seq(|keys|, i requires 0 <= i < |keys| => SavedDigest(keys[i], digests[keys[i]]))
  }

  ghost predicate ListsDigests(saved: seq<SavedDigest>, digests: map<Id, Id>) {
    && |saved| == |digests|
    && (forall i :: 0 <= i < |saved| ==> saved[i].packetID in digests && saved[i].digest == digests[saved[i].packetID])
    && (forall i, j :: 0 <= i < j < |saved| ==> saved[i].packetID < saved[j].packetID)
  }

  ghost predicate NamesEveryDigest(saved: seq<SavedDigest>, digests: map<Id, Id>) {
    forall k :: k in digests ==> exists i :: 0 <= i < |saved| && saved[i].packetID == k
  }

  lemma DigestsListed(digests: map<Id, Id>)
    ensures ListsDigests(SaveDigests(digests), digests) && NamesEveryDigest(SaveDigests(digests), digests)
  {
    hide Ascending;
    AscendingIsSorted(digests.Keys);
    var keys: seq<Id> := Ascending(digests.Keys);
    var saved := SaveDigests(digests);
    assert |digests| == |digests.Keys|;
    forall k | k in digests ensures exists i :: 0 <= i < |saved| && saved[i].packetID == k {
      var i :| 0 <= i < |keys| && keys[i] == k;
      assert saved[i].packetID == k;
    }
  }

  function SaveTerminals(completed: map<Id, R.Terminal>, order: seq<Id>): (saved: seq<SavedTerminal>)
    requires forall b :: b in order ==> b in completed
    ensures |saved| == |order|
    ensures forall i :: 0 <= i < |saved| ==> saved[i].routeRevision >= 0
  {
    if order == [] then []
    else
      var b := order[|order| - 1];
      assert b in order;
      SaveTerminals(completed, order[..|order| - 1])
      + [SavedTerminal(b, completed[b].routeID, completed[b].routeRevision, completed[b].bundleDigest)]
  }

  /** Both order lists name keys of their maps; otherwise saving is refused. */
  predicate Saveable(s: R.State) {
    (forall b :: b in s.pendingOrder ==> b in s.pending) && (forall b :: b in s.completedOrder ==> b in s.completed)
  }

  function SnapshotOf(s: R.State): Snapshot
    requires Saveable(s)
  {
    Snapshot(s.maximumBufferedBundles, s.maximumBufferedBytes, SaveBundles(s.pending, s.pendingOrder),
             SaveDigests(s.packetDigests), SaveTerminals(s.completed, s.completedOrder))
  }

  // ---- Nothing is lost between saving and restoring ----

  /** The first `n` fragments of the list have been put back, and nothing else. */
  ghost predicate FragmentsBack(fragments: map<nat, seq<Byte>>, saved: seq<SavedFragment>, n: nat)
    requires n <= |saved| && ListsFragments(saved, fragments)
  {
    var back := FragmentMap(saved[..n]);
    && (forall i :: 0 <= i < n ==> saved[i].index in back)
    && (forall k :: k in back ==> k in fragments && back[k] == fragments[k])
  }

  lemma UnfoldFragments(saved: seq<SavedFragment>, n: nat)
    requires 0 < n <= |saved| && saved[n - 1].index >= 0
    ensures FragmentMap(saved[..n]) == FragmentMap(saved[..n - 1])[saved[n - 1].index := saved[n - 1].payload]
  {
    assert saved[..n][..n - 1] == saved[..n - 1];
  }

  lemma {:induction false} FragmentMapOf(fragments: map<nat, seq<Byte>>, saved: seq<SavedFragment>, n: nat)
    requires n <= |saved| && ListsFragments(saved, fragments)
    ensures FragmentsBack(fragments, saved, n)
  {
    if n > 0 {
      hide FragmentMap;
      FragmentMapOf(fragments, saved, n - 1);
      UnfoldFragments(saved, n);
    }
  }

  lemma {:induction false} MapBytes(saved: seq<SavedFragment>, n: nat, count: nat)
    requires n <= |saved| && forall i :: 0 <= i < |saved| ==> 0 <= saved[i].index < count
    requires forall i, j :: 0 <= i < j < |saved| ==> saved[i].index < saved[j].index
    ensures R.HeldBytes(FragmentMap(saved[..n]), count) == FragmentBytes(saved[..n])
    ensures forall k :: k in FragmentMap(saved[..n]) ==> exists i :: 0 <= i < n && saved[i].index == k
  {
    if n == 0 {
      R.HeldBytesEmpty(count);
    } else {
      MapBytes(saved, n - 1, count);
      assert saved[..n][..n - 1] == saved[..n - 1];
      var front, last := FragmentMap(saved[..n - 1]), saved[n - 1];
      R.HeldBytesInsert(front, last.index, last.payload, count);
    }
  }

  lemma {:induction false} BytesGrow(saved: seq<SavedFragment>, n: nat)
    requires n <= |saved|
    ensures FragmentBytes(saved[..n]) <= FragmentBytes(saved)
  {
    if n == |saved| {
      assert saved[..n] == saved;
    } else {
      BytesGrow(saved[..|saved| - 1], n);
      assert saved[..|saved| - 1][..n] == saved[..n];
    }
  }

  lemma {:induction false} SavedFragmentsLoad(b: SavedBundle, n: nat, bytes: nat, m: nat)
    requires BundleFits(b) && n <= |b.fragments|
    requires forall i :: 0 <= i < |b.fragments| ==> FragmentFits(b, b.fragments[i])
    requires forall i, j :: 0 <= i < j < |b.fragments| ==> b.fragments[i].index < b.fragments[j].index
    requires bytes + FragmentBytes(b.fragments) <= m
    ensures FragmentsLoad(b, n, bytes, m)
  {
    hide BundleFits, FragmentMap;
    if n > 0 {
      SavedFragmentsLoad(b, n - 1, bytes, m);
      MapBytes(b.fragments, n - 1, b.fragmentCount);
      BytesGrow(b.fragments, n);
    }
  }

  lemma {:induction false} SavedPacketsLoad(b: SavedBundle, n: nat, earlier: set<Id>)
    requires n <= |b.packetIDs| && Distinct(b.packetIDs)
    requires forall id :: id in b.packetIDs ==> NonZero(id) && id !in earlier
    ensures PacketsLoad(b, n, earlier)
  {
    if n > 0 {
      SavedPacketsLoad(b, n - 1, earlier);
    }
  }

  lemma SavedFragmentsBack(p: R.Pending, saved: seq<SavedFragment>, m: nat)
    requires R.WellFormed(p, m) && ListsFragments(saved, p.fragments) && NamesEveryFragment(saved, p.fragments)
    ensures FragmentMap(saved) == p.fragments && FragmentBytes(saved) == R.BundleBytes(p)
  {
    hide FragmentMap, FragmentBytes, R.HeldBytes;
    assert saved[..|saved|] == saved;
    FragmentMapOf(p.fragments, saved, |saved|);
    assert forall k :: k in p.fragments ==> k in FragmentMap(saved);
    assert FragmentMap(saved) == p.fragments;
    MapBytes(saved, |saved|, p.fragmentCount);
  }

  /** One saved bundle is accepted and comes back unchanged. */
  lemma SavedBundleBack(b: Id, p: R.Pending, expected: Option<Id>, bytes: nat, earlier: set<Id>, m: nat)
    requires R.WellFormed(p, m) && NonZero(b) && RouteFits(p.routeID, expected)
    requires p.packetIDs !! earlier && bytes + R.BundleBytes(p) <= m
    ensures var saved := SaveBundle(b, p);
            && saved.bundleID == b
            && BundleLoads(saved, expected, bytes, earlier, m) && PendingFrom(saved) == p
            && FragmentBytes(saved.fragments) == R.BundleBytes(p)
  {
    hide SaveFragments, Ascending, FragmentMap, FragmentBytes, R.BundleBytes, FragmentsLoad, PacketsLoad;
    var saved := SaveBundle(b, p);
    FragmentsListed(p.fragments);
    SavedFragmentsBack(p, saved.fragments, m);
    FullRange(p.fragments.Keys, p.fragmentCount);
    assert |p.fragments| == |p.fragments.Keys|;
    AscendingIsSorted(p.packetIDs);
    assert BundleFits(saved);
    SavedFragmentsLoad(saved, |saved.fragments|, bytes, m);
    SavedPacketsLoad(saved, |saved.packetIDs|, earlier);
  }

  ghost function PacketsOf(pending: map<Id, R.Pending>, order: seq<Id>): set<Id>
    requires forall b :: b in order ==> b in pending
  {
    set b, id | b in order && id in pending[b].packetIDs :: id
  }

  ghost predicate Keepable(pending: map<Id, R.Pending>, order: seq<Id>, expected: Option<Id>, m: nat) {
    && Distinct(order)
    && (forall b :: b in order ==> b in pending && NonZero(b) && R.WellFormed(pending[b], m)
                                   && RouteFits(pending[b].routeID, expected))
    && (forall b, c :: b in order && c in order && b != c ==> pending[b].packetIDs !! pending[c].packetIDs)
    && R.TotalBytes(pending, order) <= m
  }

  /** The saved bundles of an order list are accepted and stand for exactly what was saved. */
  ghost predicate BundlesBack(pending: map<Id, R.Pending>, order: seq<Id>, expected: Option<Id>, m: nat)
    requires forall b :: b in order ==> b in pending
  {
    var saved := SaveBundles(pending, order);
    && BundlesLoad(saved, expected, m)
    && (forall i :: 0 <= i < |saved| ==> BundleFits(saved[i]))
    && PendingMap(saved) == (map b | b in order :: pending[b])
    && BundleOrder(saved) == order
    && SavedPacketIDs(saved) == PacketsOf(pending, order)
    && SavedBytes(saved) == R.TotalBytes(pending, order)
  }

  lemma {:induction false} SavedBundlesBack(pending: map<Id, R.Pending>, order: seq<Id>, expected: Option<Id>, m: nat)
    requires Keepable(pending, order, expected, m)
    ensures BundlesBack(pending, order, expected, m)
  {
    if order == [] {
      assert PacketsOf(pending, order) == {};
    } else {
      var front, last := order[..|order| - 1], order[|order| - 1];
      assert order == front + [last];
      FewerKeepable(pending, front, last, expected, m);
      SavedBundlesBack(pending, front, expected, m);
      OneMoreBack(pending, front, last, expected, m);
    }
  }

  lemma OneMoreBack(pending: map<Id, R.Pending>, front: seq<Id>, last: Id, expected: Option<Id>, m: nat)
    requires Keepable(pending, front + [last], expected, m) && forall b :: b in front ==> b in pending
    requires BundlesBack(pending, front, expected, m)
    ensures BundlesBack(pending, front + [last], expected, m)
  {
    hide R.WellFormed, R.BundleBytes, SaveBundle, BundleLoads, PendingFrom, PendingMap, PacketsOf, Keepable;
    hide BundleOrder, SavedPacketIDs, SavedBytes, BundleFits, R.TotalBytes, FragmentBytes, RouteFits;
    var order := front + [last];
    FewerKeepable(pending, front, last, expected, m);
    var p := pending[last];
    PacketsOfLast(pending, front, last);
    WithinBudget(pending, order, expected, m);
    R.TotalBytesAppend(pending, front, last);
    SavedBundleBack(last, p, expected, R.TotalBytes(pending, front), PacketsOf(pending, front), m);
    var saved := SaveBundles(pending, order);
    assert order[..|order| - 1] == front;
    assert saved == SaveBundles(pending, front) + [SaveBundle(last, p)];
    assert saved[..|saved| - 1] == SaveBundles(pending, front);
    BundlesFit(saved, expected, m);
    UnfoldBundles(saved);
  }

  lemma WithinBudget(pending: map<Id, R.Pending>, order: seq<Id>, expected: Option<Id>, m: nat)
    requires Keepable(pending, order, expected, m)
    ensures forall b :: b in order ==> b in pending
    ensures R.TotalBytes(pending, order) <= m
  {
  }

  lemma {:induction false} HeldAtLeast(fragments: map<nat, seq<Byte>>, n: nat)
    requires forall i :: i in fragments ==> i < n && |fragments[i]| >= 1
    ensures R.HeldBytes(fragments, n) >= |fragments|
  {
    if n > 0 {
      var rest := fragments - {n - 1};
      HeldAtLeast(rest, n - 1);
      R.HeldBytesFrame(rest, fragments, n - 1);
      assert |fragments.Keys| == |fragments| && |rest.Keys| == |rest|;
      if n - 1 in fragments {
        assert fragments.Keys == rest.Keys + {n - 1};
      } else {
        assert fragments.Keys == rest.Keys;
      }
    }
  }

  lemma PacketBudget(p: R.Pending, m: nat)
    requires R.WellFormed(p, m)
    ensures |p.packetIDs| <= MAXIMUM_FRAGMENTS && |p.packetIDs| <= R.BundleBytes(p)
  {
    var c := Capacity(p.paddingBucket);
    CeilDivBounds(p.totalPayloadBytes, c);
    FullRange(p.fragments.Keys, p.fragmentCount);
    assert |p.fragments| == |p.fragments.Keys|;
    HeldAtLeast(p.fragments, p.fragmentCount);
  }

  lemma {:induction false} DigestBudget(pending: map<Id, R.Pending>, order: seq<Id>, expected: Option<Id>, m: nat)
    requires Keepable(pending, order, expected, m)
    ensures |PacketsOf(pending, order)| <= |order| * MAXIMUM_FRAGMENTS
    ensures |PacketsOf(pending, order)| <= R.TotalBytes(pending, order)
  {
    if order == [] {
      assert PacketsOf(pending, order) == {};
    } else {
      hide R.WellFormed, R.BundleBytes, R.TotalBytes, RouteFits, PacketsOf;
      var front, last := order[..|order| - 1], order[|order| - 1];
      assert order == front + [last];
      R.TotalBytesAppend(pending, front, last);
      FewerKeepable(pending, front, last, expected, m);
      DigestBudget(pending, front, expected, m);
      PacketBudget(pending[last], m);
      PacketsOfLast(pending, front, last);
    }
  }

  lemma PacketsOfLast(pending: map<Id, R.Pending>, front: seq<Id>, last: Id)
    requires forall b :: b in front + [last] ==> b in pending
    ensures forall b :: b in front ==> b in pending
    ensures last in pending && PacketsOf(pending, front + [last]) == PacketsOf(pending, front) + pending[last].packetIDs
  {
    assert forall b :: b in front ==> b in front + [last];
    assert last in front + [last];
  }

  lemma FewerKeepable(pending: map<Id, R.Pending>, front: seq<Id>, last: Id, expected: Option<Id>, m: nat)
    requires Keepable(pending, front + [last], expected, m)
    ensures Keepable(pending, front, expected, m) && last in pending && last !in front
    ensures NonZero(last) && R.WellFormed(pending[last], m) && RouteFits(pending[last].routeID, expected)
    ensures pending[last].packetIDs !! PacketsOf(pending, front)
  {
    hide R.WellFormed, R.BundleBytes, R.TotalBytes, RouteFits;
    var order := front + [last];
    assert order[|front|] == last && forall i :: 0 <= i < |front| ==> order[i] == front[i];
    assert last in order && forall b :: b in front ==> b in order;
    R.TotalBytesAppend(pending, front, last);
  }

  ghost predicate DigestsBackUpTo(digests: map<Id, Id>, saved: seq<SavedDigest>, n: nat)
    requires n <= |saved| && ListsDigests(saved, digests)
  {
    n == 0 ||
    var back := DigestMap(saved[..n]);
    && DigestsLoad(saved[..n])
    && (forall i :: 0 <= i < n ==> saved[i].packetID in back)
    && (forall k :: k in back ==> k in digests && back[k] == digests[k] && k <= saved[n - 1].packetID)
  }

  lemma {:induction false} SavedDigestsBack(digests: map<Id, Id>, saved: seq<SavedDigest>, n: nat)
    requires n <= |saved| && ListsDigests(saved, digests)
    requires forall id :: id in digests ==> NonZero(id)
    ensures DigestsBackUpTo(digests, saved, n)
  {
    if n == 1 {
      UnfoldDigests(saved, 1);
    } else if n > 1 {
      hide DigestMap, DigestsLoad;
      SavedDigestsBack(digests, saved, n - 1);
      UnfoldDigests(saved, n);
    }
  }

  lemma UnfoldDigests(saved: seq<SavedDigest>, n: nat)
    requires 0 < n <= |saved|
    ensures DigestMap(saved[..n]) == DigestMap(saved[..n - 1])[saved[n - 1].packetID := saved[n - 1].digest]
    ensures DigestsLoad(saved[..n]) <==>
            DigestsLoad(saved[..n - 1]) && NonZero(saved[n - 1].packetID)
              && saved[n - 1].packetID !in DigestMap(saved[..n - 1])
  {
    assert saved[..n][..n - 1] == saved[..n - 1];
  }

  lemma {:induction false} SavedTerminalsBack(completed: map<Id, R.Terminal>, order: seq<Id>, expected: Option<Id>,
                                              pending: set<Id>)
    requires Distinct(order) && R.TerminalsFit(completed)
    requires forall b :: b in order ==> b in completed && b !in pending && RouteFits(completed[b].routeID, expected)
    ensures var saved := SaveTerminals(completed, order);
            && TerminalsLoad(saved, expected, pending)
            && TerminalMap(saved) == (map b | b in order :: completed[b])
            && TerminalOrder(saved) == order
  {
    if order != [] {
      var front, last := order[..|order| - 1], order[|order| - 1];
      assert order == front + [last];
      assert last in order;
      hide R.TerminalFit, RouteFits, TerminalsLoad, TerminalMap, TerminalOrder;
      SavedTerminalsBack(completed, front, expected, pending);
      assert R.TerminalFit(completed[last]) && last !in front;
      var saved := SaveTerminals(completed, order);
      assert saved[..|saved| - 1] == SaveTerminals(completed, front);
      TerminalBack(completed, front, last, saved, expected, pending);
    }
  }

  lemma UnfoldTerminals(saved: seq<SavedTerminal>, expected: Option<Id>, pending: set<Id>)
    requires saved != [] && forall i :: 0 <= i < |saved| ==> saved[i].routeRevision >= 0
    ensures var front, last := saved[..|saved| - 1], saved[|saved| - 1];
            var terminal := R.Terminal(last.routeID, last.routeRevision, last.bundleDigest);
            && TerminalOrder(saved) == TerminalOrder(front) + [last.bundleID]
            && TerminalMap(saved) == TerminalMap(front)[last.bundleID := terminal]
            && (TerminalsLoad(saved, expected, pending) <==>
                && TerminalsLoad(front, expected, pending)
                && NonZero(last.bundleID) && RouteFits(last.routeID, expected)
                   && 0 <= last.routeRevision <= MAX_SAFE_INTEGER
                && last.bundleID !in pending && last.bundleID !in TerminalOrder(front))
  {
  }

  lemma TerminalBack(completed: map<Id, R.Terminal>, front: seq<Id>, last: Id, saved: seq<SavedTerminal>,
                     expected: Option<Id>, pending: set<Id>)
    requires saved != [] && forall i :: 0 <= i < |saved| ==> saved[i].routeRevision >= 0
    requires (forall b :: b in front ==> b in completed) && last in completed && last !in front && last !in pending
    requires NonZero(last) && R.TerminalFit(completed[last]) && RouteFits(completed[last].routeID, expected)
    requires saved[|saved| - 1]
          == SavedTerminal(last, completed[last].routeID, completed[last].routeRevision, completed[last].bundleDigest)
    requires TerminalsLoad(saved[..|saved| - 1], expected, pending) && TerminalOrder(saved[..|saved| - 1]) == front
    requires TerminalMap(saved[..|saved| - 1]) == (map b | b in front :: completed[b])
    ensures TerminalsLoad(saved, expected, pending) && TerminalOrder(saved) == front + [last]
    ensures (forall b :: b in front + [last] ==> b in completed)
    ensures TerminalMap(saved) == (map b | b in front + [last] :: completed[b])
  {
    hide RouteFits, TerminalsLoad, TerminalMap, TerminalOrder;
    assert forall b :: b in front + [last] <==> b in front || b == last;
    UnfoldTerminals(saved, expected, pending);
  }

  /** Every route named by the state is the expected one, when one is expected. */
  ghost predicate OnRoute(s: R.State, expected: Option<Id>) {
    expected.Some? ==>
      (&& (forall b :: b in s.pending ==> s.pending[b].routeID == expected.value)
       && (forall b :: b in s.completed ==> s.completed[b].routeID == expected.value))
  }

  lemma DigestsCounted(digests: map<Id, Id>)
    ensures |SaveDigests(digests)| == |digests.Keys|
  {
    DigestsListed(digests);
    assert |digests| == |digests.Keys|;
  }

  lemma SavedBoundsFit(s: R.State)
    requires R.Valid(s) && Saveable(s)
    ensures BoundsFit(SnapshotOf(s))
  {
    hide R.WellFormed, R.TotalBytes, R.TerminalsFit, R.PacketIDs, PacketsOf, Keepable, SaveBundles;
    hide SaveTerminals, SaveDigests, ListsDigests;
    ValidIsKeepable(s, None);
    DigestsCounted(s.packetDigests);
    DigestBudget(s.pending, s.pendingOrder, None, s.maximumBufferedBytes);
    AllPackets(s);
    DistinctSize(s.pendingOrder);
    DistinctSize(s.completedOrder);
    assert |s.packetDigests| == |s.packetDigests.Keys| && |s.pending| == |s.pending.Keys|;
    assert |s.pendingOrder| * MAXIMUM_FRAGMENTS <= s.maximumBufferedBundles * MAXIMUM_FRAGMENTS;
  }

  lemma AllPackets(s: R.State)
    requires R.Lists(s.pendingOrder, s.pending.Keys) && forall b :: b in s.pendingOrder ==> b in s.pending
    ensures PacketsOf(s.pending, s.pendingOrder) == R.PacketIDs(s.pending)
    ensures (map b | b in s.pendingOrder :: s.pending[b]) == s.pending
  {
    assert forall b :: b in s.pending ==> b in Elements(s.pendingOrder);
    assert forall b :: b in s.pendingOrder ==> b in Elements(s.pendingOrder);
  }

  lemma AllTerminals(s: R.State)
    requires R.Lists(s.completedOrder, s.completed.Keys) && forall b :: b in s.completedOrder ==> b in s.completed
    ensures (map b | b in s.completedOrder :: s.completed[b]) == s.completed
  {
    assert forall b :: b in s.completed ==> b in Elements(s.completedOrder);
  }

  lemma ValidIsSaveable(s: R.State)
    requires R.Valid(s)
    ensures Saveable(s)
  {
    assert forall b :: b in s.pendingOrder ==> b in Elements(s.pendingOrder);
    assert forall b :: b in s.completedOrder ==> b in Elements(s.completedOrder);
  }

  lemma ValidIsKeepable(s: R.State, expected: Option<Id>)
    requires R.Valid(s) && OnRoute(s, expected)
    ensures Keepable(s.pending, s.pendingOrder, expected, s.maximumBufferedBytes)
  {
    hide R.TotalBytes, R.TerminalsFit;
    assert forall b :: b in s.pendingOrder ==> b in Elements(s.pendingOrder);
  }

  lemma DigestsBack(digests: map<Id, Id>, saved: seq<SavedDigest>)
    requires (forall id :: id in digests ==> NonZero(id)) && ListsDigests(saved, digests)
             && NamesEveryDigest(saved, digests)
    ensures DigestsLoad(saved) && DigestMap(saved) == digests
  {
    if saved == [] {
      return;
    }
    hide DigestMap, DigestsLoad;
    assert saved[..|saved|] == saved;
    SavedDigestsBack(digests, saved, |saved|);
    assert forall k :: k in digests ==> k in DigestMap(saved);
  }

  lemma NonZeroDigests(s: R.State)
    requires R.Valid(s)
    ensures forall id :: id in s.packetDigests ==> NonZero(id)
  {
    hide R.TotalBytes, R.TerminalsFit, R.Lists;
    forall id | id in s.packetDigests ensures NonZero(id) {
      assert id in R.PacketIDs(s.pending);
      var b :| b in s.pending && id in s.pending[b].packetIDs;
      assert R.WellFormed(s.pending[b], s.maximumBufferedBytes);
    }
  }

  /**
   * Saving and restoring is the identity on every valid state: the snapshot is
   * accepted, also when its one route is checked, and nothing about later
   * packets can differ.
   */
  lemma RestoreUndoesSnapshot(s: R.State, expected: Option<Id>)
    requires R.Valid(s) && OnRoute(s, expected)
    ensures Saveable(s) && Accepts(SnapshotOf(s), expected) && Restored(SnapshotOf(s), expected) == s
  {
    hide R.WellFormed, R.TotalBytes, R.PendingFit, R.PacketIDs, BoundsFit, Keepable, DigestsLoad;
    hide TerminalsLoad, BundlesLoad, SaveBundles, SaveDigests, SaveTerminals, PendingMap, TerminalMap;
    hide DigestMap, BundleOrder, TerminalOrder, SavedBytes, SavedPacketIDs;
    ValidIsSaveable(s);
    SavedBoundsFit(s);
    ValidIsKeepable(s, expected);
    SavedBundlesBack(s.pending, s.pendingOrder, expected, s.maximumBufferedBytes);
    AllPackets(s);
    AllTerminals(s);
    NonZeroDigests(s);
    DigestsListed(s.packetDigests);
    DigestsBack(s.packetDigests, SaveDigests(s.packetDigests));
    assert OrderKeys(s.pendingOrder) == Elements(s.pendingOrder) == s.pending.Keys;
    TerminalRoutes(s, expected);
    SavedTerminalsBack(s.completed, s.completedOrder, expected, s.pending.Keys);
  }

  lemma TerminalRoutes(s: R.State, expected: Option<Id>)
    requires R.Valid(s) && OnRoute(s, expected) && Saveable(s)
    ensures forall b :: b in s.completedOrder ==>
              b in s.completed && b !in s.pending.Keys && RouteFits(s.completed[b].routeID, expected)
  {
  }

  lemma {:induction false} OrderNames(saved: seq<SavedBundle>, b: Id) returns (i: nat)
    requires b in BundleOrder(saved)
    ensures i < |saved| && saved[i].bundleID == b
  {
    if b in BundleOrder(saved[..|saved| - 1]) {
      i := OrderNames(saved[..|saved| - 1], b);
    } else {
      i := |saved| - 1;
    }
  }

  lemma {:induction false} OrderHas(saved: seq<SavedBundle>, i: nat)
    requires i < |saved|
    ensures saved[i].bundleID in BundleOrder(saved)
  {
    if i < |saved| - 1 {
      OrderHas(saved[..|saved| - 1], i);
    }
  }

  /** A saved bundle is pending as it was saved. */
  lemma {:induction false} SavedIsHeld(saved: seq<SavedBundle>, i: nat, expected: Option<Id>, m: nat)
    requires BundlesLoad(saved, expected, m) && i < |saved|
    ensures forall j :: 0 <= j < |saved| ==> BundleFits(saved[j])
    ensures saved[i].bundleID in PendingMap(saved) && PendingMap(saved)[saved[i].bundleID] == PendingFrom(saved[i])
    ensures |PendingFrom(saved[i]).fragments| == |saved[i].fragments|
  {
    hide BundleFits, BundleLoads, PendingFrom, PendingMap, BundleOrder, SavedBytes, SavedPacketIDs;
    BundlesFit(saved, expected, m);
    UnfoldBundles(saved);
    var front, last := saved[..|saved| - 1], saved[|saved| - 1];
    if i < |front| {
      SavedIsHeld(front, i, expected, m);
      OrderHas(front, i);
      assert front[i] == saved[i];
    } else {
      AllFragmentsLoaded(last, expected, SavedBytes(front), SavedPacketIDs(front), m);
    }
  }

  lemma AllFragmentsLoaded(b: SavedBundle, expected: Option<Id>, bytes: nat, earlier: set<Id>, m: nat)
    requires BundleLoads(b, expected, bytes, earlier, m)
    ensures BundleFits(b) && |PendingFrom(b).fragments| == |b.fragments|
  {
    LoadedFragments(b, |b.fragments|, bytes, m);
    assert b.fragments[..|b.fragments|] == b.fragments;
  }

  predicate HeldAsSaved(s: R.State, b: SavedBundle) {
    && b.bundleID in s.pending && |s.pending[b.bundleID].fragments| == |b.fragments|
    && s.pending[b.bundleID].fragmentCount == b.fragmentCount
  }

  lemma KeyIsListed(pending: map<Id, R.Pending>, order: seq<Id>, ids: set<Id>, bytes: nat, m: nat, b: Id)
    requires PendingGood(pending, order, ids, bytes, m) && b in pending
    ensures b in order
  {
    ListedKey(pending, order, b);
  }

  /**
   * Which accepted snapshots restore to what runs reach: every pending bundle
   * misses a fragment exactly when every saved one lists fewer than it counts.
   */
  lemma RestoredMissesExactly(v: Snapshot, expected: Option<Id>)
    requires Accepts(v, expected)
    ensures R.Incomplete(Restored(v, expected))
       <==> forall i :: 0 <= i < |v.pendingBundles| ==>
         |v.pendingBundles[i].fragments| < v.pendingBundles[i].fragmentCount
    ensures forall i :: 0 <= i < |v.pendingBundles| ==> HeldAsSaved(Restored(v, expected), v.pendingBundles[i])
  {
    hide BundlesLoad, TerminalsLoad, DigestsLoad, PendingMap, TerminalMap, DigestMap, BundleOrder;
    hide FragmentMap, BoundsFit, PendingGood;
    var saved, m := v.pendingBundles, v.maximumBufferedBytes;
    var s := Restored(v, expected);
    forall i | 0 <= i < |saved| ensures HeldAsSaved(s, saved[i]) {
      SavedIsHeld(saved, i, expected, m);
    }
    if !R.Incomplete(s) {
      var b :| b in s.pending && |s.pending[b].fragments| >= s.pending[b].fragmentCount;
      LoadedBundles(saved, expected, m);
      KeyIsListed(PendingMap(saved), BundleOrder(saved), SavedPacketIDs(saved), SavedBytes(saved), m, b);
      var i := OrderNames(saved, b);
      assert HeldAsSaved(s, saved[i]);
    }
  }

  /** A snapshot can hold a bundle that misses nothing, which no run from the constructor reaches. */
  lemma RestoreAcceptsFullBundle() returns (v: Snapshot)
    ensures Accepts(v, None) && !R.Incomplete(Restored(v, None))
  {
    var b := SavedBundle(1, 1, 0, 4096, 0, 1, 1, [SavedFragment(0, [0])], [1]);
    v := Snapshot(1, 1, [b], [SavedDigest(1, 0)], []);
    assert FragmentsLoad(b, 0, 0, 1);
    assert b.fragments[..1] == b.fragments && b.fragments[..0] == [];
    assert FragmentBytes(b.fragments) == 1;
    assert FragmentsLoad(b, 1, 0, 1);
    assert PacketsLoad(b, 1, {});
    assert v.pendingBundles[..0] == [] && v.packetDigests[..0] == [];
    assert BundlesLoad([], None, 1) && SavedBytes([]) == 0 && SavedPacketIDs([]) == {} && BundleOrder([]) == [];
    assert BundleLoads(b, None, 0, {}, 1);
    assert BundlesLoad(v.pendingBundles, None, 1);
    assert SavedPacketIDs(v.pendingBundles) == {1};
    assert DigestMap(v.packetDigests).Keys == {1};
    assert FragmentMap(b.fragments) == map[0 := [0]];
    assert PendingMap(v.pendingBundles)[1] == PendingFrom(b);
    var p := Restored(v, None).pending[1];
    assert |p.fragments| == 1 && p.fragmentCount == 1;
  }

  // ---- A failed prefix fails the whole ----

  lemma {:induction false} FragmentsLoadPrefix(b: SavedBundle, k: nat, n: nat, bytes: nat, m: nat)
    requires BundleFits(b) && k <= n <= |b.fragments| && FragmentsLoad(b, n, bytes, m)
    ensures FragmentsLoad(b, k, bytes, m)
  {
    if k < n {
      FragmentsLoadPrefix(b, k, n - 1, bytes, m);
    }
  }

  lemma {:induction false} PacketsLoadPrefix(b: SavedBundle, k: nat, n: nat, earlier: set<Id>)
    requires k <= n <= |b.packetIDs| && PacketsLoad(b, n, earlier)
    ensures PacketsLoad(b, k, earlier)
  {
    if k < n {
      PacketsLoadPrefix(b, k, n - 1, earlier);
    }
  }

  lemma {:induction false} BundlesLoadPrefix(saved: seq<SavedBundle>, k: nat, expected: Option<Id>, m: nat)
    requires k <= |saved| && BundlesLoad(saved, expected, m)
    ensures BundlesLoad(saved[..k], expected, m)
  {
    hide BundleLoads, BundleOrder, SavedPacketIDs, SavedBytes;
    if k == |saved| {
      assert saved[..k] == saved;
    } else {
      BundlesLoadPrefix(saved[..|saved| - 1], k, expected, m);
      assert saved[..|saved| - 1][..k] == saved[..k];
    }
  }

  lemma {:induction false} DigestsLoadPrefix(saved: seq<SavedDigest>, k: nat)
    requires k <= |saved| && DigestsLoad(saved)
    ensures DigestsLoad(saved[..k])
  {
    if k == |saved| {
      assert saved[..k] == saved;
    } else {
      DigestsLoadPrefix(saved[..|saved| - 1], k);
      assert saved[..|saved| - 1][..k] == saved[..k];
    }
  }

  lemma {:induction false} TerminalsLoadPrefix(saved: seq<SavedTerminal>, k: nat, expected: Option<Id>,
                                               pending: set<Id>)
    requires k <= |saved| && TerminalsLoad(saved, expected, pending)
    ensures TerminalsLoad(saved[..k], expected, pending)
  {
    if k == |saved| {
      assert saved[..k] == saved;
    } else {
      TerminalsLoadPrefix(saved[..|saved| - 1], k, expected, pending);
      assert saved[..|saved| - 1][..k] == saved[..k];
    }
  }

  /** What one more bundle adds to a loaded prefix. */
  lemma NextBundle(saved: seq<SavedBundle>, n: nat, expected: Option<Id>, m: nat)
    requires n < |saved| && BundlesLoad(saved[..n], expected, m)
    ensures BundlesLoad(saved[..n + 1], expected, m)
       <==> BundleLoads(saved[n], expected, SavedBytes(saved[..n]), SavedPacketIDs(saved[..n]), m)
            && saved[n].bundleID !in BundleOrder(saved[..n])
    ensures BundleOrder(saved[..n + 1]) == BundleOrder(saved[..n]) + [saved[n].bundleID]
    ensures SavedPacketIDs(saved[..n + 1]) == SavedPacketIDs(saved[..n]) + (set id | id in saved[n].packetIDs)
    ensures SavedBytes(saved[..n + 1]) == SavedBytes(saved[..n]) + FragmentBytes(saved[n].fragments)
    ensures (forall i :: 0 <= i < n ==> BundleFits(saved[i])) && BundleFits(saved[n]) ==>
              PendingMap(saved[..n + 1]) == PendingMap(saved[..n])[saved[n].bundleID := PendingFrom(saved[n])]
  {
    hide BundleLoads, BundleFits;
    assert saved[..n + 1][..n] == saved[..n];
  }

  // ---- Exactly which snapshots are accepted ----

  lemma {:induction false} MappedIndex(saved: seq<SavedFragment>, index: nat)
    requires forall i :: 0 <= i < |saved| ==> saved[i].index >= 0
    ensures index in FragmentMap(saved) <==> exists i :: 0 <= i < |saved| && saved[i].index == index
  {
    if saved != [] {
      var front, last := saved[..|saved| - 1], saved[|saved| - 1];
      MappedIndex(front, index);
      if exists i :: 0 <= i < |saved| && saved[i].index == index {
        var i :| 0 <= i < |saved| && saved[i].index == index;
        assert i < |front| ==> front[i].index == index;
      }
      if exists i :: 0 <= i < |front| && front[i].index == index {
        var i :| 0 <= i < |front| && front[i].index == index;
        assert saved[i].index == index;
      }
      assert saved[|saved| - 1] == last;
    }
  }

  lemma BytesOfMore(b: SavedBundle, n: nat)
    requires 0 < n <= |b.fragments|
    ensures FragmentBytes(b.fragments[..n]) == FragmentBytes(b.fragments[..n - 1]) + |b.fragments[n - 1].payload|
  {
    assert b.fragments[..n][..n - 1] == b.fragments[..n - 1];
  }

  /** Loading one after the other checks what each fragment is, that no index comes twice, and the sum. */
  lemma {:induction false} FragmentsLoadExactly(b: SavedBundle, n: nat, bytes: nat, m: nat)
    requires BundleFits(b) && n <= |b.fragments|
    ensures FragmentsLoad(b, n, bytes, m) <==>
            && (forall i :: 0 <= i < n ==> FragmentFits(b, b.fragments[i]))
            && (forall i, j :: 0 <= i < j < n ==> b.fragments[i].index != b.fragments[j].index)
            && (n > 0 ==> bytes + FragmentBytes(b.fragments[..n]) <= m)
  {
    hide FragmentFits;
    if n > 0 {
      FragmentsLoadExactly(b, n - 1, bytes, m);
      BytesOfMore(b, n);
      if forall i :: 0 <= i < n ==> FragmentFits(b, b.fragments[i]) {
        forall i | 0 <= i < n ensures b.fragments[i].index >= 0 {
          FittingIndex(b, b.fragments[i]);
        }
        MappedIndex(b.fragments[..n - 1], b.fragments[n - 1].index);
      }
    }
  }

  lemma FittingIndex(b: SavedBundle, f: SavedFragment)
    requires BundleFits(b) && FragmentFits(b, f)
    ensures f.index >= 0
  {
  }

  lemma {:induction false} PacketsLoadExactly(b: SavedBundle, n: nat, earlier: set<Id>)
    requires n <= |b.packetIDs|
    ensures PacketsLoad(b, n, earlier) <==>
            && (forall i :: 0 <= i < n ==> b.packetIDs[i] != 0 && b.packetIDs[i] !in earlier)
            && forall i, j :: 0 <= i < j < n ==> b.packetIDs[i] != b.packetIDs[j]
  {
    if n > 0 {
      PacketsLoadExactly(b, n - 1, earlier);
      if b.packetIDs[n - 1] in b.packetIDs[..n - 1] {
        var i :| 0 <= i < n - 1 && b.packetIDs[..n - 1][i] == b.packetIDs[n - 1];
        assert b.packetIDs[i] == b.packetIDs[n - 1];
      }
      forall i | 0 <= i < n - 1 ensures b.packetIDs[i] in b.packetIDs[..n - 1] {
      }
    }
  }

  /** What is asked of a saved bundle by itself. */
  ghost predicate BundleSound(b: SavedBundle, expected: Option<Id>, m: nat) {
    && b.bundleID != 0 && b.routeID != 0 && (expected.Some? ==> b.routeID == expected.value)
    && 0 <= b.routeRevision <= 9007199254740991
    && (b.paddingBucket == 4096 || b.paddingBucket == 16384 || b.paddingBucket == 65536)
    && 1 <= b.totalPayloadBytes <= m && 1 <= b.fragmentCount <= 4096
    && (b.fragmentCount - 1) * (b.paddingBucket - 150) < b.totalPayloadBytes
    && b.totalPayloadBytes <= b.fragmentCount * (b.paddingBucket - 150)
    && 0 < |b.fragments| <= b.fragmentCount && |b.packetIDs| == |b.fragments|
    && (forall i :: 0 <= i < |b.fragments| ==>
          var f := b.fragments[i];
          && 0 <= f.index < b.fragmentCount
          && |f.payload| == if f.index == b.fragmentCount - 1
                            then b.totalPayloadBytes - (b.fragmentCount - 1) * (b.paddingBucket - 150)
                            else b.paddingBucket - 150)
    && (forall i, j :: 0 <= i < j < |b.fragments| ==> b.fragments[i].index != b.fragments[j].index)
    && (forall i :: 0 <= i < |b.packetIDs| ==> b.packetIDs[i] != 0)
    && forall i, j :: 0 <= i < j < |b.packetIDs| ==> b.packetIDs[i] != b.packetIDs[j]
  }

  lemma CountByMultiples(b: SavedBundle)
    requires ValidBucket(b.paddingBucket) && 1 <= b.totalPayloadBytes && 1 <= b.fragmentCount
    ensures CeilDiv(b.totalPayloadBytes, Capacity(b.paddingBucket)) == b.fragmentCount <==>
            (b.fragmentCount - 1) * (b.paddingBucket - 150) < b.totalPayloadBytes
            <= b.fragmentCount * (b.paddingBucket - 150)
  {
    var capacity := Capacity(b.paddingBucket);
    assert capacity == b.paddingBucket - 150;
    CeilDivBounds(b.totalPayloadBytes, capacity);
    var count := CeilDiv(b.totalPayloadBytes, capacity);
    if (b.fragmentCount - 1) * capacity < b.totalPayloadBytes <= b.fragmentCount * capacity {
      OnlyCount(b.totalPayloadBytes, capacity, b.fragmentCount, count);
    }
  }

  lemma BundleLoadsExactly(b: SavedBundle, expected: Option<Id>, bytes: nat, earlier: set<Id>, m: nat)
    ensures BundleLoads(b, expected, bytes, earlier, m) <==>
            && BundleSound(b, expected, m) && bytes + FragmentBytes(b.fragments) <= m
            && forall i :: 0 <= i < |b.packetIDs| ==> b.packetIDs[i] !in earlier
  {
    hide FragmentsLoad, PacketsLoad, CeilDiv;
    PacketsLoadExactly(b, |b.packetIDs|, earlier);
    if ValidBucket(b.paddingBucket) && 1 <= b.totalPayloadBytes && 1 <= b.fragmentCount {
      CountByMultiples(b);
    }
    if BundleFits(b) {
      FragmentsLoadExactly(b, |b.fragments|, bytes, m);
      assert b.fragments[..|b.fragments|] == b.fragments;
    }
  }

  /** Every bundle is sound, no bundle and no packet comes twice, and together they fit the budget. */
  ghost predicate BundlesSound(saved: seq<SavedBundle>, expected: Option<Id>, m: nat) {
    && (forall i :: 0 <= i < |saved| ==> BundleSound(saved[i], expected, m))
    && (forall i, j :: 0 <= i < j < |saved| ==> saved[i].bundleID != saved[j].bundleID)
    && (forall i, j :: 0 <= i < j < |saved| ==> DisjointPackets(saved[i], saved[j]))
    && SavedBytes(saved) <= m
  }

  ghost predicate DisjointPackets(a: SavedBundle, b: SavedBundle) {
    forall k :: 0 <= k < |b.packetIDs| ==> b.packetIDs[k] !in a.packetIDs
  }

  lemma {:induction false} EarlierPackets(saved: seq<SavedBundle>, b: SavedBundle)
    ensures (forall k :: 0 <= k < |b.packetIDs| ==> b.packetIDs[k] !in SavedPacketIDs(saved)) <==>
            forall i :: 0 <= i < |saved| ==> DisjointPackets(saved[i], b)
  {
    if saved != [] {
      var front, last := saved[..|saved| - 1], saved[|saved| - 1];
      EarlierPackets(front, b);
      forall i | 0 <= i < |front| ensures front[i] == saved[i] {
      }
      assert forall id :: id in SavedPacketIDs(saved) <==> id in SavedPacketIDs(front) || id in last.packetIDs;
    }
  }

  lemma {:induction false} EarlierBundles(saved: seq<SavedBundle>, b: Id)
    ensures b in BundleOrder(saved) <==> exists i :: 0 <= i < |saved| && saved[i].bundleID == b
  {
    if saved != [] {
      var front := saved[..|saved| - 1];
      EarlierBundles(front, b);
      if exists i :: 0 <= i < |front| && front[i].bundleID == b {
        var i :| 0 <= i < |front| && front[i].bundleID == b;
        assert saved[i].bundleID == b;
      }
      if exists i :: 0 <= i < |saved| && saved[i].bundleID == b {
        var i :| 0 <= i < |saved| && saved[i].bundleID == b;
        assert i < |front| ==> front[i].bundleID == b;
      }
    }
  }

  lemma {:induction false} BundlesLoadExactly(saved: seq<SavedBundle>, expected: Option<Id>, m: nat)
    ensures BundlesLoad(saved, expected, m) <==> BundlesSound(saved, expected, m)
  {
    hide BundleLoads, BundleSound, DisjointPackets;
    if saved != [] {
      var front, last := saved[..|saved| - 1], saved[|saved| - 1];
      BundlesLoadExactly(front, expected, m);
      BundleLoadsExactly(last, expected, SavedBytes(front), SavedPacketIDs(front), m);
      EarlierPackets(front, last);
      EarlierBundles(front, last.bundleID);
      assert forall i :: 0 <= i < |front| ==> front[i] == saved[i];
    }
  }

  lemma {:induction false} DigestKeys(saved: seq<SavedDigest>, id: Id)
    ensures id in DigestMap(saved) <==> exists i :: 0 <= i < |saved| && saved[i].packetID == id
  {
    if saved != [] {
      var front := saved[..|saved| - 1];
      DigestKeys(front, id);
      if exists i :: 0 <= i < |front| && front[i].packetID == id {
        var i :| 0 <= i < |front| && front[i].packetID == id;
        assert saved[i].packetID == id;
      }
      if exists i :: 0 <= i < |saved| && saved[i].packetID == id {
        var i :| 0 <= i < |saved| && saved[i].packetID == id;
        assert i < |front| ==> front[i].packetID == id;
      }
    }
  }

  lemma {:induction false} DigestsLoadExactly(saved: seq<SavedDigest>)
    ensures DigestsLoad(saved) <==>
            && (forall i :: 0 <= i < |saved| ==> saved[i].packetID != 0)
            && forall i, j :: 0 <= i < j < |saved| ==> saved[i].packetID != saved[j].packetID
  {
    if saved != [] {
      var front, last := saved[..|saved| - 1], saved[|saved| - 1];
      DigestsLoadExactly(front);
      DigestKeys(front, last.packetID);
      assert forall i :: 0 <= i < |front| ==> front[i] == saved[i];
    }
  }

  lemma {:induction false} EarlierTerminals(saved: seq<SavedTerminal>, b: Id)
    ensures b in TerminalOrder(saved) <==> exists i :: 0 <= i < |saved| && saved[i].bundleID == b
  {
    if saved != [] {
      var front := saved[..|saved| - 1];
      EarlierTerminals(front, b);
      if exists i :: 0 <= i < |front| && front[i].bundleID == b {
        var i :| 0 <= i < |front| && front[i].bundleID == b;
        assert saved[i].bundleID == b;
      }
      if exists i :: 0 <= i < |saved| && saved[i].bundleID == b {
        var i :| 0 <= i < |saved| && saved[i].bundleID == b;
        assert i < |front| ==> front[i].bundleID == b;
      }
    }
  }

  ghost predicate TerminalSound(t: SavedTerminal, expected: Option<Id>, pending: seq<SavedBundle>) {
    && t.bundleID != 0 && t.routeID != 0 && (expected.Some? ==> t.routeID == expected.value)
    && 0 <= t.routeRevision <= 9007199254740991
    && forall i :: 0 <= i < |pending| ==> pending[i].bundleID != t.bundleID
  }

  lemma {:induction false} TerminalsLoadExactly(saved: seq<SavedTerminal>, expected: Option<Id>,
                                                pending: seq<SavedBundle>)
    ensures TerminalsLoad(saved, expected, OrderKeys(BundleOrder(pending))) <==>
            && (forall i :: 0 <= i < |saved| ==> TerminalSound(saved[i], expected, pending))
            && forall i, j :: 0 <= i < j < |saved| ==> saved[i].bundleID != saved[j].bundleID
  {
    if saved != [] {
      var front, last := saved[..|saved| - 1], saved[|saved| - 1];
      TerminalsLoadExactly(front, expected, pending);
      EarlierTerminals(front, last.bundleID);
      EarlierBundles(pending, last.bundleID);
      assert forall i :: 0 <= i < |front| ==> front[i] == saved[i];
    }
  }

  /**
   * A snapshot is accepted exactly when its limits and counts are in range,
   * every pending bundle is sound by itself, no bundle and no packet comes
   * twice, the fragments fit the byte budget, the packet digests name exactly
   * the packets of the pending bundles, once each, and every finished bundle is
   * on the route and neither pending nor repeated.
   */
  lemma AcceptsExactly(v: Snapshot, expected: Option<Id>)
    ensures Accepts(v, expected) <==>
            && 1 <= v.maximumBufferedBundles <= 256 && 1 <= v.maximumBufferedBytes <= 67108864
            && |v.pendingBundles| <= v.maximumBufferedBundles && |v.completedBundles| <= 1024
            && |v.packetDigests| <= v.maximumBufferedBundles * 4096
            && |v.packetDigests| <= v.maximumBufferedBytes + v.maximumBufferedBundles
            && BundlesSound(v.pendingBundles, expected, v.maximumBufferedBytes)
            && (forall i :: 0 <= i < |v.packetDigests| ==> v.packetDigests[i].packetID != 0)
            && (forall i, j :: 0 <= i < j < |v.packetDigests| ==>
                  v.packetDigests[i].packetID != v.packetDigests[j].packetID)
            && (forall id :: Digested(v, id) <==> PendingPacket(v, id))
            && (forall i :: 0 <= i < |v.completedBundles| ==>
                  TerminalSound(v.completedBundles[i], expected, v.pendingBundles))
            && forall i, j :: 0 <= i < j < |v.completedBundles| ==>
                 v.completedBundles[i].bundleID != v.completedBundles[j].bundleID
  {
    hide BundlesLoad, DigestsLoad, TerminalsLoad, BundlesSound, TerminalSound;
    if 1 <= v.maximumBufferedBytes {
      BundlesLoadExactly(v.pendingBundles, expected, v.maximumBufferedBytes);
    }
    DigestsLoadExactly(v.packetDigests);
    TerminalsLoadExactly(v.completedBundles, expected, v.pendingBundles);
    forall id ensures id in DigestMap(v.packetDigests) <==> Digested(v, id) {
      DigestKeys(v.packetDigests, id);
    }
    forall id ensures id in SavedPacketIDs(v.pendingBundles) <==> PendingPacket(v, id) {
      PacketKeys(v.pendingBundles, id);
    }
  }

  ghost predicate Digested(v: Snapshot, id: Id) {
    exists i :: 0 <= i < |v.packetDigests| && v.packetDigests[i].packetID == id
  }

  ghost predicate PendingPacket(v: Snapshot, id: Id) {
    exists i :: 0 <= i < |v.pendingBundles| && id in v.pendingBundles[i].packetIDs
  }

  lemma {:induction false} PacketKeys(saved: seq<SavedBundle>, id: Id)
    ensures id in SavedPacketIDs(saved) <==> exists i :: 0 <= i < |saved| && id in saved[i].packetIDs
  {
    if saved != [] {
      var front := saved[..|saved| - 1];
      PacketKeys(front, id);
      if exists i :: 0 <= i < |front| && id in front[i].packetIDs {
        var i :| 0 <= i < |front| && id in front[i].packetIDs;
        assert id in saved[i].packetIDs;
      }
      if exists i :: 0 <= i < |saved| && id in saved[i].packetIDs {
        var i :| 0 <= i < |saved| && id in saved[i].packetIDs;
        assert i < |front| ==> id in front[i].packetIDs;
      }
    }
  }
}
