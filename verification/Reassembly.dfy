/**
 * What bounded reassembly computes (src/opaque-route-packet-v2.js): the state
 * of the reassembler as a value, each operation as a function of it, and the
 * invariant every operation keeps.
 */
module Reassembly {
  import opened Wrappers
  import opened Bytes
  import opened Collections
  import opened PacketFrame
  import opened PacketSealing

  const MAXIMUM_TOMBSTONES := 1024

  datatype Pending = Pending(
    routeID: Id,
    routeRevision: nat,
    paddingBucket: nat,
    bundleDigest: Id,
    fragmentCount: nat,
    totalPayloadBytes: nat,
    fragments: map<nat, seq<Byte>>,
    packetIDs: set<Id>)

  datatype Terminal = Terminal(routeID: Id, routeRevision: nat, bundleDigest: Id)

  datatype State = State(
    maximumBufferedBundles: nat,
    maximumBufferedBytes: nat,
    pending: map<Id, Pending>,
    pendingOrder: seq<Id>,
    packetDigests: map<Id, Id>,
    completed: map<Id, Terminal>,
    completedOrder: seq<Id>,
    bufferedBytes: int)

  datatype Bundle = Bundle(routeID: Id, routeRevision: nat, bundleID: Id, bundleDigest: Id, payload: seq<Byte>)

  datatype Outcome =
    | Duplicate
    | Accepted
    | Complete(bundle: Bundle)
    | Failed(error: PacketError)

  datatype Step = Step(state: State, outcome: Outcome)

  // ---- Quantities ----

  /** Octets held in fragments 0..n. */
  function HeldBytes(fragments: map<nat, seq<Byte>>, n: nat): nat {
    if n == 0 then 0
    else HeldBytes(fragments, n - 1) + if n - 1 in fragments then |fragments[n - 1]| else 0
  }

  function BundleBytes(p: Pending): nat {
    HeldBytes(p.fragments, p.fragmentCount)
  }

  function TotalBytes(pending: map<Id, Pending>, order: seq<Id>): nat {
    if order == [] then 0
    else (if order[0] in pending then BundleBytes(pending[order[0]]) else 0) + TotalBytes(pending, order[1..])
  }

  function Assemble(fragments: map<nat, seq<Byte>>, n: nat): seq<Byte> {
    if n == 0 then []
    else Assemble(fragments, n - 1) + if n - 1 in fragments then fragments[n - 1] else []
  }

  ghost function PacketIDs(pending: map<Id, Pending>): set<Id> {
    set b, id | b in pending && id in pending[b].packetIDs :: id
  }

  // ---- Operations ----

  function Initial(maximumBufferedBundles: int, maximumBufferedBytes: int): (r: Result<State, PacketError>) {
    if maximumBufferedBundles <= 0 || maximumBufferedBundles > 256 || maximumBufferedBytes <= 0
       || maximumBufferedBytes > MAXIMUM_BUNDLE_BYTES then
      Err(ReassemblyCapacityExceeded)
    else
      Ok(State(maximumBufferedBundles, maximumBufferedBytes, map[], [], map[], map[], [], 0))
  }

  /** A reassembler has room for 1 to 256 bundles and 1 octet to 64 MiB, and begins empty. */
  lemma InitialExactly(maximumBufferedBundles: int, maximumBufferedBytes: int)
    ensures Initial(maximumBufferedBundles, maximumBufferedBytes).Ok? <==>
            1 <= maximumBufferedBundles <= 256 && 1 <= maximumBufferedBytes <= 64 * 1024 * 1024
    ensures Initial(maximumBufferedBundles, maximumBufferedBytes).Ok? ==>
              Initial(maximumBufferedBundles, maximumBufferedBytes).value
              == State(maximumBufferedBundles, maximumBufferedBytes, map[], [], map[], map[], [], 0)
  {
  }

  function RemovePending(s: State, key: Id): State {
    if key !in s.pending then s
    else
      s.(pending := s.pending - {key},
         pendingOrder := Without(s.pendingOrder, key),
         packetDigests := s.packetDigests - s.pending[key].packetIDs,
         bufferedBytes := s.bufferedBytes - BundleBytes(s.pending[key]))
  }

  function RememberTerminal(s: State, key: Id, t: Terminal): State {
    var order := s.completedOrder + [key];
    if |order| > MAXIMUM_TOMBSTONES then
      s.(completed := s.completed[key := t] - {order[0]}, completedOrder := order[1..])
    else
      s.(completed := s.completed[key := t], completedOrder := order)
  }

  function DiscardPendingBundle(s: State, key: Id): State {
    if key !in s.pending then s
    else
      var p := s.pending[key];
      RememberTerminal(RemovePending(s, key), key, Terminal(p.routeID, p.routeRevision, p.bundleDigest))
  }

  function DiscardOldestPendingBundle(s: State): State {
    if s.pendingOrder == [] then s else DiscardPendingBundle(s, s.pendingOrder[0])
  }

  function DiscardPendingBundles(s: State): State {
    s.(pending := map[], pendingOrder := [], packetDigests := map[], bufferedBytes := 0)
  }

  predicate SameBundle(p: Pending, f: Fragment) {
    && p.routeID == f.routeID && p.routeRevision == f.routeRevision && p.paddingBucket == f.paddingBucket
    && p.bundleDigest == f.bundleDigest && p.fragmentCount == f.fragmentCount
    && p.totalPayloadBytes == f.totalPayloadBytes
  }

  function NewPending(f: Fragment): Pending {
    Pending(f.routeID, f.routeRevision, f.paddingBucket, f.bundleDigest, f.fragmentCount, f.totalPayloadBytes, map[],
            {})
  }

  /** State after storing a fragment that its bundle does not hold yet. */
  function Admit(s: State, f: Fragment, operationDigest: Id): State {
    var p := if f.bundleID in s.pending then s.pending[f.bundleID] else NewPending(f);
    s.(pending := s.pending[f.bundleID := p.(fragments := p.fragments[f.fragmentIndex := f.payload],
                                             packetIDs := p.packetIDs + {f.packetID})],
       pendingOrder := if f.bundleID in s.pending then s.pendingOrder else s.pendingOrder + [f.bundleID],
       packetDigests := s.packetDigests[f.packetID := operationDigest],
       bufferedBytes := s.bufferedBytes + |f.payload|)
  }

  /** Retires the bundle of the fragment just stored when nothing is missing any more. */
  function Finish(h: Hashes, s: State, f: Fragment): Step
    requires f.bundleID in s.pending
  {
    var p := s.pending[f.bundleID];
    if |p.fragments| != p.fragmentCount then
      Step(s, Accepted)
    else
      var payload := Assemble(p.fragments, p.fragmentCount);
      if h.bundle(f.bundleID, payload) != p.bundleDigest then
        Step(DiscardPendingBundle(s, f.bundleID), Failed(BundleDigestMismatch))
      else
        var bundle := Bundle(f.routeID, p.routeRevision, f.bundleID, p.bundleDigest, payload);
        Step(RememberTerminal(RemovePending(s, f.bundleID), f.bundleID,
                              Terminal(bundle.routeID, bundle.routeRevision, bundle.bundleDigest)),
             Complete(bundle))
  }

  function ConsumeFragment(h: Hashes, s: State, f: Fragment, operationDigest: Id): Step {
    if f.bundleID in s.completed then
      if s.completed[f.bundleID] != Terminal(f.routeID, f.routeRevision, f.bundleDigest) then
        Step(s, Failed(BundleConflict))
      else Step(s, Duplicate)
    else if f.bundleID in s.pending then
      var p := s.pending[f.bundleID];
      if !SameBundle(p, f) then Step(s, Failed(BundleConflict))
      else if f.fragmentIndex in p.fragments then
        if p.fragments[f.fragmentIndex] != f.payload then Step(s, Failed(FragmentConflict)) else Step(s, Duplicate)
      else if |f.payload| > s.maximumBufferedBytes - s.bufferedBytes then Step(s, Failed(ReassemblyCapacityExceeded))
      else Finish(h, Admit(s, f, operationDigest), f)
    else if |s.pending| >= s.maximumBufferedBundles || f.totalPayloadBytes > s.maximumBufferedBytes
            || |f.payload| > s.maximumBufferedBytes - s.bufferedBytes then
      Step(s, Failed(ReassemblyCapacityExceeded))
    else Finish(h, Admit(s, f, operationDigest), f)
  }

  function Consume(h: Hashes, s: State, packet: Packet, payloadKey: Id, routeRevision: nat): Step {
    if !ValidPacket(h, packet) then
      Step(s, Failed(InvalidPacket))
    else if packet.packetID in s.packetDigests then
      if s.packetDigests[packet.packetID] != packet.authorization.operationDigest then
        Step(s, Failed(PacketIdentifierConflict))
      else Step(s, Duplicate)
    else
      match OpenValidated(packet, payloadKey, routeRevision)
      case Err(e) => Step(s, Failed(e))
      case Ok(f) => ConsumeFragment(h, s, f, packet.authorization.operationDigest)
  }

  // ---- Invariant ----

  ghost predicate WellFormed(p: Pending, maximumBufferedBytes: nat) {
    && ValidBucket(p.paddingBucket) && NonZero(p.routeID) && p.routeRevision <= MAX_SAFE_INTEGER
    && 0 < p.fragmentCount <= MAXIMUM_FRAGMENTS && 0 < p.totalPayloadBytes <= maximumBufferedBytes
    && p.fragmentCount == CeilDiv(p.totalPayloadBytes, Capacity(p.paddingBucket))
    && (forall i :: i in p.fragments ==>
          i < p.fragmentCount
          && |p.fragments[i]| == ExpectedBytes(i, p.fragmentCount, p.totalPayloadBytes, Capacity(p.paddingBucket)))
    && p.fragments != map[]
    && |p.packetIDs| == |p.fragments|
    && (forall id :: id in p.packetIDs ==> NonZero(id))
  }

  /** The order list names exactly the keys of its map, once each. */
  ghost predicate Lists(order: seq<Id>, keys: set<Id>) {
    Distinct(order) && Elements(order) == keys
  }

  ghost predicate PendingFit(pending: map<Id, Pending>, maximumBufferedBundles: nat, maximumBufferedBytes: nat) {
    && |pending| <= maximumBufferedBundles
    && forall b :: b in pending ==> NonZero(b) && WellFormed(pending[b], maximumBufferedBytes)
  }

  ghost predicate TerminalFit(t: Terminal) {
    NonZero(t.routeID) && t.routeRevision <= MAX_SAFE_INTEGER
  }

  ghost predicate TerminalsFit(completed: map<Id, Terminal>) {
    forall b :: b in completed ==> NonZero(b) && TerminalFit(completed[b])
  }

  ghost predicate PacketsDisjoint(pending: map<Id, Pending>, packetDigests: map<Id, Id>) {
    && packetDigests.Keys == PacketIDs(pending)
    && forall b, c :: b in pending && c in pending && b != c ==> pending[b].packetIDs !! pending[c].packetIDs
  }

  ghost predicate Valid(s: State) {
    && 0 < s.maximumBufferedBundles <= 256 && 0 < s.maximumBufferedBytes <= MAXIMUM_BUNDLE_BYTES
    && Lists(s.pendingOrder, s.pending.Keys)
    && Lists(s.completedOrder, s.completed.Keys) && |s.completedOrder| <= MAXIMUM_TOMBSTONES
    && s.pending.Keys !! s.completed.Keys
    && PendingFit(s.pending, s.maximumBufferedBundles, s.maximumBufferedBytes)
    && TerminalsFit(s.completed)
    && PacketsDisjoint(s.pending, s.packetDigests)
    && s.bufferedBytes == TotalBytes(s.pending, s.pendingOrder) <= s.maximumBufferedBytes
  }

  /** Every pending bundle still misses a fragment. */
  ghost predicate Incomplete(s: State) {
    forall b :: b in s.pending ==> |s.pending[b].fragments| < s.pending[b].fragmentCount
  }

  // ---- Sums ----

  lemma {:induction false} HeldBytesFrame(a: map<nat, seq<Byte>>, b: map<nat, seq<Byte>>, n: nat)
    requires forall i: nat :: i < n ==> (i in a <==> i in b) && (i in a ==> a[i] == b[i])
    ensures HeldBytes(a, n) == HeldBytes(b, n) && Assemble(a, n) == Assemble(b, n)
  {
    if n > 0 {
      HeldBytesFrame(a, b, n - 1);
    }
  }

  lemma {:induction false} HeldBytesInsert(fragments: map<nat, seq<Byte>>, i: nat, part: seq<Byte>, n: nat)
    requires i !in fragments && i < n
    ensures HeldBytes(fragments[i := part], n) == HeldBytes(fragments, n) + |part|
  {
    if i == n - 1 {
      HeldBytesFrame(fragments[i := part], fragments, n - 1);
    } else {
      HeldBytesInsert(fragments, i, part, n - 1);
    }
  }

  lemma {:induction false} HeldBytesIsAssembledLength(fragments: map<nat, seq<Byte>>, n: nat)
    ensures |Assemble(fragments, n)| == HeldBytes(fragments, n)
  {
    if n > 0 {
      HeldBytesIsAssembledLength(fragments, n - 1);
    }
  }

  lemma {:induction false} TotalBytesFrame(a: map<Id, Pending>, b: map<Id, Pending>, order: seq<Id>)
    requires forall k :: k in order ==> (k in a <==> k in b) && (k in a ==> BundleBytes(a[k]) == BundleBytes(b[k]))
    ensures TotalBytes(a, order) == TotalBytes(b, order)
  {
    if order != [] {
      TotalBytesFrame(a, b, order[1..]);
    }
  }

  lemma {:induction false} TotalBytesWithout(pending: map<Id, Pending>, order: seq<Id>, key: Id)
    requires key in order && key in pending
    ensures TotalBytes(pending, order) == TotalBytes(pending, Without(order, key)) + BundleBytes(pending[key])
  {
    if order[0] != key {
      TotalBytesWithout(pending, order[1..], key);
      var rest := Without(order[1..], key);
      assert Without(order, key) == [order[0]] + rest;
      assert ([order[0]] + rest)[1..] == rest;
    }
  }

  lemma {:induction false} TotalBytesAppend(pending: map<Id, Pending>, order: seq<Id>, key: Id)
    requires key in pending
    ensures TotalBytes(pending, order + [key]) == TotalBytes(pending, order) + BundleBytes(pending[key])
  {
    if order == [] {
      assert order + [key] == [key];
      assert TotalBytes(pending, [key][1..]) == 0;
    } else {
      TotalBytesAppend(pending, order[1..], key);
      assert (order + [key])[1..] == order[1..] + [key];
    }
  }

  /** Changing one bundle changes the total by the change of that bundle. */
  lemma TotalBytesUpdate(pending: map<Id, Pending>, order: seq<Id>, key: Id, p: Pending)
    requires Distinct(order) && key in order && key in pending
    ensures TotalBytes(pending[key := p], order) + BundleBytes(pending[key])
              == TotalBytes(pending, order) + BundleBytes(p)
  {
    TotalBytesWithout(pending, order, key);
    TotalBytesWithout(pending[key := p], order, key);
    WithoutDistinct(order, key);
    assert key !in Elements(Without(order, key));
    TotalBytesFrame(pending[key := p], pending, Without(order, key));
  }

  // ---- The invariant is kept ----

  lemma RemoveKeepsPackets(pending: map<Id, Pending>, packetDigests: map<Id, Id>, key: Id)
    requires PacketsDisjoint(pending, packetDigests) && key in pending
    ensures PacketsDisjoint(pending - {key}, packetDigests - pending[key].packetIDs)
  {
    forall id | id in PacketIDs(pending) && id !in pending[key].packetIDs
      ensures id in PacketIDs(pending - {key})
    {
      var b :| b in pending && id in pending[b].packetIDs;
      assert b in pending - {key} && id in (pending - {key})[b].packetIDs;
    }
    forall id | id in PacketIDs(pending - {key})
      ensures id in PacketIDs(pending) && id !in pending[key].packetIDs
    {
      var b :| b in pending - {key} && id in (pending - {key})[b].packetIDs;
      assert b in pending && id in pending[b].packetIDs;
    }
  }

  lemma RemoveKeepsSizes(pending: map<Id, Pending>, key: Id, n: nat, m: nat)
    requires PendingFit(pending, n, m)
    ensures PendingFit(pending - {key}, n, m)
  {
    SubsetSize((pending - {key}).Keys, pending.Keys);
  }

  lemma RemoveKeepsBytes(pending: map<Id, Pending>, order: seq<Id>, key: Id)
    requires Lists(order, pending.Keys) && key in pending
    ensures Lists(Without(order, key), (pending - {key}).Keys)
    ensures TotalBytes(pending - {key}, Without(order, key)) == TotalBytes(pending, order) - BundleBytes(pending[key])
  {
    assert key in Elements(order);
    WithoutDistinct(order, key);
    TotalBytesWithout(pending, order, key);
    forall k | k in Without(order, key) ensures k != key {
      assert k in Elements(Without(order, key));
    }
    TotalBytesFrame(pending, pending - {key}, Without(order, key));
  }

  lemma RemovePendingKeepsValid(s: State, key: Id)
    requires Valid(s) && key in s.pending
    ensures Valid(RemovePending(s, key)) && key !in RemovePending(s, key).pending
    ensures Incomplete(s) ==> Incomplete(RemovePending(s, key))
  {
    hide WellFormed, TerminalFit, PacketsDisjoint, TotalBytes, PendingFit, Lists, TerminalsFit;
    RemoveKeepsPackets(s.pending, s.packetDigests, key);
    RemoveKeepsSizes(s.pending, key, s.maximumBufferedBundles, s.maximumBufferedBytes);
    RemoveKeepsBytes(s.pending, s.pendingOrder, key);
  }

  lemma ShiftKeepsList(order: seq<Id>, completed: map<Id, Terminal>)
    requires Lists(order, completed.Keys) && order != []
    ensures Lists(order[1..], (completed - {order[0]}).Keys)
  {
    WithoutDistinct(order, order[0]);
  }

  lemma RememberTerminalKeepsValid(s: State, key: Id, t: Terminal)
    requires Valid(s) && key !in s.pending && key !in s.completed
    requires NonZero(key) && TerminalFit(t)
    ensures Valid(RememberTerminal(s, key, t))
    ensures Incomplete(s) ==> Incomplete(RememberTerminal(s, key, t))
  {
    hide PendingFit, PacketsDisjoint, WellFormed, PacketIDs, TotalBytes, TerminalFit, Lists;
    var order, completed := s.completedOrder + [key], s.completed[key := t];
    AppendKeepsList(s.completedOrder, s.completed.Keys, key);
    assert completed.Keys == s.completed.Keys + {key};
    ShiftKeepsList(order, completed);
  }

  lemma AppendKeepsList(order: seq<Id>, keys: set<Id>, key: Id)
    requires Lists(order, keys) && key !in keys
    ensures Lists(order + [key], keys + {key})
  {
    assert key !in Elements(order);
    AppendDistinct(order, key);
  }

  lemma DiscardKeepsValid(s: State, key: Id)
    requires Valid(s)
    ensures Valid(DiscardPendingBundle(s, key))
    ensures Incomplete(s) ==> Incomplete(DiscardPendingBundle(s, key))
  {
    if key in s.pending {
      var p := s.pending[key];
      RemovePendingKeepsValid(s, key);
      assert WellFormed(p, s.maximumBufferedBytes);
      RememberTerminalKeepsValid(RemovePending(s, key), key, Terminal(p.routeID, p.routeRevision, p.bundleDigest));
    }
  }

  lemma DiscardAllKeepsValid(s: State)
    requires Valid(s)
    ensures Valid(DiscardPendingBundles(s)) && Incomplete(DiscardPendingBundles(s))
  {
    hide WellFormed, TerminalFit;
    var none: map<Id, Pending> := map[];
    assert PacketIDs(none) == {};
  }

  /** What ConsumeFragment has established when it stores a fragment. */
  ghost predicate Admissible(s: State, f: Fragment) {
    && ValidBucket(f.paddingBucket) && ValidFragment(f) && NonZero(f.routeID) && NonZero(f.bundleID)
       && NonZero(f.packetID)
    && f.routeRevision <= MAX_SAFE_INTEGER
    && f.bundleID !in s.completed && f.packetID !in s.packetDigests
    && |f.payload| <= s.maximumBufferedBytes - s.bufferedBytes
    && (if f.bundleID in s.pending
        then SameBundle(s.pending[f.bundleID], f) && f.fragmentIndex !in s.pending[f.bundleID].fragments
        else |s.pending| < s.maximumBufferedBundles && f.totalPayloadBytes <= s.maximumBufferedBytes)
  }

  /** A bundle with one more fragment. */
  function WithFragment(p: Pending, f: Fragment): Pending {
    p.(fragments := p.fragments[f.fragmentIndex := f.payload], packetIDs := p.packetIDs + {f.packetID})
  }

  lemma FragmentKeepsWellFormed(p: Pending, f: Fragment, m: nat)
    requires WellFormed(p, m) && SameBundle(p, f)
    requires ValidFragment(f) && f.fragmentIndex !in p.fragments && f.packetID !in p.packetIDs && NonZero(f.packetID)
    ensures WellFormed(WithFragment(p, f), m)
    ensures BundleBytes(WithFragment(p, f)) == BundleBytes(p) + |f.payload|
  {
    var q := WithFragment(p, f);
    assert q.fragments.Keys == p.fragments.Keys + {f.fragmentIndex};
    assert |q.fragments| == |q.fragments.Keys|;
    HeldBytesInsert(p.fragments, f.fragmentIndex, f.payload, p.fragmentCount);
  }

  lemma FirstFragmentWellFormed(f: Fragment, m: nat)
    requires ValidBucket(f.paddingBucket) && ValidFragment(f) && NonZero(f.packetID) && NonZero(f.routeID)
    requires f.routeRevision <= MAX_SAFE_INTEGER && f.totalPayloadBytes <= m
    ensures WellFormed(WithFragment(NewPending(f), f), m)
    ensures BundleBytes(WithFragment(NewPending(f), f)) == |f.payload|
  {
    var p := NewPending(f);
    assert WithFragment(p, f).fragments.Keys == {f.fragmentIndex};
    assert |WithFragment(p, f).fragments| == 1;
    HeldBytesEmpty(p.fragmentCount);
    HeldBytesInsert(p.fragments, f.fragmentIndex, f.payload, p.fragmentCount);
  }

  lemma {:induction false} HeldBytesEmpty(n: nat)
    ensures HeldBytes(map[], n) == 0
  {
    if n > 0 {
      HeldBytesEmpty(n - 1);
    }
  }

  lemma AdmitKeepsPackets(pending: map<Id, Pending>, digests: map<Id, Id>, b: Id, p: Pending, id: Id, digest: Id)
    requires PacketsDisjoint(pending, digests) && id !in digests
    requires p.packetIDs == (if b in pending then pending[b].packetIDs else {}) + {id}
    ensures PacketsDisjoint(pending[b := p], digests[id := digest])
  {
    var next := pending[b := p];
    forall x | x in PacketIDs(pending) ensures x in PacketIDs(next) {
      var c :| c in pending && x in pending[c].packetIDs;
      assert c in next && x in next[c].packetIDs;
    }
    assert b in next && id in next[b].packetIDs;
    forall x | x in PacketIDs(next) && x != id ensures x in PacketIDs(pending) {
      var c :| c in next && x in next[c].packetIDs;
      assert c in pending && x in pending[c].packetIDs;
    }
    assert id !in PacketIDs(pending);
    assert forall c :: c in pending ==> id !in pending[c].packetIDs;
  }

  lemma AdmitKeepsValid(s: State, f: Fragment, operationDigest: Id)
    requires Valid(s) && Admissible(s, f)
    ensures Valid(Admit(s, f, operationDigest))
  {
    hide WellFormed, PacketIDs, TotalBytes, ValidFragment, PendingFit, Lists, TerminalsFit;
    var p := if f.bundleID in s.pending then s.pending[f.bundleID] else NewPending(f);
    var q := WithFragment(p, f);
    AdmitKeepsPackets(s.pending, s.packetDigests, f.bundleID, q, f.packetID, operationDigest);
    if f.bundleID in s.pending {
      AdmitToPending(s.pending, s.pendingOrder, s.packetDigests, f, s.maximumBufferedBundles, s.maximumBufferedBytes);
    } else {
      AdmitNew(s.pending, s.pendingOrder, f, s.maximumBufferedBundles, s.maximumBufferedBytes);
    }
  }

  lemma AdmitToPending(pending: map<Id, Pending>, order: seq<Id>, digests: map<Id, Id>, f: Fragment, n: nat, m: nat)
    requires Lists(order, pending.Keys) && PendingFit(pending, n, m) && PacketsDisjoint(pending, digests)
    requires f.bundleID in pending && ValidBucket(f.paddingBucket) && ValidFragment(f) && NonZero(f.packetID)
    requires SameBundle(pending[f.bundleID], f) && f.fragmentIndex !in pending[f.bundleID].fragments
    requires f.packetID !in digests
    ensures var next := pending[f.bundleID := WithFragment(pending[f.bundleID], f)];
            && Lists(order, next.Keys) && PendingFit(next, n, m)
            && TotalBytes(next, order) == TotalBytes(pending, order) + |f.payload|
  {
    hide WellFormed, ValidFragment, TotalBytes, BundleBytes;
    var p := pending[f.bundleID];
    assert f.packetID !in PacketIDs(pending);
    assert f.packetID !in p.packetIDs;
    FragmentKeepsWellFormed(p, f, m);
    var next := pending[f.bundleID := WithFragment(p, f)];
    assert next.Keys == pending.Keys;
    assert |next| == |next.Keys| == |pending.Keys| == |pending|;
    assert f.bundleID in Elements(order);
    TotalBytesUpdate(pending, order, f.bundleID, WithFragment(p, f));
  }

  lemma AdmitNew(pending: map<Id, Pending>, order: seq<Id>, f: Fragment, n: nat, m: nat)
    requires Lists(order, pending.Keys) && PendingFit(pending, n, m) && |pending| < n
    requires f.bundleID !in pending && ValidBucket(f.paddingBucket) && ValidFragment(f)
    requires NonZero(f.packetID) && NonZero(f.routeID) && NonZero(f.bundleID)
    requires f.routeRevision <= MAX_SAFE_INTEGER && f.totalPayloadBytes <= m
    ensures var next := pending[f.bundleID := WithFragment(NewPending(f), f)];
            && Lists(order + [f.bundleID], next.Keys) && PendingFit(next, n, m)
            && TotalBytes(next, order + [f.bundleID]) == TotalBytes(pending, order) + |f.payload|
  {
    hide WellFormed, PacketIDs, ValidFragment;
    var q := WithFragment(NewPending(f), f);
    FirstFragmentWellFormed(f, m);
    InsertNew(pending, order, f.bundleID, q);
  }

  lemma InsertNew(pending: map<Id, Pending>, order: seq<Id>, b: Id, q: Pending)
    requires Lists(order, pending.Keys) && b !in pending
    ensures Lists(order + [b], pending[b := q].Keys) && |pending[b := q]| == |pending| + 1
    ensures TotalBytes(pending[b := q], order + [b]) == TotalBytes(pending, order) + BundleBytes(q)
  {
    var next := pending[b := q];
    assert next.Keys == pending.Keys + {b};
    assert |next| == |next.Keys| == |pending.Keys| + 1;
    assert b !in Elements(order);
    AppendDistinct(order, b);
    TotalBytesAppend(next, order, b);
    TotalBytesFrame(next, pending, order);
  }

  /** A bundle whose fragments are all present reassembles to exactly its declared size. */
  lemma AssembledLength(p: Pending, maximumBufferedBytes: nat)
    requires WellFormed(p, maximumBufferedBytes) && |p.fragments| == p.fragmentCount
    ensures forall i :: 0 <= i < p.fragmentCount ==> i in p.fragments
    ensures |Assemble(p.fragments, p.fragmentCount)| == p.totalPayloadBytes
  {
    assert |p.fragments.Keys| == p.fragmentCount;
    FullRange(p.fragments.Keys, p.fragmentCount);
    RangeSize(p.fragmentCount);
    FullPrefixLength(p, maximumBufferedBytes, p.fragmentCount - 1);
    HeldBytesIsAssembledLength(p.fragments, p.fragmentCount);
  }

  lemma {:induction false} FullPrefixLength(p: Pending, maximumBufferedBytes: nat, n: nat)
    requires WellFormed(p, maximumBufferedBytes) && n < p.fragmentCount
    requires forall i :: 0 <= i < p.fragmentCount ==> i in p.fragments
    ensures HeldBytes(p.fragments, n) == n * Capacity(p.paddingBucket)
  {
    if n > 0 {
      FullPrefixLength(p, maximumBufferedBytes, n - 1);
      assert (n - 1) * Capacity(p.paddingBucket) + Capacity(p.paddingBucket) == n * Capacity(p.paddingBucket);
    }
  }

  /** Every pending bundle but `key` misses a fragment, and `key` holds no surplus. */
  ghost predicate IncompleteExcept(pending: map<Id, Pending>, key: Id) {
    && (forall b :: b in pending && b != key ==> |pending[b].fragments| < pending[b].fragmentCount)
    && (key in pending ==> |pending[key].fragments| <= pending[key].fragmentCount)
  }

  lemma OnlyTouchedBundleCanBeFull(pending: map<Id, Pending>, b: Id, q: Pending, m: nat)
    requires forall c :: c in pending ==> |pending[c].fragments| < pending[c].fragmentCount
    requires WellFormed(q, m)
    ensures IncompleteExcept(pending[b := q], b)
  {
    FullRange(q.fragments.Keys, q.fragmentCount);
    assert |q.fragments.Keys| == |q.fragments|;
  }

  lemma FinishKeepsValid(h: Hashes, s: State, f: Fragment)
    requires Valid(s) && f.bundleID in s.pending && SameBundle(s.pending[f.bundleID], f)
    ensures Valid(Finish(h, s, f).state)
    ensures IncompleteExcept(s.pending, f.bundleID) ==> Incomplete(Finish(h, s, f).state)
  {
    hide PacketsDisjoint, PacketIDs, Lists, TotalBytes, Assemble, RemovePending, RememberTerminal;
    var p := s.pending[f.bundleID];
    assert WellFormed(p, s.maximumBufferedBytes) && NonZero(f.bundleID);
    if |p.fragments| == p.fragmentCount {
      RemovePendingKeepsValid(s, f.bundleID);
      RemovedLeavesCompleted(s, f.bundleID);
      RememberTerminalKeepsValid(RemovePending(s, f.bundleID), f.bundleID,
                                 Terminal(p.routeID, p.routeRevision, p.bundleDigest));
    }
  }

  lemma RemovedLeavesCompleted(s: State, key: Id)
    requires key in s.pending
    ensures IncompleteExcept(s.pending, key) ==> Incomplete(RemovePending(s, key))
    ensures RemovePending(s, key).completed == s.completed
  {
  }

  lemma OpenedFragment(h: Hashes, packet: Packet, payloadKey: Id, routeRevision: nat)
    requires ValidPacket(h, packet) && OpenValidated(packet, payloadKey, routeRevision).Ok?
    ensures var f := OpenValidated(packet, payloadKey, routeRevision).value;
            && ValidBucket(f.paddingBucket) && ValidFragment(f) && NonZero(f.bundleID)
            && f.routeID == packet.routeID && f.packetID == packet.packetID && f.routeRevision == routeRevision
  {
  }

  lemma RejectedToOpen(packet: Packet, payloadKey: Id, routeRevision: nat)
    ensures var r := OpenValidated(packet, payloadKey, routeRevision);
            r.Err? ==> r.error in {InvalidPacket, DecryptionFailed, MalformedFrame}
  {
  }

  lemma AdmitKeepsIncomplete(s: State, f: Fragment, digest: Id)
    requires Valid(s) && Admissible(s, f)
    ensures var t := Admit(s, f, digest);
            && f.bundleID in t.pending && SameBundle(t.pending[f.bundleID], f)
            && (Incomplete(s) ==> IncompleteExcept(t.pending, f.bundleID))
  {
    hide PacketsDisjoint, PacketIDs, Lists, TotalBytes, TerminalsFit, ValidFragment;
    AdmitKeepsValid(s, f, digest);
    var t := Admit(s, f, digest);
    if Incomplete(s) {
      OnlyTouchedBundleCanBeFull(s.pending, f.bundleID, t.pending[f.bundleID], s.maximumBufferedBytes);
    }
  }

  /** Every packet whatever, answered or rejected, keeps the whole invariant. */
  lemma ConsumeKeepsValid(h: Hashes, s: State, packet: Packet, payloadKey: Id, routeRevision: nat)
    requires Valid(s) && routeRevision <= MAX_SAFE_INTEGER
    ensures var t := Consume(h, s, packet, payloadKey, routeRevision).state;
            Valid(t) && (Incomplete(s) ==> Incomplete(t))
  {
    hide PendingFit, TerminalsFit, PacketsDisjoint, Lists, TotalBytes, Finish, Admit, OpenValidated;
    hide ValidFragment, Incomplete;
    if ValidPacket(h, packet) && packet.packetID !in s.packetDigests
       && OpenValidated(packet, payloadKey, routeRevision).Ok? {
      OpenedFragment(h, packet, payloadKey, routeRevision);
      var f := OpenValidated(packet, payloadKey, routeRevision).value;
      if f.bundleID !in s.completed && Admissible(s, f) {
        var digest := packet.authorization.operationDigest;
        AdmitKeepsValid(s, f, digest);
        AdmitKeepsIncomplete(s, f, digest);
        FinishKeepsValid(h, Admit(s, f, digest), f);
      }
    }
  }

  /** A rejected or repeated packet changes nothing, unless it exposed a digest mismatch. */
  lemma RejectionLeavesState(h: Hashes, s: State, packet: Packet, payloadKey: Id, routeRevision: nat)
    ensures var step := Consume(h, s, packet, payloadKey, routeRevision);
            step.outcome.Duplicate? || (step.outcome.Failed? && step.outcome.error != BundleDigestMismatch)
            ==> step.state == s
  {
    hide OpenValidated, DiscardPendingBundle, RemovePending, RememberTerminal, Assemble, Admit, SameBundle;
    hide ValidPacket;
  }

  lemma DiscardRetires(t: State, b: Id)
    requires Lists(t.completedOrder, t.completed.Keys) && b in t.pending && b !in t.completed
    ensures var u := DiscardPendingBundle(t, b);
            b in u.completed && u.pending == t.pending - {b}
  {
    var order := t.completedOrder + [b];
    assert b !in Elements(t.completedOrder);
    if |order| > MAXIMUM_TOMBSTONES {
      assert order[0] in Elements(t.completedOrder);
    }
  }

  lemma MismatchDiscards(h: Hashes, s: State, f: Fragment, digest: Id)
    requires ConsumeFragment(h, s, f, digest).outcome == Failed(BundleDigestMismatch)
    ensures f.bundleID !in s.completed
    ensures ConsumeFragment(h, s, f, digest).state == DiscardPendingBundle(Admit(s, f, digest), f.bundleID)
  {
    hide DiscardPendingBundle, RemovePending, RememberTerminal, Assemble, SameBundle;
  }

  lemma AdmitTouchesOneBundle(s: State, f: Fragment, digest: Id)
    ensures var t := Admit(s, f, digest);
            && f.bundleID in t.pending && t.pending - {f.bundleID} == s.pending - {f.bundleID}
            && t.completed == s.completed && t.completedOrder == s.completedOrder
  {
  }

  /** A digest mismatch retires exactly the bundle that the fragment had just filled. */
  lemma MismatchRetiresBundle(h: Hashes, s: State, f: Fragment, digest: Id)
    requires Valid(s)
    requires ConsumeFragment(h, s, f, digest).outcome == Failed(BundleDigestMismatch)
    ensures var t := ConsumeFragment(h, s, f, digest).state;
            && f.bundleID !in s.completed && f.bundleID in t.completed && t.pending == s.pending - {f.bundleID}
  {
    hide PendingFit, TerminalsFit, PacketsDisjoint, TotalBytes, Lists, DiscardPendingBundle, ConsumeFragment;
    hide Admit;
    MismatchDiscards(h, s, f, digest);
    AdmitTouchesOneBundle(s, f, digest);
    DiscardRetires(Admit(s, f, digest), f.bundleID);
  }
}
