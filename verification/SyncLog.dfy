/** Pages of an opaque route's hash-chained packet log (src/opaque-route-relay-v2.js). */
module SyncLog {
  import opened PacketFrame
  import opened PacketSealing

  const MAXIMUM_SYNC_PAGE := 256

  datatype Record = Record(sequence: int, previousRecordDigest: Id, recordDigest: Id, routeRevision: int,
                           packet: Packet)

  datatype Batch = Batch(
    packets: seq<Record>,
    startsAfterSequence: int,
    startsAfterRecordDigest: Id,
    nextSequence: int,
    nextRecordDigest: Id,
    highWatermarkSequence: int,
    retentionFloorSequence: int,
    nextCursor: nat,
    hasMore: bool)

  /** What a record digest covers. The send proof's time is bound only through its MAC. */
  datatype RecordInput = RecordInput(
    previousRecordDigest: Id,
    sequence: int,
    routeRevision: int,
    routeID: Id,
    packetID: Id,
    operationDigest: Id,
    proofNonce: Id,
    proofMac: Id)

  type RecordHash = RecordInput -> Id

  function Covered(r: Record): RecordInput {
    RecordInput(r.previousRecordDigest, r.sequence, r.routeRevision, r.packet.routeID, r.packet.packetID,
                r.packet.authorization.operationDigest, r.packet.authorization.nonce, r.packet.authorization.mac)
  }

  predicate SafeInteger(x: int) {
    0 <= x <= MAX_SAFE_INTEGER
  }

  predicate PacketShape(p: Packet) {
    NonZero(p.routeID) && NonZero(p.packetID) && ValidBucket(p.sealedFrame.Size())
  }

  predicate RecordShape(r: Record) {
    1 <= r.sequence <= MAX_SAFE_INTEGER && SafeInteger(r.routeRevision) && PacketShape(r.packet)
  }

  predicate Bounds(b: Batch, maximumPackets: int) {
    && 1 <= maximumPackets <= MAXIMUM_SYNC_PAGE && |b.packets| <= maximumPackets
    && SafeInteger(b.startsAfterSequence) && SafeInteger(b.nextSequence)
    && SafeInteger(b.highWatermarkSequence) && SafeInteger(b.retentionFloorSequence)
    && b.retentionFloorSequence <= b.startsAfterSequence <= b.nextSequence <= b.highWatermarkSequence
    && (b.hasMore <==> b.nextSequence < b.highWatermarkSequence)
  }

  function DigestAfter(start: Id, packets: seq<Record>): Id {
    if packets == [] then start else packets[|packets| - 1].recordDigest
  }

  /** Record `i` has the next sequence and names the digest of the record before it. */
  predicate Linked(packets: seq<Record>, i: nat, after: int, start: Id)
    requires i < |packets|
  {
    && RecordShape(packets[i]) && packets[i].sequence == after + i + 1
    && packets[i].previousRecordDigest == if i == 0 then start else packets[i - 1].recordDigest
  }

  predicate Unrepeated(packets: seq<Record>) {
    forall i, j :: 0 <= i < j < |packets| ==> packets[i].packet.packetID != packets[j].packet.packetID
  }

  /** Consecutive sequences from `after`, each record naming the digest of the one before, no packet twice. */
  predicate Chained(packets: seq<Record>, after: int, start: Id) {
    && (forall i :: 0 <= i < |packets| ==> Linked(packets, i, after, start))
    && Unrepeated(packets)
  }

  predicate ShapeAccepted(b: Batch, maximumPackets: int) {
    && Bounds(b, maximumPackets)
    && Chained(b.packets, b.startsAfterSequence, b.startsAfterRecordDigest)
    && b.nextSequence == b.startsAfterSequence + |b.packets|
    && b.nextRecordDigest == DigestAfter(b.startsAfterRecordDigest, b.packets)
  }

  predicate RecordBound(h: Hashes, digest: RecordHash, routeID: Id, r: Record) {
    && ValidPacket(h, r.packet) && r.packet.routeID == routeID
    && r.recordDigest == digest(Covered(r))
  }

  /** A page a client acts on. */
  predicate Accepted(h: Hashes, digest: RecordHash, routeID: Id, limit: int, b: Batch) {
    && ShapeAccepted(b, limit)
    && forall i :: 0 <= i < |b.packets| ==> RecordBound(h, digest, routeID, b.packets[i])
  }

  // ---- The validators ----

  method ValidateShape(b: Batch, maximumPackets: int) returns (ok: bool)
    ensures ok <==> ShapeAccepted(b, maximumPackets)
  {
    if !Bounds(b, maximumPackets) {
      return false;
    }
    var packetIDs: set<Id> := {};
    var expectedSequence := b.startsAfterSequence;
    var expectedPreviousDigest := b.startsAfterRecordDigest;
    for i := 0 to |b.packets|
      invariant Chained(b.packets[..i], b.startsAfterSequence, b.startsAfterRecordDigest)
      invariant expectedSequence == b.startsAfterSequence + i
      invariant expectedPreviousDigest == DigestAfter(b.startsAfterRecordDigest, b.packets[..i])
      invariant packetIDs == set k | 0 <= k < i :: b.packets[k].packet.packetID
    {
      var received := b.packets[i];
      LinkedLast(b.packets, i, b.startsAfterSequence, b.startsAfterRecordDigest);
      if Chained(b.packets, b.startsAfterSequence, b.startsAfterRecordDigest) {
        assert Linked(b.packets, i, b.startsAfterSequence, b.startsAfterRecordDigest);
      }
      if !RecordShape(received) || expectedSequence >= MAX_SAFE_INTEGER || received.sequence != expectedSequence + 1
         || received.previousRecordDigest != expectedPreviousDigest || received.packet.packetID in packetIDs {
        return false;
      }
      ChainedNext(b.packets, i, b.startsAfterSequence, b.startsAfterRecordDigest);
      packetIDs := packetIDs + {received.packet.packetID};
      expectedSequence := received.sequence;
      expectedPreviousDigest := received.recordDigest;
    }
    assert b.packets[..|b.packets|] == b.packets;
    return expectedSequence == b.nextSequence && expectedPreviousDigest == b.nextRecordDigest;
  }

  lemma LinkedLast(packets: seq<Record>, i: nat, after: int, start: Id)
    requires i < |packets|
    ensures DigestAfter(start, packets[..i]) == if i == 0 then start else packets[i - 1].recordDigest
  {
  }

  lemma ChainedNext(packets: seq<Record>, i: nat, after: int, start: Id)
    requires i < |packets| && Chained(packets[..i], after, start) && Linked(packets, i, after, start)
    requires forall k :: 0 <= k < i ==> packets[k].packet.packetID != packets[i].packet.packetID
    ensures Chained(packets[..i + 1], after, start)
  {
    hide RecordShape;
    var shorter, longer := packets[..i], packets[..i + 1];
    forall k | 0 <= k < |longer| ensures Linked(longer, k, after, start) {
      assert k < i ==> Linked(shorter, k, after, start);
    }
  }

  method Validate(h: Hashes, digest: RecordHash, routeID: Id, limit: int, b: Batch) returns (ok: bool)
    ensures ok <==> Accepted(h, digest, routeID, limit, b)
  {
    hide ShapeAccepted, RecordBound;
    var shape := ValidateShape(b, limit);
    if !shape {
      return false;
    }
    for i := 0 to |b.packets|
      invariant forall k :: 0 <= k < i ==> RecordBound(h, digest, routeID, b.packets[k])
    {
      if !RecordBound(h, digest, routeID, b.packets[i]) {
        return false;
      }
    }
    return true;
  }

  // ---- Equal ends, equal records ----

  /** No two different records or packets of these lists share a digest. */
  /** One record of a page, field by field. */
  predicate RecordFits(h: Hashes, digest: RecordHash, routeID: Id, b: Batch, i: nat)
    requires i < |b.packets|
  {
    var r := b.packets[i];
    var p, proof := r.packet, r.packet.authorization;
    && r.sequence == b.startsAfterSequence + i + 1 && 1 <= r.sequence <= 9007199254740991
    && 0 <= r.routeRevision <= 9007199254740991
    && r.previousRecordDigest == (if i == 0 then b.startsAfterRecordDigest else b.packets[i - 1].recordDigest)
    && r.recordDigest == digest(RecordInput(r.previousRecordDigest, r.sequence, r.routeRevision, p.routeID, p.packetID,
                                            proof.operationDigest, proof.nonce, proof.mac))
    && p.routeID == routeID != 0 && p.packetID != 0
    && (p.sealedFrame.Size() == 4096 || p.sealedFrame.Size() == 16384 || p.sealedFrame.Size() == 65536)
    && proof.operationDigest == h.operation(routeID, p.packetID, p.sealedFrame)
  }

  lemma RecordFitsExactly(h: Hashes, digest: RecordHash, routeID: Id, b: Batch, i: nat)
    requires i < |b.packets|
    ensures RecordFits(h, digest, routeID, b, i) <==>
            && Linked(b.packets, i, b.startsAfterSequence, b.startsAfterRecordDigest)
            && RecordBound(h, digest, routeID, b.packets[i])
  {
  }

  /**
   * A page is accepted exactly when its counters fit together, its records go
   * on from where it starts without a gap, each carries the digest of what it
   * holds and of the one before it, and all its packets are valid ones of the
   * route, none twice.
   */
  lemma AcceptedExactly(h: Hashes, digest: RecordHash, routeID: Id, limit: int, b: Batch)
    ensures Accepted(h, digest, routeID, limit, b) <==>
            && 1 <= limit <= 256 && |b.packets| <= limit
            && 0 <= b.retentionFloorSequence <= b.startsAfterSequence
            && b.nextSequence == b.startsAfterSequence + |b.packets| <= b.highWatermarkSequence <= 9007199254740991
            && (b.hasMore <==> b.nextSequence < b.highWatermarkSequence)
            && b.nextRecordDigest == (if b.packets == [] then b.startsAfterRecordDigest
                                      else b.packets[|b.packets| - 1].recordDigest)
            && (forall i :: 0 <= i < |b.packets| ==> RecordFits(h, digest, routeID, b, i))
            && forall i, j :: 0 <= i < j < |b.packets| ==> b.packets[i].packet.packetID != b.packets[j].packet.packetID
  {
    hide Linked, RecordBound, RecordFits;
    forall i | 0 <= i < |b.packets|
      ensures RecordFits(h, digest, routeID, b, i) <==>
              && Linked(b.packets, i, b.startsAfterSequence, b.startsAfterRecordDigest)
              && RecordBound(h, digest, routeID, b.packets[i])
    {
      RecordFitsExactly(h, digest, routeID, b, i);
    }
  }

  ghost predicate CollisionFree(h: Hashes, digest: RecordHash, a: seq<Record>, b: seq<Record>) {
    forall i, j :: 0 <= i < |a| && 0 <= j < |b| ==>
      && (digest(Covered(a[i])) == digest(Covered(b[j])) ==> Covered(a[i]) == Covered(b[j]))
      && (h.operation(a[i].packet.routeID, a[i].packet.packetID, a[i].packet.sealedFrame)
          == h.operation(b[j].packet.routeID, b[j].packet.packetID, b[j].packet.sealedFrame)
          ==> a[i].packet.sealedFrame == b[j].packet.sealedFrame)
  }

  /** The same record, up to the time its packet's send proof claims. */
  predicate SameRecord(a: Record, b: Record) {
    && a.recordDigest == b.recordDigest && Covered(a) == Covered(b)
    && a.packet.sealedFrame == b.packet.sealedFrame
    && var proof := b.packet.authorization.(authorizedAt := a.packet.authorization.authorizedAt);
       a == b.(packet := b.packet.(authorization := proof))
  }

  /** Records linked and bound, from sequence `after` and digest `start`, over any number of pages. */
  predicate Chain(h: Hashes, digest: RecordHash, routeID: Id, packets: seq<Record>, after: int, start: Id) {
    && (forall i :: 0 <= i < |packets| ==> Linked(packets, i, after, start))
    && (forall i :: 0 <= i < |packets| ==> RecordBound(h, digest, routeID, packets[i]))
  }

  /** A chain in which no packet occurs twice, as within one page. */
  predicate Log(h: Hashes, digest: RecordHash, routeID: Id, packets: seq<Record>, after: int, start: Id) {
    Chain(h, digest, routeID, packets, after, start) && Unrepeated(packets)
  }

  lemma ChainPrefix(h: Hashes, digest: RecordHash, routeID: Id, packets: seq<Record>, n: nat, after: int, start: Id)
    requires Chain(h, digest, routeID, packets, after, start) && n <= |packets|
    ensures Chain(h, digest, routeID, packets[..n], after, start)
    ensures n < |packets| ==> packets[n].previousRecordDigest == DigestAfter(start, packets[..n])
  {
    hide RecordBound, RecordShape;
    var shorter := packets[..n];
    forall k | 0 <= k < n ensures Linked(shorter, k, after, start) {
      assert Linked(packets, k, after, start);
    }
    if n < |packets| {
      LinkedLast(packets, n, after, start);
      assert Linked(packets, n, after, start);
    }
  }

  lemma BoundAt(h: Hashes, digest: RecordHash, routeID: Id, packets: seq<Record>, i: nat, after: int, start: Id)
    requires Chain(h, digest, routeID, packets, after, start) && i < |packets|
    ensures RecordBound(h, digest, routeID, packets[i])
  {
  }

  lemma SameBoundRecord(h: Hashes, digest: RecordHash, routeID: Id, a: seq<Record>, b: seq<Record>, i: nat)
    requires i < |a| == |b| && RecordBound(h, digest, routeID, a[i]) && RecordBound(h, digest, routeID, b[i])
    requires a[i].recordDigest == b[i].recordDigest && CollisionFree(h, digest, a, b)
    ensures SameRecord(a[i], b[i])
  {
  }

  /**
   * Two chains of one route that end at the same sequence and digest hold the
   * same records in the same order, whatever digests they claim to start from,
   * provided no two records in them collide.
   */
  lemma {:induction false} SameEndSameRecords(h: Hashes, digest: RecordHash, routeID: Id, a: seq<Record>,
                                              b: seq<Record>,
                                              after: int, startA: Id, startB: Id)
    requires Chain(h, digest, routeID, a, after, startA) && Chain(h, digest, routeID, b, after, startB) && |a| == |b|
    requires DigestAfter(startA, a) == DigestAfter(startB, b) && CollisionFree(h, digest, a, b)
    ensures forall i :: 0 <= i < |a| ==> SameRecord(a[i], b[i])
    ensures startA == startB
  {
    hide RecordBound, Chain;
    if a != [] {
      var n := |a| - 1;
      ChainPrefix(h, digest, routeID, a, n, after, startA);
      ChainPrefix(h, digest, routeID, b, n, after, startB);
      BoundAt(h, digest, routeID, a, n, after, startA);
      BoundAt(h, digest, routeID, b, n, after, startB);
      SameBoundRecord(h, digest, routeID, a, b, n);
      FewerCollisions(h, digest, a, b, n);
      SameEndSameRecords(h, digest, routeID, a[..n], b[..n], after, startA, startB);
      forall i | 0 <= i < |a| ensures SameRecord(a[i], b[i]) {
        assert i < n ==> a[..n][i] == a[i] && b[..n][i] == b[i];
      }
    }
  }

  lemma FewerCollisions(h: Hashes, digest: RecordHash, a: seq<Record>, b: seq<Record>, n: nat)
    requires CollisionFree(h, digest, a, b) && n <= |a| == |b|
    ensures CollisionFree(h, digest, a[..n], b[..n])
  {
    forall i, j | 0 <= i < n && 0 <= j < n
      ensures digest(Covered(a[..n][i])) == digest(Covered(b[..n][j])) ==> Covered(a[..n][i]) == Covered(b[..n][j])
      ensures h.operation(a[..n][i].packet.routeID, a[..n][i].packet.packetID, a[..n][i].packet.sealedFrame)
              == h.operation(b[..n][j].packet.routeID, b[..n][j].packet.packetID, b[..n][j].packet.sealedFrame)
              ==> a[..n][i].packet.sealedFrame == b[..n][j].packet.sealedFrame
    {
      assert a[..n][i] == a[i] && b[..n][j] == b[j];
    }
  }

  /** The same for accepted pages. */
  lemma SameEndSamePage(h: Hashes, digest: RecordHash, routeID: Id, limitA: int, limitB: int, a: Batch, b: Batch)
    requires Accepted(h, digest, routeID, limitA, a) && Accepted(h, digest, routeID, limitB, b)
    requires a.startsAfterSequence == b.startsAfterSequence && a.nextSequence == b.nextSequence
    requires a.nextRecordDigest == b.nextRecordDigest && CollisionFree(h, digest, a.packets, b.packets)
    ensures |a.packets| == |b.packets| && a.startsAfterRecordDigest == b.startsAfterRecordDigest
    ensures forall i :: 0 <= i < |a.packets| ==> SameRecord(a.packets[i], b.packets[i])
  {
    hide RecordBound, Linked, CollisionFree;
    SameEndSameRecords(h, digest, routeID, a.packets, b.packets, a.startsAfterSequence, a.startsAfterRecordDigest,
                       b.startsAfterRecordDigest);
  }

  /** The time a send proof claims is not bound: a page with another time is accepted just the same. */
  lemma ProofTimeIsFree(h: Hashes, digest: RecordHash, routeID: Id, limit: int, b: Batch, i: nat, at: int)
    requires Accepted(h, digest, routeID, limit, b) && i < |b.packets|
    ensures var r := b.packets[i];
            var other := r.(packet := r.packet.(authorization := r.packet.authorization.(authorizedAt := at)));
            Accepted(h, digest, routeID, limit, b.(packets := b.packets[i := other]))
  {
    var r := b.packets[i];
    var other := r.(packet := r.packet.(authorization := r.packet.authorization.(authorizedAt := at)));
    var c := b.(packets := b.packets[i := other]);
    assert Covered(other) == Covered(r);
    forall k | 0 <= k < |c.packets|
      ensures Linked(c.packets, k, b.startsAfterSequence, b.startsAfterRecordDigest)
    {
      assert Linked(b.packets, k, b.startsAfterSequence, b.startsAfterRecordDigest);
    }
    forall k | 0 <= k < |c.packets| ensures RecordBound(h, digest, routeID, c.packets[k]) {
      assert RecordBound(h, digest, routeID, b.packets[k]);
    }
  }

  // ---- Gluing ----

  predicate DisjointPackets(a: seq<Record>, b: seq<Record>) {
    forall i, j :: 0 <= i < |a| && 0 <= j < |b| ==> a[i].packet.packetID != b[j].packet.packetID
  }

  lemma LinksGlue(a: seq<Record>, b: seq<Record>, after: int, start: Id, i: nat)
    requires i < |a| + |b|
    requires i < |a| ==> Linked(a, i, after, start)
    requires i >= |a| ==> Linked(b, i - |a|, after + |a|, DigestAfter(start, a))
    ensures Linked(a + b, i, after, start)
  {
    hide RecordShape;
  }

  lemma RepetitionsGlue(a: seq<Record>, b: seq<Record>)
    requires Unrepeated(a) && Unrepeated(b)
    ensures Unrepeated(a + b) <==> DisjointPackets(a, b)
  {
    var all := a + b;
    if Unrepeated(all) {
      forall i, j | 0 <= i < |a| && 0 <= j < |b| ensures a[i].packet.packetID != b[j].packet.packetID {
        assert all[i] == a[i] && all[|a| + j] == b[j];
      }
    }
  }

  /** A chain goes on where the chain before it ended. */
  lemma ChainsGlue(h: Hashes, digest: RecordHash, routeID: Id, a: seq<Record>, b: seq<Record>, after: int, start: Id)
    requires Chain(h, digest, routeID, a, after, start)
    requires Chain(h, digest, routeID, b, after + |a|, DigestAfter(start, a))
    ensures Chain(h, digest, routeID, a + b, after, start)
    ensures DigestAfter(start, a + b) == DigestAfter(DigestAfter(start, a), b)
  {
    hide RecordBound, Linked;
    var all := a + b;
    forall i | 0 <= i < |all| ensures Linked(all, i, after, start) && RecordBound(h, digest, routeID, all[i]) {
      LinksGlue(a, b, after, start, i);
      assert i < |a| ==> RecordBound(h, digest, routeID, a[i]);
      assert i >= |a| ==> RecordBound(h, digest, routeID, b[i - |a|]);
    }
  }

  /** Where one log ends the next begins: together they are one log exactly when no packet is in both. */
  lemma LogsGlue(h: Hashes, digest: RecordHash, routeID: Id, a: seq<Record>, b: seq<Record>, after: int, start: Id)
    requires Log(h, digest, routeID, a, after, start)
    requires Log(h, digest, routeID, b, after + |a|, DigestAfter(start, a))
    ensures Log(h, digest, routeID, a + b, after, start) <==> DisjointPackets(a, b)
    ensures DigestAfter(start, a + b) == DigestAfter(DigestAfter(start, a), b)
  {
    hide Chain, Unrepeated, DisjointPackets;
    ChainsGlue(h, digest, routeID, a, b, after, start);
    RepetitionsGlue(a, b);
  }

  /** An accepted page is a log from where it says it starts to where it says it ends. */
  lemma AcceptedIsLog(h: Hashes, digest: RecordHash, routeID: Id, limit: int, b: Batch)
    requires Accepted(h, digest, routeID, limit, b)
    ensures Log(h, digest, routeID, b.packets, b.startsAfterSequence, b.startsAfterRecordDigest)
    ensures b.nextSequence == b.startsAfterSequence + |b.packets|
    ensures b.nextRecordDigest == DigestAfter(b.startsAfterRecordDigest, b.packets)
  {
    hide RecordBound, Linked, Unrepeated;
  }
}
