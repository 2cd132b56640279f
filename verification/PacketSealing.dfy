/**
 * Sealing a payload into fragment packets and opening one packet
 * (src/opaque-route-packet-v2.js). AES-GCM is ideal: a sealed frame is a term
 * that opens only under the key and the associated data it was made with.
 * SHA-256 and HMAC are arbitrary functions.
 */
module PacketSealing {
  import opened Wrappers
  import opened Bytes
  import opened PacketFrame

  datatype SealedFrame = SealedFrame(key: Id, nonce: seq<Byte>, aad: seq<Byte>, plaintext: seq<Byte>) {
    function Size(): nat {
      NONCE_BYTES + |plaintext| + TAG_BYTES
    }
  }

  /** A time-bounded send proof, bound to one relay operation. */
  datatype SendProof = SendProof(operationDigest: Id, authorizedAt: int, nonce: Id, mac: Id)

  datatype Packet = Packet(routeID: Id, packetID: Id, sealedFrame: SealedFrame, authorization: SendProof)

  datatype Hashes = Hashes(
    bundle: (Id, seq<Byte>) -> Id,
    operation: (Id, Id, SealedFrame) -> Id,
    sendMac: (Id, Id, Id, int, Id) -> Id)

  function Ascii(text: string): (s: seq<Byte>)
    ensures |s| == |text|
  {
    seq(|text|, i requires 0 <= i < |text| => text[i] as int % 256)
  }

  /** Octets authenticated beside the frame. */
  function AuthenticatedData(routeID: Id, packetID: Id, routeRevision: nat, bucket: nat): seq<Byte> {
    Ascii("org.noctweave.opaque-route.packet-aad/v2") + [0] + IdBytes(routeID) + IdBytes(packetID)
    + BigEndian(8, routeRevision) + BigEndian(4, bucket)
  }

  /** The associated data names one route, packet, revision and bucket and no other. */
  lemma AuthenticatedDataInjective(r: Id, p: Id, v: nat, b: nat, r': Id, p': Id, v': nat, b': nat)
    requires v <= MAX_SAFE_INTEGER && v' <= MAX_SAFE_INTEGER && ValidBucket(b) && ValidBucket(b')
    requires AuthenticatedData(r, p, v, b) == AuthenticatedData(r', p', v', b')
    ensures r == r' && p == p' && v == v' && b == b'
  {
    var d := |Ascii("org.noctweave.opaque-route.packet-aad/v2")| + 1;
    var a, a' := AuthenticatedData(r, p, v, b), AuthenticatedData(r', p', v', b');
    assert a[d..d + 32] == IdBytes(r) && a'[d..d + 32] == IdBytes(r');
    assert a[d + 32..d + 64] == IdBytes(p) && a'[d + 32..d + 64] == IdBytes(p');
    assert a[d + 64..d + 72] == BigEndian(8, v) && a'[d + 64..d + 72] == BigEndian(8, v');
    assert a[d + 72..d + 76] == BigEndian(4, b) && a'[d + 72..d + 76] == BigEndian(4, b');
    Widths();
    IdWidth();
    BigEndianInjective(32, r, r');
    BigEndianInjective(32, p, p');
    BigEndianInjective(8, v, v');
    BigEndianInjective(4, b, b');
  }

  predicate ValidPacket(h: Hashes, p: Packet) {
    && ValidBucket(p.sealedFrame.Size())
    && NonZero(p.routeID) && NonZero(p.packetID)
    && p.authorization.operationDigest == h.operation(p.routeID, p.packetID, p.sealedFrame)
  }

  /** A packet is valid with named route and packet, a size of one of the buckets and the digest of its operation. */
  lemma ValidExactly(h: Hashes, p: Packet)
    ensures ValidPacket(h, p) <==>
            && p.routeID != 0 && p.packetID != 0
            && 28 + |p.sealedFrame.plaintext| in [4096, 16384, 65536]
            && p.authorization.operationDigest == h.operation(p.routeID, p.packetID, p.sealedFrame)
  {
  }

  /** Decryption and frame decoding of a packet that passed `ValidPacket`. */
  function OpenValidated(packet: Packet, key: Id, routeRevision: nat): Result<Fragment, PacketError> {
    var sealed := packet.sealedFrame;
    if !ValidBucket(sealed.Size()) then Err(InvalidPacket)
    else if sealed.key != key || sealed.aad != AuthenticatedData(packet.routeID, packet.packetID, routeRevision,
                                                                 sealed.Size()) then
      Err(DecryptionFailed)
    else
      Decode(sealed.plaintext, packet.routeID, packet.packetID, routeRevision, sealed.Size())
  }

  /** Opening as it runs: decrypt, then walk the frame. */
  method OpenValidatedPacket(packet: Packet, key: Id, routeRevision: nat) returns (r: Result<Fragment, PacketError>)
    ensures r == OpenValidated(packet, key, routeRevision)
  {
    var sealed := packet.sealedFrame;
    var bucket := sealed.Size();
    if !ValidBucket(bucket) {
      return Err(InvalidPacket);
    }
    var additionalData := AuthenticatedData(packet.routeID, packet.packetID, routeRevision, bucket);
    if sealed.key != key || sealed.aad != additionalData {
      return Err(DecryptionFailed);
    }
    r := DecodeFragment(sealed.plaintext, packet.routeID, packet.packetID, routeRevision, bucket);
  }

  datatype SealRequest = SealRequest(
    payload: seq<Byte>,
    routeRevision: nat,
    paddingBucket: nat,
    payloadKey: Id,
    routeID: Id,
    sendCapability: Id,
    authorizedAt: int,
    bundleID: Id)

  /** What the random source gives one packet; identifiers were redrawn until unused. */
  datatype Draw = Draw(packetID: Id, padding: seq<Byte>, nonce: seq<Byte>, proofNonce: Id)

  function FragmentCount(r: SealRequest): nat
    requires ValidBucket(r.paddingBucket)
  {
    CeilDiv(|r.payload|, Capacity(r.paddingBucket))
  }

  /** Piece `index` of the payload. */
  function Piece(r: SealRequest, index: nat): seq<Byte>
    requires ValidBucket(r.paddingBucket) && index * Capacity(r.paddingBucket) <= |r.payload|
  {
    var lower := index * Capacity(r.paddingBucket);
    var upper := if |r.payload| < lower + Capacity(r.paddingBucket) then |r.payload|
      else lower + Capacity(r.paddingBucket);
    r.payload[lower..upper]
  }

  predicate Sealable(r: SealRequest) {
    && 0 < |r.payload| <= MAXIMUM_BUNDLE_BYTES
    && r.routeRevision <= MAX_SAFE_INTEGER
    && ValidBucket(r.paddingBucket)
    && FragmentCount(r) <= MAXIMUM_FRAGMENTS
    && NonZero(r.bundleID) && NonZero(r.routeID)
  }

  lemma PieceLength(r: SealRequest, index: nat)
    requires ValidBucket(r.paddingBucket) && 0 < |r.payload| && index < FragmentCount(r)
    ensures index * Capacity(r.paddingBucket) <= |r.payload|
    ensures |Piece(r, index)| == ExpectedBytes(index, FragmentCount(r), |r.payload|, Capacity(r.paddingBucket))
    ensures 0 < |Piece(r, index)| <= Capacity(r.paddingBucket)
  {
    var c, n := Capacity(r.paddingBucket), FragmentCount(r);
    CeilDivBounds(|r.payload|, c);
    assert (n - 1) * c < |r.payload| <= n * c;
    assert n * c == (n - 1) * c + c;
    if index < n - 1 {
      MulMonotone(index + 1, n - 1, c);
      assert (index + 1) * c == index * c + c;
    }
  }

  lemma MulMonotone(a: nat, b: nat, c: nat)
    requires a <= b
    ensures a * c <= b * c
  {
  }

  /** The fragment that packet `index` of a sealed bundle carries. */
  function FragmentOf(h: Hashes, r: SealRequest, packetID: Id, index: nat): (f: Fragment)
    requires Sealable(r) && index < FragmentCount(r)
    ensures f.paddingBucket == r.paddingBucket && ValidFragment(f)
  {
    PieceLength(r, index);
    Fragment(r.routeID, packetID, r.routeRevision, r.paddingBucket, r.bundleID, h.bundle(r.bundleID, r.payload),
             index, FragmentCount(r), |r.payload|, Piece(r, index))
  }

  /** Pieces 0..n of the payload, in order. */
  function Pieces(r: SealRequest, n: nat): seq<seq<Byte>>
    requires ValidBucket(r.paddingBucket) && 0 < |r.payload| && n <= FragmentCount(r)
  {
    if n == 0 then [] else PieceLength(r, n - 1); Pieces(r, n - 1) + [Piece(r, n - 1)]
  }

  lemma {:induction false} PiecesPrefix(r: SealRequest, n: nat)
    requires ValidBucket(r.paddingBucket) && 0 < |r.payload| && n < FragmentCount(r)
    ensures n * Capacity(r.paddingBucket) <= |r.payload|
    ensures Flatten(Pieces(r, n)) == r.payload[..n * Capacity(r.paddingBucket)]
  {
    hide FragmentCount;
    PieceLength(r, n);
    if n > 0 {
      PiecesPrefix(r, n - 1);
      NextPiece(r, n - 1);
    }
  }

  lemma NextPiece(r: SealRequest, n: nat)
    requires ValidBucket(r.paddingBucket) && 0 < |r.payload| && n < FragmentCount(r)
    requires n * Capacity(r.paddingBucket) <= |r.payload|
    requires Flatten(Pieces(r, n)) == r.payload[..n * Capacity(r.paddingBucket)]
    ensures n + 1 < FragmentCount(r) ==> (n + 1) * Capacity(r.paddingBucket) <= |r.payload|
    ensures Flatten(Pieces(r, n + 1))
         == if n + 1 < FragmentCount(r) then r.payload[..(n + 1) * Capacity(r.paddingBucket)] else r.payload
  {
    hide FragmentCount, Flatten;
    var lower := n * Capacity(r.paddingBucket);
    PieceLength(r, n);
    FlattenAppend(Pieces(r, n), Piece(r, n));
    PieceEnds(r, n);
    var end := lower + |Piece(r, n)|;
    assert r.payload[..lower] + r.payload[lower..end] == r.payload[..end];
    assert r.payload[..|r.payload|] == r.payload;
  }

  /** Every piece but the last ends where the next one starts; the last ends with the payload. */
  lemma PieceEnds(r: SealRequest, n: nat)
    requires ValidBucket(r.paddingBucket) && 0 < |r.payload| && n < FragmentCount(r)
    ensures n * Capacity(r.paddingBucket) <= |r.payload|
    ensures n * Capacity(r.paddingBucket) + |Piece(r, n)|
         == if n + 1 < FragmentCount(r) then (n + 1) * Capacity(r.paddingBucket) else |r.payload|
  {
    var c := Capacity(r.paddingBucket);
    PieceLength(r, n);
    CeilDivBounds(|r.payload|, c);
    assert (n + 1) * c == n * c + c;
  }

  /** The pieces tile the payload: nothing is lost, repeated or reordered. */
  lemma PiecesTilePayload(r: SealRequest)
    requires ValidBucket(r.paddingBucket) && 0 < |r.payload|
    ensures |Pieces(r, FragmentCount(r))| == FragmentCount(r)
    ensures Flatten(Pieces(r, FragmentCount(r))) == r.payload
    ensures forall i :: 0 <= i < FragmentCount(r) ==>
              i * Capacity(r.paddingBucket) <= |r.payload| && Pieces(r, FragmentCount(r))[i] == Piece(r, i)
  {
    var n := FragmentCount(r);
    CeilDivBounds(|r.payload|, Capacity(r.paddingBucket));
    PiecesPrefix(r, n - 1);
    PieceLength(r, n - 1);
    NextPiece(r, n - 1);
    PiecesIndexed(r, n);
  }

  lemma {:induction false} PiecesIndexed(r: SealRequest, n: nat)
    requires ValidBucket(r.paddingBucket) && 0 < |r.payload| && n <= FragmentCount(r)
    ensures |Pieces(r, n)| == n
    ensures forall i :: 0 <= i < n ==> i * Capacity(r.paddingBucket) <= |r.payload| && Pieces(r, n)[i] == Piece(r, i)
  {
    if n > 0 {
      PiecesIndexed(r, n - 1);
      PieceLength(r, n - 1);
    }
  }

  predicate DrawFits(r: SealRequest, index: nat, d: Draw)
    requires ValidBucket(r.paddingBucket) && 0 < |r.payload| && index < FragmentCount(r)
  {
    PieceLength(r, index);
    && NonZero(d.packetID) && |d.nonce| == NONCE_BYTES
    && |d.padding| == r.paddingBucket - NONCE_BYTES - TAG_BYTES - HEADER_BYTES - |Piece(r, index)|
  }

  predicate DrawsFit(r: SealRequest, draws: seq<Draw>)
    requires Sealable(r)
  {
    && |draws| == FragmentCount(r)
    && (forall i :: 0 <= i < |draws| ==> DrawFits(r, i, draws[i]))
    && (forall i, j :: 0 <= i < j < |draws| ==> draws[i].packetID != draws[j].packetID)
  }

  function MakeProof(h: Hashes, routeID: Id, capability: Id, operationDigest: Id, authorizedAt: int,
                     nonce: Id): SendProof {
    SendProof(operationDigest, authorizedAt, nonce,
              h.sendMac(capability, routeID, operationDigest, authorizedAt, nonce))
  }

  /** The packet's proof is the one its route expects of a sender. */
  predicate SendProofVerifies(h: Hashes, p: Packet, capability: Id) {
    var a := p.authorization;
    a.mac == h.sendMac(capability, p.routeID, a.operationDigest, a.authorizedAt, a.nonce)
  }

  /** A packet is the one sealed from piece `index`, whatever its frame padding and nonces are. */
  predicate SealedFrom(h: Hashes, r: SealRequest, index: nat, packet: Packet)
    requires Sealable(r)
  {
    && index < FragmentCount(r)
    && packet.routeID == r.routeID
    && ValidPacket(h, packet)
    && OpenValidated(packet, r.payloadKey, r.routeRevision) == Ok(FragmentOf(h, r, packet.packetID, index))
  }

  /** Which requests are sealed: each of at most 4096 packets has room for 150 octets less than its bucket. */
  lemma SealableExactly(r: SealRequest)
    ensures Sealable(r) <==>
            && 0 < |r.payload| <= 64 * 1024 * 1024 && r.routeRevision <= 9007199254740991
            && r.paddingBucket in [4096, 16384, 65536] && |r.payload| <= 4096 * (r.paddingBucket - 150)
            && r.bundleID != 0 && r.routeID != 0
  {
    if 0 < |r.payload| && ValidBucket(r.paddingBucket) {
      CeilDivBounds(|r.payload|, Capacity(r.paddingBucket));
      var n, c := FragmentCount(r), Capacity(r.paddingBucket);
      if n <= 4096 {
        MulMonotone(n, 4096, c);
      } else {
        MulMonotone(4096, n - 1, c);
      }
    }
  }

  /** The frame was sealed with what the random source drew for this packet. */
  predicate SealedWith(packet: Packet, d: Draw) {
    && packet.packetID == d.packetID && packet.sealedFrame.nonce == d.nonce
    && packet.authorization.nonce == d.proofNonce
    && |d.padding| <= |packet.sealedFrame.plaintext|
    && packet.sealedFrame.plaintext[|packet.sealedFrame.plaintext| - |d.padding|..] == d.padding
  }

  /**
   * A sealed frame opens in its own packet only, under its own key and route
   * revision; anywhere else it is refused as one that does not decrypt.
   */
  lemma OpensOnlyInPlace(h: Hashes, r: SealRequest, index: nat, packet: Packet, moved: Packet, key: Id, revision: nat)
    requires Sealable(r) && SealedFrom(h, r, index, packet) && moved.sealedFrame == packet.sealedFrame
    requires revision <= MAX_SAFE_INTEGER
    ensures OpenValidated(moved, key, revision)
         == if moved.routeID == packet.routeID && moved.packetID == packet.packetID && key == r.payloadKey
               && revision == r.routeRevision
            then Ok(FragmentOf(h, r, packet.packetID, index)) else Err(DecryptionFailed)
  {
    hide AuthenticatedData, Decode, FragmentOf, CeilDiv;
    var size := packet.sealedFrame.Size();
    if packet.sealedFrame.aad == AuthenticatedData(moved.routeID, moved.packetID, revision, size) {
      AuthenticatedDataInjective(packet.routeID, packet.packetID, r.routeRevision, size,
                                 moved.routeID, moved.packetID, revision, size);
    }
  }

  method SealBundle(h: Hashes, r: SealRequest, draws: seq<Draw>) returns (result: Result<seq<Packet>, PacketError>)
    requires r.routeRevision <= MAX_SAFE_INTEGER && NonZero(r.bundleID) && NonZero(r.routeID)
    requires Sealable(r) ==> DrawsFit(r, draws)
    ensures result.Ok? <==> Sealable(r)
    ensures |r.payload| == 0 ==> result == Err(EmptyPayload)
    ensures |r.payload| > MAXIMUM_BUNDLE_BYTES ==> result == Err(PayloadTooLarge)
    ensures 0 < |r.payload| <= MAXIMUM_BUNDLE_BYTES && !ValidBucket(r.paddingBucket) ==> result == Err(InvalidPacket)
    ensures 0 < |r.payload| <= MAXIMUM_BUNDLE_BYTES && ValidBucket(r.paddingBucket) && !Sealable(r)
            ==> result == Err(FragmentCountExceeded)
    ensures result.Ok? ==> |result.value| == FragmentCount(r)
    ensures result.Ok? ==> forall i :: 0 <= i < FragmentCount(r) ==> SealedFrom(h, r, i, result.value[i])
    ensures result.Ok? ==> forall i :: 0 <= i < FragmentCount(r) ==> SealedWith(result.value[i], draws[i])
    ensures result.Ok? ==>
              forall i :: 0 <= i < FragmentCount(r) ==> result.value[i].authorization.authorizedAt == r.authorizedAt
    ensures result.Ok? ==>
              forall i :: 0 <= i < FragmentCount(r) ==> SendProofVerifies(h, result.value[i], r.sendCapability)
  {
    hide Piece, DrawFits, SealedFrom, SealedWith, SendProofVerifies, CeilDiv;
    if |r.payload| == 0 {
      return Err(EmptyPayload);
    }
    if |r.payload| > MAXIMUM_BUNDLE_BYTES {
      return Err(PayloadTooLarge);
    }
    if !ValidBucket(r.paddingBucket) {
      return Err(InvalidPacket);
    }
    var fragmentCount := FragmentCount(r);
    if fragmentCount > MAXIMUM_FRAGMENTS {
      return Err(FragmentCountExceeded);
    }
    var bundleDigest := h.bundle(r.bundleID, r.payload);
    var packets: seq<Packet> := [];
    var index := 0;
    while index < fragmentCount
      invariant index <= fragmentCount && |packets| == index
      invariant forall i :: 0 <= i < index ==> SealedFrom(h, r, i, packets[i])
      invariant forall i :: 0 <= i < index ==> SealedWith(packets[i], draws[i])
      invariant forall i :: 0 <= i < index ==> packets[i].authorization.authorizedAt == r.authorizedAt
      invariant forall i :: 0 <= i < index ==> SendProofVerifies(h, packets[i], r.sendCapability)
    {
      PieceLength(r, index);
      var draw := draws[index];
      var packet := SealOne(h, r, index, bundleDigest, fragmentCount, draw);
      packets := packets + [packet];
      index := index + 1;
    }
    return Ok(packets);
  }

  /** One turn of the sealing loop. */
  method SealOne(h: Hashes, r: SealRequest, index: nat, bundleDigest: Id, fragmentCount: nat, draw: Draw)
    returns (packet: Packet)
    requires Sealable(r) && index < fragmentCount == FragmentCount(r)
    requires bundleDigest == h.bundle(r.bundleID, r.payload)
    requires DrawFits(r, index, draw)
    ensures SealedFrom(h, r, index, packet)
    ensures SealedWith(packet, draw) && packet.authorization.authorizedAt == r.authorizedAt
    ensures SendProofVerifies(h, packet, r.sendCapability)
  {
    hide AuthenticatedData, Decode, CeilDiv, IdBytes, BigEndian;
    PieceLength(r, index);
    var lower := index * Capacity(r.paddingBucket);
    var upper := if |r.payload| < lower + Capacity(r.paddingBucket) then |r.payload|
      else lower + Capacity(r.paddingBucket);
    var fragment := r.payload[lower..upper];
    var frame := EncodeFrame(r.bundleID, bundleDigest, index, fragmentCount, |r.payload|, fragment, r.paddingBucket,
                             draw.padding);
    ghost var f := FragmentOf(h, r, draw.packetID, index);
    DecodeUndoesEncode(f, draw.padding);
    var aad := AuthenticatedData(r.routeID, draw.packetID, r.routeRevision, r.paddingBucket);
    var sealedFrame := SealedFrame(r.payloadKey, draw.nonce, aad, frame.value);
    var operationDigest := h.operation(r.routeID, draw.packetID, sealedFrame);
    var proof := MakeProof(h, r.routeID, r.sendCapability, operationDigest, r.authorizedAt, draw.proofNonce);
    packet := Packet(r.routeID, draw.packetID, sealedFrame, proof);
  }

  const CLOCK_SKEW_MS := 300000

  predicate SendProofExpired(packet: Packet, at: int) {
    var gap := at - packet.authorization.authorizedAt;
    (if gap < 0 then -gap else gap) > CLOCK_SKEW_MS
  }

  /** A send proof is good for five minutes around its time. */
  lemma ExpiresExactly(packet: Packet, at: int)
    ensures SendProofExpired(packet, at) <==>
            || at < packet.authorization.authorizedAt - 5 * 60 * 1000
            || at > packet.authorization.authorizedAt + 5 * 60 * 1000
  {
  }

  /** Same packet, possibly with a newer proof. */
  predicate SameOnRelay(a: Packet, b: Packet) {
    && a.routeID == b.routeID && a.packetID == b.packetID && a.sealedFrame == b.sealedFrame
    && a.authorization.operationDigest == b.authorization.operationDigest
  }

  function RefreshSendProof(h: Hashes, packet: Packet, routeID: Id, capability: Id, at: int, nonce: Id)
    : (r: Result<Packet, PacketError>)
    ensures r.Ok? <==> ValidPacket(h, packet) && packet.routeID == routeID
    ensures r.Ok? ==> ValidPacket(h, r.value) && SameOnRelay(packet, r.value) && !SendProofExpired(r.value, at)
    ensures r.Ok? && !SendProofExpired(packet, at) ==> r.value == packet
    ensures r.Ok? && SendProofExpired(packet, at) ==>
              && SendProofVerifies(h, r.value, capability)
              && r.value.authorization.authorizedAt == at && r.value.authorization.nonce == nonce
  {
    if !ValidPacket(h, packet) || packet.routeID != routeID then Err(InvalidPacket)
    else if !SendProofExpired(packet, at) then Ok(packet)
    else Ok(packet.(authorization := MakeProof(h, routeID, capability, packet.authorization.operationDigest, at,
                                               nonce)))
  }
}
