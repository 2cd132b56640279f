/** Binary fragment frames of opaque route packets (src/opaque-route-packet-v2.js). */
module PacketFrame {
  import opened Wrappers
  import opened Bytes

  const ID_LIMIT := 0x1_0000000000000000_0000000000000000_0000000000000000_0000000000000000

  /** A 32-octet identifier or digest: the number its octets spell, big-endian. */
  type Id = x: int | 0 <= x < ID_LIMIT

  lemma IdWidth()
    ensures Pow256(32) == ID_LIMIT
  {
    Widths();
    assert Pow256(12) == 256 * 256 * 256 * 256 * Pow256(8) by {
      assert Pow256(9) == 256 * Pow256(8);
      assert Pow256(10) == 256 * Pow256(9);
      assert Pow256(11) == 256 * Pow256(10);
    }
    Pow256Sum(16, 16);
    Pow256Sum(8, 8);
  }

  lemma {:induction false} Pow256Sum(a: nat, b: nat)
    ensures Pow256(a + b) == Pow256(a) * Pow256(b)
  {
    if a > 0 {
      Pow256Sum(a - 1, b);
      assert Pow256(a + b) == 256 * (Pow256(a - 1) * Pow256(b)) == (256 * Pow256(a - 1)) * Pow256(b);
    }
  }

  function IdBytes(id: Id): (s: seq<Byte>)
    ensures |s| == 32
  {
    BigEndian(32, id)
  }

  function IdFromBytes(s: seq<Byte>): Id
    requires |s| == 32
  {
    IdWidth();
    WritesWhatWasRead(s);
    FromBigEndian(s)
  }

  lemma IdBytesRoundTrip(id: Id, s: seq<Byte>)
    ensures IdFromBytes(IdBytes(id)) == id
    ensures |s| == 32 ==> IdBytes(IdFromBytes(s)) == s
  {
    IdWidth();
    ReadsWhatWasWritten(32, id);
    if |s| == 32 {
      WritesWhatWasRead(s);
    }
  }

  datatype PacketError =
    | EmptyPayload
    | PayloadTooLarge
    | FragmentCountExceeded
    | InvalidPacket
    | InvalidBundle
    | DecryptionFailed
    | MalformedFrame
    | PacketIdentifierConflict
    | BundleConflict
    | FragmentConflict
    | BundleDigestMismatch
    | ReassemblyCapacityExceeded
    | InvalidReassemblyState

  const MAGIC: seq<Byte> := [0x4e, 0x57, 0x52, 0x50]
  const VERSION := 2
  const NONCE_BYTES := 12
  const TAG_BYTES := 16
  const HEADER_BYTES := 90
  const MINIMUM_PADDING := 32
  const MAXIMUM_FRAGMENTS := 4096
  const MAXIMUM_BUNDLE_BYTES := 67108864
  const MAX_SAFE_INTEGER := 9007199254740991

  datatype Fragment = Fragment(
    routeID: Id,
    packetID: Id,
    routeRevision: nat,
    paddingBucket: nat,
    bundleID: Id,
    bundleDigest: Id,
    fragmentIndex: nat,
    fragmentCount: nat,
    totalPayloadBytes: nat,
    payload: seq<Byte>)

  predicate ValidBucket(bucket: int) {
    bucket == 4096 || bucket == 16384 || bucket == 65536
  }

  predicate NonZero(id: Id) {
    id != 0
  }

  function Capacity(bucket: nat): (c: nat)
    requires ValidBucket(bucket)
    ensures 0 < c && c + NONCE_BYTES + TAG_BYTES + HEADER_BYTES + MINIMUM_PADDING == bucket
  {
    bucket - NONCE_BYTES - TAG_BYTES - HEADER_BYTES - MINIMUM_PADDING
  }

  function CeilDiv(a: nat, b: nat): nat
    requires b > 0
  {
    (a + b - 1) / b
  }

  lemma CeilDivBounds(a: nat, b: nat)
    requires a > 0 && b > 0
    ensures 0 < CeilDiv(a, b) && (CeilDiv(a, b) - 1) * b < a <= CeilDiv(a, b) * b
  {
  }

  /** Octets carried by fragment `index` of a `total`-octet payload cut into `count` pieces. */
  function ExpectedBytes(index: nat, count: nat, total: nat, capacity: nat): int {
    if index == count - 1 then total - (count - 1) * capacity else capacity
  }

  predicate ValidFragment(f: Fragment)
    requires ValidBucket(f.paddingBucket)
  {
    && 0 < f.fragmentCount <= MAXIMUM_FRAGMENTS
    && f.fragmentIndex < f.fragmentCount
    && 0 < f.totalPayloadBytes <= MAXIMUM_BUNDLE_BYTES
    && var capacity := Capacity(f.paddingBucket);
       var expectedCount := CeilDiv(f.totalPayloadBytes, capacity);
    && f.fragmentCount == expectedCount
    && |f.payload| == ExpectedBytes(f.fragmentIndex, expectedCount, f.totalPayloadBytes, capacity)
  }

  /** The octets of a frame before its random padding. */
  function Layout(bundleID: Id, bundleDigest: Id, index: nat, count: nat, total: nat,
                  payload: seq<Byte>): (s: seq<Byte>)
    ensures |s| == HEADER_BYTES + |payload|
  {
    MAGIC + BigEndian(2, VERSION) + IdBytes(bundleID) + IdBytes(bundleDigest) + BigEndian(4, index)
      + BigEndian(4, count)
    + BigEndian(8, total) + BigEndian(4, |payload|) + payload
  }

  /** `padding` is what the random source returned for the length the encoder asks of it. */
  function EncodeFrame(bundleID: Id, bundleDigest: Id, index: int, count: int, total: int, payload: seq<Byte>,
                       bucket: nat, padding: seq<Byte>): (r: Result<seq<Byte>, PacketError>)
    ensures r.Ok? ==> |r.value| == bucket - NONCE_BYTES - TAG_BYTES
  {
    if !ValidBucket(bucket) then
      Err(InvalidPacket)
    else if count <= 0 || count > MAXIMUM_FRAGMENTS || index < 0 || index >= count
            || total <= 0 || total > MAXIMUM_BUNDLE_BYTES || |payload| > Capacity(bucket) then
      Err(InvalidBundle)
    else
      var header := MAGIC + Uint16Bytes(VERSION) + IdBytes(bundleID) + IdBytes(bundleDigest) + Uint32Bytes(index)
        + Uint32Bytes(count)
                    + BigEndian(8, total) + Uint32Bytes(|payload|) + payload;
      var paddingCount := bucket - NONCE_BYTES - TAG_BYTES - |header|;
      if paddingCount < MINIMUM_PADDING || |padding| != paddingCount then Err(InvalidBundle)
      else Ok(header + padding)
  }

  /** The accepted frames, by fixed field positions. */
  function Decode(frame: seq<Byte>, routeID: Id, packetID: Id, routeRevision: nat, bucket: nat)
    : (r: Result<Fragment, PacketError>)
  {
    if !ValidBucket(bucket) then
      Err(InvalidPacket)
    else if |frame| != bucket - NONCE_BYTES - TAG_BYTES || frame[..4] != MAGIC
            || FromBigEndian(frame[4..6]) != VERSION || FromBigEndian(frame[78..86]) > MAX_SAFE_INTEGER then
      Err(MalformedFrame)
    else
      var size := FromBigEndian(frame[86..90]);
      if size > |frame| - HEADER_BYTES || |frame| - HEADER_BYTES - size < MINIMUM_PADDING
         || !NonZero(IdFromBytes(frame[6..38])) then
        Err(MalformedFrame)
      else
        var f := Fragment(routeID, packetID, routeRevision, bucket, IdFromBytes(frame[6..38]),
                          IdFromBytes(frame[38..70]),
                          FromBigEndian(frame[70..74]), FromBigEndian(frame[74..78]), FromBigEndian(frame[78..86]),
                          frame[90..90 + size]);
        if ValidFragment(f) then Ok(f) else Err(MalformedFrame)
  }

  /** The decoder itself: one cursor moves over the frame and every failed check stops it. */
  method DecodeFragment(frame: seq<Byte>, routeID: Id, packetID: Id, routeRevision: nat, bucket: nat)
    returns (r: Result<Fragment, PacketError>)
    ensures r == Decode(frame, routeID, packetID, routeRevision, bucket)
  {
    if !ValidBucket(bucket) {
      return Err(InvalidPacket);
    }
    var expectedFrameBytes := bucket - NONCE_BYTES - TAG_BYTES;
    if |frame| != expectedFrameBytes || frame[..4] != MAGIC {
      return Err(MalformedFrame);
    }
    var offset := 4;
    var version := FromBigEndian(frame[offset..offset + 2]);
    offset := offset + 2;
    if version != VERSION {
      return Err(MalformedFrame);
    }
    var bundleID := IdFromBytes(frame[offset..offset + 32]);
    offset := offset + 32;
    var bundleDigest := IdFromBytes(frame[offset..offset + 32]);
    offset := offset + 32;
    var fragmentIndex := FromBigEndian(frame[offset..offset + 4]);
    offset := offset + 4;
    var fragmentCount := FromBigEndian(frame[offset..offset + 4]);
    offset := offset + 4;
    var totalPayloadBytes := FromBigEndian(frame[offset..offset + 8]);
    offset := offset + 8;
    if totalPayloadBytes > MAX_SAFE_INTEGER {
      return Err(MalformedFrame);
    }
    var fragmentBytes := FromBigEndian(frame[offset..offset + 4]);
    offset := offset + 4;
    if fragmentBytes > |frame| - offset || |frame| - offset - fragmentBytes < MINIMUM_PADDING {
      return Err(MalformedFrame);
    }
    if !NonZero(bundleID) {
      return Err(MalformedFrame);
    }
    var payload := frame[offset..offset + fragmentBytes];
    var fragment := Fragment(routeID, packetID, routeRevision, bucket, bundleID, bundleDigest,
                             fragmentIndex, fragmentCount, totalPayloadBytes, payload);
    if !ValidFragment(fragment) {
      return Err(MalformedFrame);
    }
    return Ok(fragment);
  }

  lemma LayoutFields(bundleID: Id, bundleDigest: Id, index: nat, count: nat, total: nat, payload: seq<Byte>,
                     padding: seq<Byte>)
    ensures var frame := Layout(bundleID, bundleDigest, index, count, total, payload) + padding;
            && frame[..4] == MAGIC && frame[4..6] == BigEndian(2, VERSION)
            && frame[6..38] == IdBytes(bundleID) && frame[38..70] == IdBytes(bundleDigest)
            && frame[70..74] == BigEndian(4, index) && frame[74..78] == BigEndian(4, count)
            && frame[78..86] == BigEndian(8, total) && frame[86..90] == BigEndian(4, |payload|)
            && frame[90..90 + |payload|] == payload && frame[90 + |payload|..] == padding
  {
  }

  lemma PayloadFits(f: Fragment)
    requires ValidBucket(f.paddingBucket) && ValidFragment(f)
    ensures 0 < |f.payload| <= Capacity(f.paddingBucket)
  {
    var capacity := Capacity(f.paddingBucket);
    var count := CeilDiv(f.totalPayloadBytes, capacity);
    CeilDivBounds(f.totalPayloadBytes, capacity);
    assert (count - 1) * capacity < f.totalPayloadBytes <= count * capacity;
    assert count * capacity == (count - 1) * capacity + capacity;
  }

  /** Fragments that a payload of `total` octets has in a bucket, each with room for 150 octets less than it. */
  predicate SizesFit(index: nat, count: nat, total: nat, size: nat, bucket: nat) {
    && 0 < total <= 67108864 && index < count <= 4096
    && (count - 1) * (bucket - 150) < total <= count * (bucket - 150)
    && size == if index == count - 1 then total - (count - 1) * (bucket - 150) else bucket - 150
  }

  lemma SizesOfValidFragment(f: Fragment)
    requires ValidBucket(f.paddingBucket)
    ensures ValidFragment(f) <==>
            SizesFit(f.fragmentIndex, f.fragmentCount, f.totalPayloadBytes, |f.payload|, f.paddingBucket)
  {
    var capacity := Capacity(f.paddingBucket);
    assert capacity == f.paddingBucket - 150;
    if f.totalPayloadBytes > 0 {
      CeilDivBounds(f.totalPayloadBytes, capacity);
      var count := CeilDiv(f.totalPayloadBytes, capacity);
      if f.fragmentCount > 0 && (f.fragmentCount - 1) * capacity < f.totalPayloadBytes <= f.fragmentCount * capacity {
        OnlyCount(f.totalPayloadBytes, capacity, f.fragmentCount, count);
      }
    }
  }

  /** Which frames are written, and why others are not. */
  lemma EncodesExactly(bundleID: Id, bundleDigest: Id, index: int, count: int, total: int, payload: seq<Byte>,
                       bucket: nat, padding: seq<Byte>)
    ensures var r := EncodeFrame(bundleID, bundleDigest, index, count, total, payload, bucket, padding);
            && (r.Ok? <==> && bucket in [4096, 16384, 65536] && 0 <= index < count <= 4096 && 0 < total <= 67108864
                           && |payload| <= bucket - 150 && |padding| == bucket - 118 - |payload|)
            && (r.Err? ==> r.error == if bucket in [4096, 16384, 65536] then InvalidBundle else InvalidPacket)
  {
  }

  lemma OnlyCount(total: nat, capacity: nat, a: nat, b: nat)
    requires a > 0 && b > 0 && (a - 1) * capacity < total <= a * capacity
    requires (b - 1) * capacity < total <= b * capacity
    ensures a == b
  {
    if a < b {
      MultiplyOrder(a, b - 1, capacity);
    } else if b < a {
      MultiplyOrder(b, a - 1, capacity);
    }
  }

  lemma MultiplyOrder(a: nat, b: nat, c: nat)
    requires a <= b
    ensures a * c <= b * c
  {
  }

  /** A frame is accepted exactly with its mark, every field in its place, sizes that fit and padding left over. */
  lemma FrameLayout(frame: seq<Byte>, routeID: Id, packetID: Id, routeRevision: nat, bucket: nat, f: Fragment)
    ensures Decode(frame, routeID, packetID, routeRevision, bucket) == Ok(f) <==>
            && bucket in [4096, 16384, 65536] && |frame| == bucket - 28
            && frame[..6] == [0x4e, 0x57, 0x52, 0x50, 0, 2]
            && f.routeID == routeID && f.packetID == packetID && f.routeRevision == routeRevision
            && f.paddingBucket == bucket
            && f.bundleID == FromBigEndian(frame[6..38]) != 0 && f.bundleDigest == FromBigEndian(frame[38..70])
            && f.fragmentIndex == FromBigEndian(frame[70..74]) && f.fragmentCount == FromBigEndian(frame[74..78])
            && f.totalPayloadBytes == FromBigEndian(frame[78..86]) && |f.payload| == FromBigEndian(frame[86..90])
            && 90 + |f.payload| + 32 <= |frame| && f.payload == frame[90..90 + |f.payload|]
            && SizesFit(f.fragmentIndex, f.fragmentCount, f.totalPayloadBytes, |f.payload|, bucket)
  {
    hide FromBigEndian, ValidFragment, SizesFit;
    if ValidBucket(bucket) && |frame| == bucket - 28 {
      VersionOctets(frame);
      var size := FromBigEndian(frame[86..90]);
      if 90 + size + 32 <= |frame| {
        IdBytesRoundTrip(0, frame[6..38]);
        IdBytesRoundTrip(0, frame[38..70]);
        var g := Fragment(routeID, packetID, routeRevision, bucket, IdFromBytes(frame[6..38]),
                          IdFromBytes(frame[38..70]), FromBigEndian(frame[70..74]), FromBigEndian(frame[74..78]),
                          FromBigEndian(frame[78..86]), frame[90..90 + size]);
        SizesOfValidFragment(g);
        SmallTotal(g);
      }
    }
  }

  lemma SmallTotal(f: Fragment)
    ensures SizesFit(f.fragmentIndex, f.fragmentCount, f.totalPayloadBytes, |f.payload|, f.paddingBucket) ==>
              f.totalPayloadBytes <= MAX_SAFE_INTEGER
  {
  }

  lemma VersionOctets(frame: seq<Byte>)
    requires |frame| >= 6
    ensures frame[..4] == MAGIC && FromBigEndian(frame[4..6]) == VERSION <==>
            frame[..6] == [0x4e, 0x57, 0x52, 0x50, 0, 2]
  {
    var s := frame[4..6];
    assert s[..1][..0] == [] && s[..1][0] == s[0];
    assert FromBigEndian(s[..1]) == s[0];
    assert FromBigEndian(s) == 256 * (s[0] as int) + s[1];
    assert frame[..6] == frame[..4] + s;
    assert frame[..4] == frame[..6][..4];
  }

  /** Encoding then decoding gives back every field, for every valid fragment and every padding. */
  lemma DecodeUndoesEncode(f: Fragment, padding: seq<Byte>)
    requires ValidBucket(f.paddingBucket) && ValidFragment(f) && NonZero(f.bundleID)
    requires |padding| == f.paddingBucket - NONCE_BYTES - TAG_BYTES - HEADER_BYTES - |f.payload|
    ensures var e := EncodeFrame(f.bundleID, f.bundleDigest, f.fragmentIndex, f.fragmentCount, f.totalPayloadBytes,
                                 f.payload, f.paddingBucket, padding);
            e.Ok? && Decode(e.value, f.routeID, f.packetID, f.routeRevision, f.paddingBucket) == Ok(f)
  {
    PayloadFits(f);
    Widths();
    var frame := Layout(f.bundleID, f.bundleDigest, f.fragmentIndex, f.fragmentCount, f.totalPayloadBytes, f.payload)
                 + padding;
    assert EncodeFrame(f.bundleID, f.bundleDigest, f.fragmentIndex, f.fragmentCount, f.totalPayloadBytes,
                       f.payload, f.paddingBucket, padding) == Ok(frame);
    LayoutFields(f.bundleID, f.bundleDigest, f.fragmentIndex, f.fragmentCount, f.totalPayloadBytes, f.payload, padding);
    IdBytesRoundTrip(f.bundleID, []);
    IdBytesRoundTrip(f.bundleDigest, []);
    ReadsWhatWasWritten(2, VERSION);
    ReadsWhatWasWritten(4, f.fragmentIndex);
    ReadsWhatWasWritten(4, f.fragmentCount);
    ReadsWhatWasWritten(8, f.totalPayloadBytes);
    ReadsWhatWasWritten(4, |f.payload|);
  }

  /** Re-encoding a decoded fragment with the frame's own tail gives back the frame, octet for octet. */
  lemma EncodeUndoesDecode(frame: seq<Byte>, routeID: Id, packetID: Id, routeRevision: nat, bucket: nat)
    requires Decode(frame, routeID, packetID, routeRevision, bucket).Ok?
    ensures var f := Decode(frame, routeID, packetID, routeRevision, bucket).value;
            && ValidFragment(f) && NonZero(f.bundleID)
            && EncodeFrame(f.bundleID, f.bundleDigest, f.fragmentIndex, f.fragmentCount, f.totalPayloadBytes,
                           f.payload, bucket, frame[HEADER_BYTES + |f.payload|..]) == Ok(frame)
  {
    hide FromBigEndian, BigEndian, Pow256;
    var f := Decode(frame, routeID, packetID, routeRevision, bucket).value;
    PayloadFits(f);
    var size := |f.payload|;
    IdBytesRoundTrip(0, frame[6..38]);
    IdBytesRoundTrip(0, frame[38..70]);
    WritesWhatWasRead(frame[4..6]);
    WritesWhatWasRead(frame[70..74]);
    WritesWhatWasRead(frame[74..78]);
    WritesWhatWasRead(frame[78..86]);
    WritesWhatWasRead(frame[86..90]);
    var header := Layout(f.bundleID, f.bundleDigest, f.fragmentIndex, f.fragmentCount, f.totalPayloadBytes, f.payload);
    assert header == frame[..90 + size] by {
      assert frame[..90 + size] == frame[..4] + frame[4..6] + frame[6..38] + frame[38..70] + frame[70..74]
        + frame[74..78] + frame[78..86] + frame[86..90] + frame[90..90 + size];
    }
    assert header + frame[90 + size..] == frame;
  }
}
