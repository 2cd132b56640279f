/**
 * When the quarantine keeps a page of records from being saved
 * (src/durable-pairwise-messaging-v2.js): a packet is appended without looking
 * for its identifier, and a state that holds one twice is refused. Inputs on
 * which receiving falls short.
 */
module InboundLimits {
  import opened Wrappers
  import opened Bytes
  import opened Collections
  import opened PacketFrame
  import opened PacketSealing
  import opened SyncLog
  import opened Inbound
  import R = Reassembly

  // ---- Which packets a page quarantines ----

  /** Applying the record quarantines its packet. */
  predicate Rejects<App>(e: Platform<App>, s: Effects<App>, r: Record, at: int)
    requires r.routeRevision >= 0
  {
    match R.Consume(e.h, s.reassembler, r.packet, e.payloadKey, r.routeRevision).outcome
    case Failed(error) => TerminalPacketFailure(error)
    case Complete(bundle) => e.process(s.app, bundle.payload, at).NotAnEnvelope?
    case _ => false
  }

  /** Identifiers of the packets that applying the records quarantines, in order. */
  function Rejected<App>(e: Platform<App>, s: Effects<App>, packets: seq<Record>, at: int): seq<Id>
    requires forall i :: 0 <= i < |packets| ==> 0 <= packets[i].routeRevision <= MAX_SAFE_INTEGER
  {
    if packets == [] then []
    else
      var front, last := packets[..|packets| - 1], packets[|packets| - 1];
      Rejected(e, s, front, at)
      + match ApplyAll(e, s, Applications(front, at))
        case None => []
        case Some(t) => if Rejects(e, t, last, at) then [last.packet.packetID] else []
  }

  function IDs(q: seq<Quarantined>): (ids: seq<Id>)
    ensures |ids| == |q| && forall i :: 0 <= i < |q| ==> ids[i] == q[i].packet.packetID
  {
    seq(|q|, i requires 0 <= i < |q| => q[i].packet.packetID)
  }

  /** How long a quarantine of `held` packets is after `more`: at its bound it gives way to its newest 48. */
  function LengthAfter(held: nat, more: nat): (n: nat)
    ensures n <= held + more && (held <= MAXIMUM_QUARANTINED_PACKETS ==> n <= MAXIMUM_QUARANTINED_PACKETS)
  {
    if more == 0 then held
    else
      var n := LengthAfter(held, more - 1);
      (if n < MAXIMUM_QUARANTINED_PACKETS then n else 48) + 1
  }

  function Newest<T>(ids: seq<T>, n: nat): (r: seq<T>)
    requires n <= |ids|
    ensures |r| == n
  {
    ids[|ids| - n..]
  }

  /** What of the quarantine is still held, before `more` packets, after them and when its oldest are dropped. */
  function StillHeld(held: seq<Id>, more: nat, dropped: nat): seq<Id> {
    var n := LengthAfter(|held|, more);
    if n <= more + dropped then [] else Newest(held, n - dropped - more)
  }

  lemma RecordQuarantine<App>(e: Platform<App>, s: Effects<App>, r: Record, at: int)
    requires r.routeRevision >= 0 && ApplyRecord(e, s, r, at).Some? && |s.quarantine| <= MAXIMUM_QUARANTINED_PACKETS
    ensures var t := ApplyRecord(e, s, r, at).value;
            && |t.quarantine| <= MAXIMUM_QUARANTINED_PACKETS
            && (if Rejects(e, s, r, at) then
                  var n := if |s.quarantine| < MAXIMUM_QUARANTINED_PACKETS then |s.quarantine| else 48;
                  IDs(t.quarantine) == Newest(IDs(s.quarantine), n) + [r.packet.packetID]
                else t.quarantine == s.quarantine)
  {
    hide R.Consume;
  }

  lemma NewestAgain(held: seq<Id>, more: seq<Id>, n: nat, k: nat, id: Id)
    requires k <= n <= |held| + |more|
    ensures Newest(Newest(held + more, n), k) + [id] == Newest(held + (more + [id]), k + 1)
  {
    assert held + (more + [id]) == (held + more) + [id];
  }

  /** The quarantine after a page is the end of what was in it followed by what the page quarantines. */
  lemma {:induction false} PageQuarantine<App>(e: Platform<App>, s: Effects<App>, packets: seq<Record>, at: int)
    requires forall i :: 0 <= i < |packets| ==> 0 <= packets[i].routeRevision <= MAX_SAFE_INTEGER
    requires ApplyAll(e, s, Applications(packets, at)).Some? && |s.quarantine| <= MAXIMUM_QUARANTINED_PACKETS
    ensures var t, rejected := ApplyAll(e, s, Applications(packets, at)).value, Rejected(e, s, packets, at);
            && |t.quarantine| == LengthAfter(|s.quarantine|, |rejected|) <= MAXIMUM_QUARANTINED_PACKETS
            && IDs(t.quarantine) == Newest(IDs(s.quarantine) + rejected, |t.quarantine|)
  {
    hide ApplyRecord, Rejects, Newest;
    if packets == [] {
      NewestOfAll(IDs(s.quarantine));
    } else {
      var front, last := packets[..|packets| - 1], packets[|packets| - 1];
      var page := Applications<App>(packets, at);
      assert page[..|page| - 1] == Applications(front, at);
      PageQuarantine(e, s, front, at);
      var before, rejected := ApplyAll(e, s, Applications(front, at)).value, Rejected(e, s, front, at);
      RecordQuarantine(e, before, last, at);
      if Rejects(e, before, last, at) {
        var n := |before.quarantine|;
        var k := if n < MAXIMUM_QUARANTINED_PACKETS then n else 48;
        NewestAgain(IDs(s.quarantine), rejected, n, k, last.packet.packetID);
      } else {
        assert rejected + [] == rejected;
      }
    }
  }

  lemma NewestOfAll(ids: seq<Id>)
    ensures Newest(ids + [], |ids|) == ids
  {
    assert ids + [] == ids;
  }

  /** What a page quarantines is among its packets, so it names none twice. */
  lemma {:induction false} RejectedOnce<App>(e: Platform<App>, s: Effects<App>, packets: seq<Record>, at: int)
    requires forall i :: 0 <= i < |packets| ==> 0 <= packets[i].routeRevision <= MAX_SAFE_INTEGER
    requires Unrepeated(packets)
    ensures var rejected := Rejected(e, s, packets, at);
            && (forall id :: id in rejected ==> Names(packets, id))
            && Distinct(rejected)
  {
    hide ApplyAll, Rejects;
    if packets != [] {
      var front, last := packets[..|packets| - 1], packets[|packets| - 1];
      RejectedOnce(e, s, front, at);
      forall id | Names(front, id) ensures Names(packets, id) && id != last.packet.packetID {
        var k :| 0 <= k < |front| && front[k].packet.packetID == id;
        assert packets[k].packet.packetID == id;
      }
      assert Names(packets, last.packet.packetID);
    }
  }

  ghost predicate Names(packets: seq<Record>, id: Id) {
    exists k :: 0 <= k < |packets| && packets[k].packet.packetID == id
  }

  /**
   * The newest of two lists, each without repetition, repeat something exactly
   * when the second names what is left of the first.
   */
  lemma NewestRepeats(held: seq<Id>, more: seq<Id>, n: nat)
    requires n <= |held| + |more| && Distinct(held) && Distinct(more)
    ensures var left := if n <= |more| then [] else Newest(held, n - |more|);
            Distinct(Newest(held + more, n)) <==> forall id :: id in more ==> id !in left
  {
    var all := Newest(held + more, n);
    if n <= |more| {
      assert all == Newest(more, n);
      NewestDistinct(more, n);
    } else {
      var left := Newest(held, n - |more|);
      assert all == left + more;
      NewestDistinct(held, n - |more|);
      JoinedDistinct(left, more);
    }
  }

  lemma NewestDistinct(ids: seq<Id>, n: nat)
    requires n <= |ids| && Distinct(ids)
    ensures Distinct(Newest(ids, n))
  {
    forall i, j | 0 <= i < j < n ensures Newest(ids, n)[i] != Newest(ids, n)[j] {
      assert ids[|ids| - n + i] != ids[|ids| - n + j];
    }
  }

  lemma JoinedDistinct(a: seq<Id>, b: seq<Id>)
    requires Distinct(a) && Distinct(b)
    ensures Distinct(a + b) <==> forall id :: id in b ==> id !in a
  {
    if forall id :: id in b ==> id !in a {
      forall i, j | 0 <= i < j < |a + b| ensures (a + b)[i] != (a + b)[j] {
        if i < |a| <= j {
          assert (a + b)[j] == b[j - |a|] && b[j - |a|] in b && a[i] in a;
        }
      }
    } else {
      var id :| id in b && id in a;
      var i :| 0 <= i < |a| && a[i] == id;
      var j :| 0 <= j < |b| && b[j] == id;
      assert (a + b)[i] == (a + b)[|a| + j];
    }
  }

  lemma QuarantineByIDs(q: seq<Quarantined>)
    requires |q| <= MAXIMUM_QUARANTINED_PACKETS
    ensures QuarantineFits(q) <==> Distinct(IDs(q))
  {
    if Distinct(IDs(q)) {
      forall i, j | 0 <= i < j < |q| ensures q[i].packet.packetID != q[j].packet.packetID {
        assert IDs(q)[i] != IDs(q)[j];
      }
    }
  }

  /** None of the packets is still in the quarantine once they are all in it. */
  predicate NoneHeld(q: seq<Quarantined>, rejected: seq<Id>, dropped: nat) {
    forall id :: id in rejected ==> id !in StillHeld(IDs(q), |rejected|, dropped)
  }

  lemma QuarantineFitsExactly<App>(e: Platform<App>, s: Effects<App>, packets: seq<Record>, at: int, dropped: nat)
    requires forall i :: 0 <= i < |packets| ==> 0 <= packets[i].routeRevision <= MAX_SAFE_INTEGER
    requires ApplyAll(e, s, Applications(packets, at)).Some? && QuarantineFits(s.quarantine) && Unrepeated(packets)
    requires dropped <= |ApplyAll(e, s, Applications(packets, at)).value.quarantine|
    ensures QuarantineFits(ApplyAll(e, s, Applications(packets, at)).value.quarantine[dropped..])
       <==> NoneHeld(s.quarantine, Rejected(e, s, packets, at), dropped)
  {
    hide ApplyAll, Rejected, Distinct, QuarantineFits, Newest;
    var t, rejected := ApplyAll(e, s, Applications(packets, at)).value, Rejected(e, s, packets, at);
    FewHeld(s.quarantine);
    PageQuarantine(e, s, packets, at);
    RejectedOnce(e, s, packets, at);
    QuarantineByIDs(s.quarantine);
    QuarantineByIDs(t.quarantine[dropped..]);
    NewestOfNewest(IDs(s.quarantine) + rejected, t.quarantine, dropped);
    NewestRepeats(IDs(s.quarantine), rejected, |t.quarantine| - dropped);
  }

  lemma NewestOfNewest(ids: seq<Id>, q: seq<Quarantined>, dropped: nat)
    requires dropped <= |q| <= |ids| && IDs(q) == Newest(ids, |q|)
    ensures IDs(q[dropped..]) == Newest(ids, |q| - dropped)
  {
    forall i | 0 <= i < |q| - dropped ensures IDs(q[dropped..])[i] == Newest(ids, |q| - dropped)[i] {
      assert IDs(q)[dropped + i] == q[dropped + i].packet.packetID;
    }
  }

  lemma FewHeld(q: seq<Quarantined>)
    requires QuarantineFits(q)
    ensures |q| <= MAXIMUM_QUARANTINED_PACKETS
  {
  }

  /**
   * A page that goes on where the cursor stands and whose records all apply is
   * saved exactly when its quarantine fits.
   */
  lemma SavedExactly<App>(e: Platform<App>, w: World<App>, limit: int, b: Batch, at: int)
    requires QuarantineFits(w.local.effects.quarantine) && PageContinues(e, w.local, limit, b)
    requires forall i :: 0 <= i < |b.packets| ==> 0 <= b.packets[i].routeRevision <= MAX_SAFE_INTEGER
    requires ApplyAll(e, w.local.effects, Applications(b.packets, at)).Some?
    ensures Step(e, w, SavePage(limit, b, at)).Some?
       <==> NoneHeld(w.local.effects.quarantine, Rejected(e, w.local.effects, b.packets, at), 0)
  {
    hide ApplyAll, Rejected, QuarantineFits, NoneHeld;
    QuarantineFitsExactly(e, w.local.effects, b.packets, at, 0);
    var q := ApplyAll(e, w.local.effects, Applications(b.packets, at)).value.quarantine;
    assert q[0..] == q;
  }

  lemma HeldFits<App>(e: Platform<App>, start: World<App>, w: World<App>)
    requires Good(e, start, w)
    ensures QuarantineFits(w.local.effects.quarantine)
  {
  }

  /**
   * At every point of every run: a page that goes on where the cursor stands,
   * and whose records all apply, is saved exactly when it quarantines no packet
   * that is still in the quarantine by then.
   */
  lemma {:induction false} PageIsSavedExactly<App>(e: Platform<App>, worlds: seq<World<App>>, actions: seq<Action<App>>,
                                                   n: nat, limit: int, b: Batch, at: int)
    requires Trace(e, worlds, actions) && Initial(e, worlds[0]) && n < |worlds|
    requires PageContinues(e, worlds[n].local, limit, b)
    requires forall i :: 0 <= i < |b.packets| ==> 0 <= b.packets[i].routeRevision <= MAX_SAFE_INTEGER
    requires ApplyAll(e, worlds[n].local.effects, Applications(b.packets, at)).Some?
    ensures var s := worlds[n].local.effects; var rejected := Rejected(e, s, b.packets, at);
            Step(e, worlds[n], SavePage(limit, b, at)).Some? <==>
            forall id :: id in rejected ==> id !in StillHeld(IDs(s.quarantine), |rejected|, 0)
  {
    hide Trace, Initial, Good, Step, PageContinues, ApplyAll, Rejected, QuarantineFits;
    TraceGood(e, worlds, actions, n);
    HeldFits(e, worlds[0], worlds[n]);
    SavedExactly(e, worlds[n], limit, b, at);
  }

  /**
   * The same when a save over its byte budget first drops the oldest of what
   * the page left in the quarantine: the rest passes exactly when the page
   * quarantined no packet that is still in it.
   */
  lemma {:induction false} TrimmedPageFitsExactly<App>(e: Platform<App>, worlds: seq<World<App>>,
                                                       actions: seq<Action<App>>, n: nat, limit: int, b: Batch,
                                                       at: int, dropped: nat)
    requires Trace(e, worlds, actions) && Initial(e, worlds[0]) && n < |worlds|
    requires PageContinues(e, worlds[n].local, limit, b)
    requires forall i :: 0 <= i < |b.packets| ==> 0 <= b.packets[i].routeRevision <= MAX_SAFE_INTEGER
    requires var after := ApplyAll(e, worlds[n].local.effects, Applications(b.packets, at));
             after.Some? && dropped <= |after.value.quarantine|
    ensures var s := worlds[n].local.effects; var rejected := Rejected(e, s, b.packets, at);
            QuarantineFits(ApplyAll(e, s, Applications(b.packets, at)).value.quarantine[dropped..]) <==>
            forall id :: id in rejected ==> id !in StillHeld(IDs(s.quarantine), |rejected|, dropped)
  {
    hide Trace, Initial, Good, Step, ApplyAll, Rejected, QuarantineFits;
    TraceGood(e, worlds, actions, n);
    HeldFits(e, worlds[0], worlds[n]);
    QuarantineFitsExactly(e, worlds[n].local.effects, b.packets, at, dropped);
  }

  // ---- A page that is refused whenever it comes ----

  function SomeHashes(): Hashes {
    Hashes((b, p) => 0, (r, p, f) => 0, (c, r, o, t, n) => 0)
  }

  /** A route on which no bundle is an envelope. */
  function SomeRoute(): Platform<bool> {
    Platform(SomeHashes(), i => 0, 1, 0, (app, payload, at) => NotAnEnvelope)
  }

  function SomePacket(plaintext: seq<Byte>): Packet {
    Packet(1, 1, SealedFrame(0, seq(12, i => 0), AuthenticatedData(1, 1, 0, 4096), plaintext), SendProof(0, 0, 0, 0))
  }

  /** A frame of the right length and nothing else. */
  function Blank(): seq<Byte> {
    seq(4068, i => 0)
  }

  function PageOf(n: nat): Batch {
    Batch([Record(n + 1, 0, 0, 0, SomePacket(Blank()))], n, 0, n + 1, 0, n + 1, 0, n + 1, false)
  }

  function Fresh(): World<bool> {
    World(Local(0, 0, 0, None, Effects(FreshReassembler(), false, [])), {}, 0, [])
  }

  lemma BlankIsMalformed(s: R.State)
    requires s.packetDigests == map[]
    ensures R.Consume(SomeHashes(), s, SomePacket(Blank()), 0, 0) == R.Step(s, R.Failed(MalformedFrame))
  {
    hide R.ConsumeFragment, AuthenticatedData;
    assert Blank()[..4][0] == 0 && MAGIC[0] == 0x4e;
    assert Decode(Blank(), 1, 1, 0, 4096) == Err(MalformedFrame);
  }

  lemma PageIsAccepted(n: nat)
    requires n <= 1
    ensures Accepted(SomeHashes(), SomeRoute().digest, 1, 1, PageOf(n))
  {
    hide AuthenticatedData;
    assert Linked(PageOf(n).packets, 0, n, 0);
  }

  /** The packet of the page is quarantined, whenever it comes. */
  lemma PageQuarantines(s: Effects<bool>, n: nat, at: int)
    requires s.reassembler.packetDigests == map[]
    ensures Applications<bool>(PageOf(n).packets, at) == [Received(PageOf(n).packets[0], at)]
    ensures ApplyAll(SomeRoute(), s, Applications(PageOf(n).packets, at))
         == Some(s.(quarantine := Quarantine(s.quarantine, PageOf(n).packets[0], BadPacket(MalformedFrame))))
    ensures Rejected(SomeRoute(), s, PageOf(n).packets, at) == [1]
  {
    hide R.Consume, Blank, AuthenticatedData, Quarantine;
    BlankIsMalformed(s.reassembler);
    var packets := PageOf(n).packets;
    var page := Applications<bool>(packets, at);
    assert page == [Received(packets[0], at)];
    assert page[..0] == [] && packets[..0] == [] && Applications<bool>([], at) == [];
    assert ApplyRecord(SomeRoute(), s, packets[0], at)
        == Some(s.(quarantine := Quarantine(s.quarantine, packets[0], BadPacket(MalformedFrame))));
    assert Rejects(SomeRoute(), s, packets[0], at);
    assert Rejected(SomeRoute(), s, [], at) == [];
  }

  /** What the first page leaves: its packet in the quarantine, and the cursor behind it. */
  function AfterFirst(): World<bool> {
    var entry := Quarantined(SomePacket(Blank()), 1, 0, 0, BadPacket(MalformedFrame));
    World(Local(1, 0, 1, None, Effects(FreshReassembler(), false, [entry])), {}, 0,
          [Received(Record(1, 0, 0, 0, SomePacket(Blank())), 0)])
  }

  lemma FirstPageSaves()
    ensures Step(SomeRoute(), Fresh(), SavePage(1, PageOf(0), 0)) == Some(AfterFirst())
  {
    hide Quarantine, AuthenticatedData, Accepted, ApplyAll, Blank, R.Initial, Applications;
    PageIsAccepted(0);
    NothingOnRecord();
    PageQuarantines(Fresh().local.effects, 0, 0);
    FirstEntry(AfterFirst().local.effects.quarantine[0], PageOf(0).packets[0]);
    assert QuarantineFits(AfterFirst().local.effects.quarantine);
    assert [] + AfterFirst().applied == AfterFirst().applied;
  }

  lemma SecondContinues()
    ensures PageContinues(SomeRoute(), AfterFirst().local, 1, PageOf(1))
  {
    hide Accepted, Blank, AuthenticatedData;
    PageIsAccepted(1);
  }

  /** After a page with a malformed packet, a page with that packet again is refused at whatever time it comes. */
  lemma RefusedPage() returns (worlds: seq<World<bool>>, actions: seq<Action<bool>>)
    ensures Trace(SomeRoute(), worlds, actions) && Initial(SomeRoute(), worlds[0]) && |worlds| == 2
    ensures PageContinues(SomeRoute(), worlds[1].local, 1, PageOf(1))
    ensures forall at :: Refused(worlds[1], at)
  {
    hide Step, PageOf, Fresh, AfterFirst, PageContinues, Refused;
    FirstPageSaves();
    SecondContinues();
    FreshIsInitial();
    worlds, actions := [Fresh(), AfterFirst()], [SavePage(1, PageOf(0), 0)];
    forall at ensures Refused(AfterFirst(), at) {
      SecondRefused(at);
    }
  }

  lemma FreshIsInitial()
    ensures Initial(SomeRoute(), Fresh())
  {
  }

  lemma SecondRefused(at: int)
    ensures Refused(AfterFirst(), at)
  {
    hide Quarantine, SomePacket, Rejected, ApplyAll, Step, Applications, PageContinues, FreshReassembler;
    hide SomeRoute, NoneHeld, PageOf;
    hide QuarantineFits, AfterFirst;
    PageShape(1);
    SecondContinues();
    FirstIsHeld();
    PageQuarantines(AfterFirst().local.effects, 1, at);
    SavedExactly(SomeRoute(), AfterFirst(), 1, PageOf(1), at);
  }

  lemma FirstIsHeld()
    ensures var s := AfterFirst().local.effects;
            && s.reassembler.packetDigests == map[] && QuarantineFits(s.quarantine) && !NoneHeld(s.quarantine, [1], 0)
  {
    hide FreshReassembler, QuarantineFits, NoneHeld, Blank, AuthenticatedData;
    NothingOnRecord();
    HeldAgain(AfterFirst().local.effects.quarantine);
  }

  /** A quarantine of one packet still holds it when it comes again. */
  lemma HeldAgain(q: seq<Quarantined>)
    requires |q| == 1
    ensures QuarantineFits(q) && !NoneHeld(q, [q[0].packet.packetID], 0)
  {
    var id := q[0].packet.packetID;
    assert IDs(q) == [id];
    assert LengthAfter(1, 0) == 1 && LengthAfter(1, 1) == 2;
    assert StillHeld([id], 1, 0) == Newest([id], 1) == [id];
    assert id in [id];
  }

  lemma NothingOnRecord()
    ensures FreshReassembler().packetDigests == map[]
  {
  }

  /** The records all apply, and yet the page is not saved. */
  predicate Refused(w: World<bool>, at: int) {
    PageShape(1);
    && ApplyAll(SomeRoute(), w.local.effects, Applications(PageOf(1).packets, at)).Some?
    && Step(SomeRoute(), w, SavePage(1, PageOf(1), at)).None?
  }

  lemma PageShape(n: nat)
    ensures var b := PageOf(n);
            && |b.packets| == 1 && b.packets[0] == Record(n + 1, 0, 0, 0, SomePacket(Blank()))
            && b.startsAfterSequence == n && b.startsAfterRecordDigest == 0 && b.nextSequence == n + 1
               && b.nextRecordDigest == 0
            && b.retentionFloorSequence == 0
  {
    hide Blank, AuthenticatedData;
  }

  lemma FirstEntry(entry: Quarantined, r: Record)
    requires entry == Quarantined(r.packet, r.sequence, r.recordDigest, r.routeRevision, BadPacket(MalformedFrame))
    ensures Quarantine([], r, BadPacket(MalformedFrame)) == [entry]
  {
    assert [] + [entry] == [entry];
  }

  // ---- A digest mismatch can happen ----

  /** The only fragment of a bundle that names another digest than its payload has. */
  function Mislabelled(): Fragment {
    Fragment(1, 1, 0, 4096, 1, 5, 0, 1, 1, [0])
  }

  /** A record, valid and well sealed, that fills its bundle and exposes the mismatch on a new route. */
  lemma MismatchCanHappen() returns (r: Record)
    ensures r.routeRevision == 0 && ValidPacket(SomeHashes(), r.packet) && R.Valid(FreshReassembler())
    ensures R.Consume(SomeHashes(), FreshReassembler(), r.packet, 0, 0).outcome == R.Failed(BundleDigestMismatch)
  {
    hide AuthenticatedData, Decode, EncodeFrame;
    var padding: seq<Byte> := seq(4068 - HEADER_BYTES - 1, i => 0);
    var f := Mislabelled();
    MislabelledIsValid();
    MislabelledEncodes(padding);
    DecodeUndoesEncode(f, padding);
    var frame := EncodeFrame(1, 5, 0, 1, 1, [0], 4096, padding).value;
    r := Record(1, 0, 0, 0, SomePacket(frame));
    assert OpenValidated(r.packet, 0, 0) == Ok(f);
    FreshIsValid();
    MislabelledFails();
  }

  lemma MislabelledIsValid()
    ensures ValidFragment(Mislabelled())
  {
  }

  lemma MislabelledEncodes(padding: seq<Byte>)
    requires |padding| == 4068 - HEADER_BYTES - 1
    ensures EncodeFrame(1, 5, 0, 1, 1, [0], 4096, padding).Ok?
  {
  }

  lemma FreshIsValid()
    ensures R.Valid(FreshReassembler())
  {
    var none: map<Id, R.Pending> := map[];
    assert R.PacketIDs(none) == {};
  }

  lemma MislabelledFails()
    ensures R.ConsumeFragment(SomeHashes(), FreshReassembler(), Mislabelled(), 0).outcome
              == R.Failed(BundleDigestMismatch)
  {
    hide R.DiscardPendingBundle, R.Assemble;
    var t := R.Admit(FreshReassembler(), Mislabelled(), 0);
    assert t.pending[1].fragments == map[0 := [0]] && |t.pending[1].fragments| == 1;
  }
}
