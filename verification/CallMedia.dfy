/**
 * Call media (src/call-v1.js): the padded frame layout, the sequence numbers a
 * sender uses up, and a receiver that keeps a sliding window for two epochs.
 */
module CallMedia {
  import opened Wrappers
  import opened Bytes
  import opened Collections

  const HEADER_BYTES := 14
  const TAG_BYTES := 16
  const MAXIMUM_PAYLOAD_BYTES := 16000
  const WINDOW := 256
  const MAXIMUM_EPOCH := 0xffffffff
  const MAXIMUM_SEQUENCE := 9007199254740991

  datatype MediaFrame = MediaFrame(trackID: nat, timestamp: nat, flags: nat, payload: seq<Byte>)

  predicate ValidFrame(f: MediaFrame) {
    && 1 <= f.trackID <= 0xffff && f.timestamp <= 0xffff_ffff_ffff_ffff && f.flags <= 7
    && 0 < |f.payload| <= MAXIMUM_PAYLOAD_BYTES
  }

  predicate SealedSize(count: nat) {
    count == 512 || count == 1024 || count == 2048 || count == 4096 || count == 8192 || count == 16384
  }

  /** The smallest sealed size that holds a frame, as the sender picks it. */
  function Bucket(f: MediaFrame): (count: nat)
    requires ValidFrame(f)
    ensures SealedSize(count) && count >= HEADER_BYTES + |f.payload| + TAG_BYTES
    ensures forall c: nat :: SealedSize(c) && c >= HEADER_BYTES + |f.payload| + TAG_BYTES ==> count <= c
  {
    var minimum := HEADER_BYTES + |f.payload| + TAG_BYTES;
    if minimum <= 512 then 512 else if minimum <= 1024 then 1024 else if minimum <= 2048 then 2048
    else if minimum <= 4096 then 4096 else if minimum <= 8192 then 8192 else 16384
  }

  /** Cleartext of a sealed frame of `sealedByteCount` octets. */
  function Encode(f: MediaFrame, sealedByteCount: nat, padding: seq<Byte>): (r: Option<seq<Byte>>)
    ensures r.Some? ==> |r.value| == sealedByteCount - TAG_BYTES
  {
    if !ValidFrame(f) || !SealedSize(sealedByteCount) || sealedByteCount < HEADER_BYTES + |f.payload| + TAG_BYTES
       || |padding| != sealedByteCount - TAG_BYTES - HEADER_BYTES - |f.payload| then None
    else
      Some([1] + Uint16Bytes(f.trackID) + BigEndian(8, f.timestamp) + [f.flags] + Uint16Bytes(|f.payload|) + f.payload
           + padding)
  }

  function Decode(plaintext: seq<Byte>): Option<MediaFrame> {
    if |plaintext| < HEADER_BYTES || plaintext[0] != 1 then None
    else
      var length := FromBigEndian(plaintext[12..14]);
      if length == 0 || HEADER_BYTES + length > |plaintext| then None
      else
        var f := MediaFrame(FromBigEndian(plaintext[1..3]), FromBigEndian(plaintext[3..11]), plaintext[11],
                            plaintext[14..14 + length]);
        if ValidFrame(f) then Some(f) else None
  }

  /** Every field of every valid frame comes back, whatever the padding. */
  lemma DecodeUndoesEncode(f: MediaFrame, sealedByteCount: nat, padding: seq<Byte>)
    requires Encode(f, sealedByteCount, padding).Some?
    ensures Decode(Encode(f, sealedByteCount, padding).value) == Some(f)
  {
    hide BigEndian, FromBigEndian, Pow256;
    Widths();
    var p := Encode(f, sealedByteCount, padding).value;
    assert p[1..3] == BigEndian(2, f.trackID) && p[3..11] == BigEndian(8, f.timestamp);
    assert p[12..14] == BigEndian(2, |f.payload|) && p[14..14 + |f.payload|] == f.payload;
    ReadsWhatWasWritten(2, f.trackID);
    ReadsWhatWasWritten(8, f.timestamp);
    ReadsWhatWasWritten(2, |f.payload|);
  }

  /** An accepted cleartext of a sealed size is the encoding of what was read, with its own tail as padding. */
  lemma EncodeUndoesDecode(plaintext: seq<Byte>)
    requires SealedSize(|plaintext| + TAG_BYTES) && Decode(plaintext).Some?
    ensures var f := Decode(plaintext).value;
            Encode(f, |plaintext| + TAG_BYTES, plaintext[HEADER_BYTES + |f.payload|..]) == Some(plaintext)
  {
    hide BigEndian, FromBigEndian, Pow256;
    Widths();
    var f := Decode(plaintext).value;
    var n := |f.payload|;
    WritesWhatWasRead(plaintext[1..3]);
    WritesWhatWasRead(plaintext[3..11]);
    WritesWhatWasRead(plaintext[12..14]);
    assert plaintext == [plaintext[0]] + plaintext[1..3] + plaintext[3..11] + [plaintext[11]] + plaintext[12..14]
                        + plaintext[14..14 + n] + plaintext[14 + n..];
  }

  /** Every octet of a cleartext: version, track, timestamp, flags, length and payload in their places. */
  lemma CleartextLayout(plaintext: seq<Byte>, f: MediaFrame)
    ensures Decode(plaintext) == Some(f) <==>
            && |plaintext| >= 14 && plaintext[0] == 1
            && f.trackID == 256 * (plaintext[1] as int) + plaintext[2] && 1 <= f.trackID
            && f.timestamp == FromBigEndian(plaintext[3..11])
            && f.flags == plaintext[11] && f.flags <= 7
            && |f.payload| == 256 * (plaintext[12] as int) + plaintext[13] && 0 < |f.payload| <= 16000
            && 14 + |f.payload| <= |plaintext| && f.payload == plaintext[14..14 + |f.payload|]
  {
    if |plaintext| >= 14 {
      TwoOctets(plaintext[1..3]);
      TwoOctets(plaintext[12..14]);
      Widths();
      WritesWhatWasRead(plaintext[3..11]);
    }
  }

  lemma TwoOctets(s: seq<Byte>)
    requires |s| == 2
    ensures FromBigEndian(s) == 256 * (s[0] as int) + s[1]
  {
    assert s[..1][..0] == [] && s[..1][0] == s[0];
    assert FromBigEndian(s[..1]) == s[0];
  }

  // ---- The replay window ----

  datatype Window = Window(highest: nat, seen: set<int>)

  const EMPTY_WINDOW := Window(0, {})

  predicate Contains(w: Window, sequence: int) {
    sequence <= 0 || (w.highest >= WINDOW && sequence <= w.highest - WINDOW) || sequence in w.seen
  }

  function Insert(w: Window, sequence: int): Window
    requires !Contains(w, sequence)
  {
    var highest := if w.highest < sequence then sequence else w.highest;
    var floor := if highest < WINDOW then 0 else highest - WINDOW;
    Window(highest, (set x | x in w.seen && x > floor) + {sequence})
  }

  /** The window is the full set of accepted sequences, cut to the last 256 below its highest. */
  ghost predicate Mirrors(w: Window, accepted: set<int>) {
    && (forall x :: x in accepted ==> 0 < x <= w.highest)
    && (w.highest > 0 ==> w.highest in accepted)
    && w.seen == set x | x in accepted && x > w.highest - WINDOW
  }

  lemma InsertMirrors(w: Window, accepted: set<int>, sequence: int)
    requires Mirrors(w, accepted) && !Contains(w, sequence)
    ensures sequence !in accepted && Mirrors(Insert(w, sequence), accepted + {sequence})
  {
  }

  /** The bounded window answers as the full set of accepted sequences would, restricted to the last 256. */
  lemma WindowAnswersAsFullSet(w: Window, accepted: set<int>, sequence: int)
    requires Mirrors(w, accepted)
    ensures Contains(w, sequence) <==> sequence <= 0 || sequence in accepted || sequence <= w.highest - WINDOW
  {
  }

  ghost function Interval(low: int, n: nat): set<int> {
    if n == 0 then {} else Interval(low, n - 1) + {low + n}
  }

  lemma {:induction false} IntervalSize(low: int, n: nat)
    ensures |Interval(low, n)| == n && forall x :: x in Interval(low, n) <==> low < x <= low + n
  {
    if n > 0 {
      IntervalSize(low, n - 1);
    }
  }

  /** And it never holds more than 256 sequences. */
  lemma WindowIsBounded(w: Window, accepted: set<int>)
    requires Mirrors(w, accepted)
    ensures |w.seen| <= WINDOW
  {
    IntervalSize(w.highest - WINDOW, WINDOW);
    SubsetSize(w.seen, Interval(w.highest - WINDOW, WINDOW));
  }

  // ---- The receiver ----

  datatype Receiver = Receiver(highestEpoch: Option<nat>, windows: map<nat, Window>)

  datatype Outcome = InvalidEpoch | Replay | NotAuthentic | Delivered

  /** A sealed frame arrives; `authentic` says whether it opens to a valid frame under the call's keys. */
  datatype Arrival = Arrival(epoch: nat, sequence: int, authentic: bool)

  predicate EpochAllowed(highest: Option<nat>, epoch: nat) {
    match highest
    case None => epoch == 0
    case Some(h) => h - 1 <= epoch <= h + 1 && epoch <= MAXIMUM_EPOCH
  }

  function WindowAt(r: Receiver, epoch: nat): Window {
    if epoch in r.windows then r.windows[epoch] else EMPTY_WINDOW
  }

  function Recent(windows: map<nat, Window>, highest: nat): map<nat, Window> {
    map e | e in windows && (e == highest || e + 1 == highest) :: windows[e]
  }

  datatype Opened = Opened(receiver: Receiver, outcome: Outcome)

  function OpenFrame(r: Receiver, a: Arrival): Opened {
    if !EpochAllowed(r.highestEpoch, a.epoch) then Opened(r, InvalidEpoch)
    else if Contains(WindowAt(r, a.epoch), a.sequence) then Opened(r, Replay)
    else if !a.authentic then Opened(r, NotAuthentic)
    else
      var highest := if r.highestEpoch.Some? && r.highestEpoch.value > a.epoch then r.highestEpoch.value else a.epoch;
      var windows := r.windows[a.epoch := Insert(WindowAt(r, a.epoch), a.sequence)];
      Opened(Receiver(Some(highest), Recent(windows, highest)), Delivered)
  }

  datatype Reception = Reception(receiver: Receiver, delivered: seq<(nat, int)>)

  function Receive(arrivals: seq<Arrival>): Reception {
    if arrivals == [] then Reception(Receiver(None, map[]), [])
    else
      var before, a := Receive(arrivals[..|arrivals| - 1]), arrivals[|arrivals| - 1];
      var next := OpenFrame(before.receiver, a);
      Reception(next.receiver, if next.outcome.Delivered? then before.delivered + [(a.epoch, a.sequence)]
                else before.delivered)
  }

  ghost function AcceptedIn(delivered: seq<(nat, int)>, epoch: nat): set<int> {
    set k | 0 <= k < |delivered| && delivered[k].0 == epoch :: delivered[k].1
  }

  /** Windows are kept for the highest epoch and the one before it, and mirror everything delivered there. */
  ghost predicate Remembers(r: Receiver, delivered: seq<(nat, int)>) {
    && Distinct(delivered)
    && (r.highestEpoch.None? ==> r.windows == map[] && delivered == [])
    && (forall k :: 0 <= k < |delivered| ==> r.highestEpoch.Some? && delivered[k].0 <= r.highestEpoch.value)
    && (forall e :: e in r.windows ==>
          && r.highestEpoch.Some? && (e == r.highestEpoch.value || e + 1 == r.highestEpoch.value)
          && Mirrors(r.windows[e], AcceptedIn(delivered, e)))
    && (forall k :: 0 <= k < |delivered| && delivered[k].0 + 1 >= r.highestEpoch.value ==> delivered[k].0 in r.windows)
  }

  lemma AcceptedNext(delivered: seq<(nat, int)>, epoch: nat, sequence: int, e: nat)
    ensures AcceptedIn(delivered + [(epoch, sequence)], e)
         == if e == epoch then AcceptedIn(delivered, e) + {sequence} else AcceptedIn(delivered, e)
  {
    var next := delivered + [(epoch, sequence)];
    assert forall k :: 0 <= k < |delivered| ==> next[k] == delivered[k];
    assert next[|delivered|] == (epoch, sequence);
    forall s | s in AcceptedIn(delivered, e) ensures s in AcceptedIn(next, e) {
      var k :| 0 <= k < |delivered| && delivered[k].0 == e && delivered[k].1 == s;
      assert next[k].0 == e && next[k].1 == s;
    }
  }

  lemma WindowMirrors(r: Receiver, delivered: seq<(nat, int)>, epoch: nat)
    requires Remembers(r, delivered) && EpochAllowed(r.highestEpoch, epoch)
    ensures Mirrors(WindowAt(r, epoch), AcceptedIn(delivered, epoch))
  {
    if epoch !in r.windows {
      assert AcceptedIn(delivered, epoch) == {};
    }
  }

  lemma OpenRemembers(r: Receiver, delivered: seq<(nat, int)>, a: Arrival)
    requires Remembers(r, delivered)
    ensures var next := OpenFrame(r, a);
            Remembers(next.receiver, if next.outcome.Delivered? then delivered + [(a.epoch, a.sequence)] else delivered)
  {
    hide Mirrors, Contains, Insert, AcceptedIn;
    var next := OpenFrame(r, a);
    if next.outcome.Delivered? {
      var after := delivered + [(a.epoch, a.sequence)];
      WindowMirrors(r, delivered, a.epoch);
      InsertMirrors(WindowAt(r, a.epoch), AcceptedIn(delivered, a.epoch), a.sequence);
      NewDelivery(delivered, a.epoch, a.sequence);
      forall e | e in next.receiver.windows ensures Mirrors(next.receiver.windows[e], AcceptedIn(after, e)) {
        AcceptedNext(delivered, a.epoch, a.sequence, e);
      }
    }
  }

  lemma NewDelivery(delivered: seq<(nat, int)>, epoch: nat, sequence: int)
    requires Distinct(delivered) && sequence !in AcceptedIn(delivered, epoch)
    ensures Distinct(delivered + [(epoch, sequence)])
  {
    forall k | 0 <= k < |delivered| ensures delivered[k] != (epoch, sequence) {
      assert delivered[k].0 == epoch ==> delivered[k].1 in AcceptedIn(delivered, epoch);
    }
  }

  lemma {:induction false} ReceiveRemembers(arrivals: seq<Arrival>)
    ensures Remembers(Receive(arrivals).receiver, Receive(arrivals).delivered)
  {
    hide Remembers, OpenFrame;
    if arrivals == [] {
      NothingRemembered();
    } else {
      var before := Receive(arrivals[..|arrivals| - 1]);
      ReceiveRemembers(arrivals[..|arrivals| - 1]);
      OpenRemembers(before.receiver, before.delivered, arrivals[|arrivals| - 1]);
    }
  }

  lemma NothingRemembered()
    ensures Remembers(Receiver(None, map[]), [])
  {
  }

  /** Over the whole run, also after the windows of old epochs were dropped, no frame is delivered twice. */
  lemma DeliveredAtMostOnce(arrivals: seq<Arrival>, j: nat, k: nat)
    requires j < |Receive(arrivals).delivered| && k < |Receive(arrivals).delivered|
    requires Receive(arrivals).delivered[j] == Receive(arrivals).delivered[k]
    ensures j == k
  {
    hide Receive;
    ReceiveRemembers(arrivals);
  }

  /** A frame of an epoch in reach is refused as a replay exactly when it was delivered before or is too old. */
  lemma ReplayExactly(arrivals: seq<Arrival>, a: Arrival)
    requires var r := Receive(arrivals); EpochAllowed(r.receiver.highestEpoch, a.epoch)
    ensures var r := Receive(arrivals);
            OpenFrame(r.receiver, a).outcome == Replay <==>
            || a.sequence <= 0 || a.sequence in AcceptedIn(r.delivered, a.epoch)
            || a.sequence <= WindowAt(r.receiver, a.epoch).highest - WINDOW
  {
    hide Receive, Remembers;
    ReceiveRemembers(arrivals);
    var r := Receive(arrivals);
    WindowMirrors(r.receiver, r.delivered, a.epoch);
    WindowAnswersAsFullSet(WindowAt(r.receiver, a.epoch), AcceptedIn(r.delivered, a.epoch), a.sequence);
  }

  /** The highest epoch is that of some delivered frame. */
  ghost predicate HighestDelivered(r: Receiver, delivered: seq<(nat, int)>) {
    r.highestEpoch.Some? ==> exists k :: 0 <= k < |delivered| && delivered[k].0 == r.highestEpoch.value
  }

  lemma {:induction false} ReceiveHighest(arrivals: seq<Arrival>)
    ensures HighestDelivered(Receive(arrivals).receiver, Receive(arrivals).delivered)
  {
    hide Contains, Insert, Recent, EpochAllowed;
    if arrivals != [] {
      ReceiveHighest(arrivals[..|arrivals| - 1]);
      var before, after := Receive(arrivals[..|arrivals| - 1]), Receive(arrivals);
      if after.delivered != before.delivered {
        assert after.delivered[|before.delivered|].0 == arrivals[|arrivals| - 1].epoch;
        assert forall k :: 0 <= k < |before.delivered| ==> after.delivered[k] == before.delivered[k];
      }
    }
  }

  /** Epochs that a frame can open a call in, continue or rotate to, by the frames delivered before it. */
  ghost predicate InReach(delivered: seq<(nat, int)>, epoch: nat) {
    if delivered == [] then epoch == 0
    else
      && epoch <= 0xffff_ffff
      && (exists k :: 0 <= k < |delivered| && epoch <= delivered[k].0 + 1)
      && forall k :: 0 <= k < |delivered| ==> delivered[k].0 <= epoch + 1
  }

  /** Delivered before, or 256 behind a sequence delivered in its epoch. */
  ghost predicate IsOld(delivered: seq<(nat, int)>, epoch: nat, sequence: int) {
    || sequence <= 0 || (epoch, sequence) in delivered
    || exists k :: 0 <= k < |delivered| && delivered[k].0 == epoch && sequence + 256 <= delivered[k].1
  }

  /**
   * Over any stream: a frame is refused for its epoch exactly when that is out
   * of reach, as a replay exactly when it is old, and delivered exactly when it
   * is new and authentic, all of it read off the frames delivered before.
   */
  lemma DeliveredExactly(arrivals: seq<Arrival>, a: Arrival)
    ensures var d := Receive(arrivals).delivered;
            OpenFrame(Receive(arrivals).receiver, a).outcome ==
            if !InReach(d, a.epoch) then InvalidEpoch
            else if IsOld(d, a.epoch, a.sequence) then Replay
            else if !a.authentic then NotAuthentic
            else Delivered
  {
    hide Receive, Remembers, HighestDelivered, InReach, IsOld, Contains, Recent, Insert;
    ReceiveRemembers(arrivals);
    ReceiveHighest(arrivals);
    var r := Receive(arrivals);
    ReachByHighest(r.receiver, r.delivered, a.epoch);
    if EpochAllowed(r.receiver.highestEpoch, a.epoch) {
      ReplayExactly(arrivals, a);
      OldByWindow(r.receiver, r.delivered, a.epoch, a.sequence);
    }
  }

  lemma ReachByHighest(r: Receiver, delivered: seq<(nat, int)>, epoch: nat)
    requires Remembers(r, delivered) && HighestDelivered(r, delivered)
    ensures EpochAllowed(r.highestEpoch, epoch) <==> InReach(delivered, epoch)
  {
    hide Mirrors;
    if r.highestEpoch.Some? {
      var k :| 0 <= k < |delivered| && delivered[k].0 == r.highestEpoch.value;
    }
  }

  lemma OldByWindow(r: Receiver, delivered: seq<(nat, int)>, epoch: nat, sequence: int)
    requires Remembers(r, delivered) && EpochAllowed(r.highestEpoch, epoch)
    ensures IsOld(delivered, epoch, sequence) <==>
            || sequence <= 0 || sequence in AcceptedIn(delivered, epoch)
            || sequence <= WindowAt(r, epoch).highest - WINDOW
  {
    hide Remembers;
    WindowMirrors(r, delivered, epoch);
    var accepted, window := AcceptedIn(delivered, epoch), WindowAt(r, epoch);
    forall k | 0 <= k < |delivered| && delivered[k].0 == epoch ensures delivered[k].1 in accepted {
    }
    if 0 < sequence <= window.highest - WINDOW {
      var k :| 0 <= k < |delivered| && delivered[k].0 == epoch && delivered[k].1 == window.highest;
    }
    if (epoch, sequence) in delivered {
      var k :| 0 <= k < |delivered| && delivered[k] == (epoch, sequence);
    }
    if sequence in accepted {
      var k :| 0 <= k < |delivered| && delivered[k].0 == epoch && delivered[k].1 == sequence;
      assert delivered[k] == (epoch, sequence);
    }
  }

  // ---- The objects ----

  class ReplayWindow {
    var highest: nat
    var seen: set<int>

    function Value(): Window
      reads this
    {
      Window(highest, seen)
    }

    constructor ()
      ensures Value() == EMPTY_WINDOW
    {
      highest := 0;
      seen := {};
    }

    method InsertSequence(sequence: int) returns (inserted: bool)
      modifies this
      ensures inserted <==> !Contains(old(Value()), sequence)
      ensures Value() == if inserted then Insert(old(Value()), sequence) else old(Value())
    {
      if Contains(Value(), sequence) {
        return false;
      }
      highest := if highest < sequence then sequence else highest;
      var floor := if highest < WINDOW then 0 else highest - WINDOW;
      seen := (set x | x in seen && x > floor);
      seen := seen + {sequence};
      return true;
    }
  }

  class CallMediaReceiver {
    var highestEpoch: Option<nat>
    var replayWindows: map<nat, ReplayWindow>

    ghost function Windows(): map<nat, Window>
      reads `replayWindows, replayWindows.Values
    {
      map e | e in replayWindows :: replayWindows[e].Value()
    }

    ghost function Value(): Receiver
      reads this, replayWindows.Values
    {
      Receiver(highestEpoch, Windows())
    }

    ghost predicate Valid()
      reads this
    {
      forall e, f :: e in replayWindows && f in replayWindows && e != f ==> replayWindows[e] != replayWindows[f]
    }

    constructor ()
      ensures Valid() && Value() == Receiver(None, map[])
    {
      highestEpoch := None;
      replayWindows := map[];
    }

    /** Keeps the windows of the highest epoch and the one before it. */
    method DropOldWindows(highest: nat)
      requires Valid()
      modifies `replayWindows
      ensures Valid() && replayWindows.Values <= old(replayWindows.Values)
      ensures Windows() == Recent(old(Windows()), highest)
    {
      replayWindows := map e | e in replayWindows && (e == highest || e + 1 == highest) :: replayWindows[e];
    }

    /** Marks a sequence in the epoch's window and keeps the window. */
    method Mark(epoch: nat, window: ReplayWindow, sequence: int)
      requires Valid() && !Contains(window.Value(), sequence)
      requires if epoch in replayWindows then replayWindows[epoch] == window else window !in replayWindows.Values
      modifies `replayWindows, window
      ensures Valid() && replayWindows == old(replayWindows)[epoch := window]
      ensures Windows() == old(Windows())[epoch := Insert(old(window.Value()), sequence)]
    {
      hide Contains, Insert;
      var _ := window.InsertSequence(sequence);
      replayWindows := replayWindows[epoch := window];
    }

    /** The epoch's window, or a new one that is not kept yet. */
    method WindowFor(epoch: nat) returns (window: ReplayWindow)
      requires Valid()
      ensures if epoch in replayWindows then window == replayWindows[epoch] else fresh(window)
      ensures window.Value() == WindowAt(Value(), epoch)
    {
      if epoch in replayWindows {
        window := replayWindows[epoch];
      } else {
        window := new ReplayWindow();
      }
    }

    method Open(a: Arrival) returns (outcome: Outcome)
      requires Valid()
      modifies this, replayWindows.Values
      ensures Valid() && fresh(replayWindows.Values - old(replayWindows.Values))
      ensures Opened(Value(), outcome) == OpenFrame(old(Value()), a)
    {
      hide Contains, Insert, Recent, WindowAt, EpochAllowed;
      if !EpochAllowed(highestEpoch, a.epoch) {
        return InvalidEpoch;
      }
      var window := WindowFor(a.epoch);
      assert Windows() == old(Windows());
      if Contains(window.Value(), a.sequence) {
        return Replay;
      }
      if !a.authentic {
        return NotAuthentic;
      }
      Mark(a.epoch, window, a.sequence);
      highestEpoch := Some(if highestEpoch.Some? && highestEpoch.value > a.epoch then highestEpoch.value else a.epoch);
      DropOldWindows(highestEpoch.value);
      return Delivered;
    }
  }

  // ---- The sender ----

  datatype SenderError = InvalidMediaFrame | SequenceExhausted

  datatype SenderCall = Sealing(frame: MediaFrame, targetByteCount: Option<nat>) | Rotating

  /** `used` is every epoch and sequence a frame was sealed under, in order. */
  datatype Sender = Sender(epoch: nat, nextSequence: nat, used: seq<(nat, nat)>)

  predicate Sealable(f: MediaFrame, targetByteCount: Option<nat>) {
    && ValidFrame(f)
    && (targetByteCount.Some? ==>
          SealedSize(targetByteCount.value) && targetByteCount.value >= HEADER_BYTES + |f.payload| + TAG_BYTES)
  }

  function Call(s: Sender, c: SenderCall): Sender {
    match c
    case Sealing(f, target) =>
      if s.nextSequence > MAXIMUM_SEQUENCE || !Sealable(f, target) then s
      else Sender(s.epoch, s.nextSequence + 1, s.used + [(s.epoch, s.nextSequence)])
    case Rotating => if s.epoch == MAXIMUM_EPOCH then s else Sender(s.epoch + 1, 1, s.used)
  }

  /** A sender that began with an epoch, after some calls. */
  function Calls(epoch: nat, calls: seq<SenderCall>): Sender {
    if calls == [] then Sender(epoch, 1, []) else Call(Calls(epoch, calls[..|calls| - 1]), calls[|calls| - 1])
  }

  class CallMediaSender {
    const firstEpoch: nat
    var epoch: nat
    var nextSequence: nat
    ghost var calls: seq<SenderCall>

    ghost predicate Valid()
      reads this
    {
      && firstEpoch <= MAXIMUM_EPOCH
      && Calls(firstEpoch, calls).epoch == epoch && Calls(firstEpoch, calls).nextSequence == nextSequence
    }

    /** Every epoch and sequence a frame was sealed under, in order. */
    ghost function Used(): seq<(nat, nat)>
      reads this
    {
      Calls(firstEpoch, calls).used
    }

    constructor (epoch: nat)
      requires epoch <= MAXIMUM_EPOCH
      ensures Valid() && Used() == [] && this.epoch == epoch && nextSequence == 1
    {
      firstEpoch := epoch;
      this.epoch := epoch;
      nextSequence := 1;
      calls := [];
    }

    /** Seals one frame; a refused frame uses up no sequence. */
    method Seal(f: MediaFrame, targetByteCount: Option<nat>, padding: seq<Byte>)
      returns (r: Result<seq<Byte>, SenderError>)
      requires Valid()
      requires ValidFrame(f) ==>
                 |padding| == (if targetByteCount.Some? then targetByteCount.value else Bucket(f))
                              - TAG_BYTES - HEADER_BYTES - |f.payload|
                 || (targetByteCount.Some? && targetByteCount.value < HEADER_BYTES + |f.payload| + TAG_BYTES)
      modifies this
      ensures Valid() && epoch == old(epoch) && calls == old(calls) + [Sealing(f, targetByteCount)]
      ensures r.Ok? <==>
              && old(nextSequence) <= 9007199254740991 && ValidFrame(f)
              && (targetByteCount.Some? ==>
                    && targetByteCount.value in [512, 1024, 2048, 4096, 8192, 16384]
                    && 14 + |f.payload| + 16 <= targetByteCount.value)
      ensures r.Err? ==>
                r.error == if old(nextSequence) > 9007199254740991 then SequenceExhausted else InvalidMediaFrame
      ensures r.Ok? ==> Used() == old(Used()) + [(epoch, old(nextSequence))] && nextSequence == old(nextSequence) + 1
      ensures r.Ok? ==> Decode(r.value) == Some(f)
      ensures r.Ok? ==> |r.value| == (if targetByteCount.Some? then targetByteCount.value else Bucket(f)) - 16
      ensures r.Err? ==> Used() == old(Used()) && nextSequence == old(nextSequence)
    {
      hide Calls, Decode;
      OneMoreCall(firstEpoch, calls, Sealing(f, targetByteCount));
      calls := calls + [Sealing(f, targetByteCount)];
      if nextSequence > MAXIMUM_SEQUENCE {
        return Err(SequenceExhausted);
      }
      if !ValidFrame(f) {
        return Err(InvalidMediaFrame);
      }
      var count := if targetByteCount.Some? then targetByteCount.value else Bucket(f);
      if !SealedSize(count) || count < HEADER_BYTES + |f.payload| + TAG_BYTES {
        return Err(InvalidMediaFrame);
      }
      var plaintext := Encode(f, count, padding);
      DecodeUndoesEncode(f, count, padding);
      nextSequence := nextSequence + 1;
      return Ok(plaintext.value);
    }

    method RotateEpoch() returns (rotated: bool)
      requires Valid()
      modifies this
      ensures Valid() && calls == old(calls) + [Rotating] && Used() == old(Used())
              && (rotated <==> old(epoch) < MAXIMUM_EPOCH)
      ensures if rotated then epoch == old(epoch) + 1 && nextSequence == 1
              else epoch == old(epoch) && nextSequence == old(nextSequence)
    {
      hide Calls;
      OneMoreCall(firstEpoch, calls, Rotating);
      calls := calls + [Rotating];
      EpochInRange(firstEpoch, old(calls));
      if epoch == MAXIMUM_EPOCH {
        return false;
      }
      epoch := epoch + 1;
      nextSequence := 1;
      return true;
    }
  }

  predicate Before(a: (nat, nat), b: (nat, nat)) {
    a.0 < b.0 || (a.0 == b.0 && a.1 < b.1)
  }

  ghost predicate Growing(used: seq<(nat, nat)>) {
    forall j, k :: 0 <= j < k < |used| ==> Before(used[j], used[k])
  }

  lemma GrowingAppend(used: seq<(nat, nat)>, next: (nat, nat))
    requires Growing(used) && (used != [] ==> Before(used[|used| - 1], next))
    ensures Growing(used + [next])
  {
    var after := used + [next];
    forall j, k | 0 <= j < k < |after| ensures Before(after[j], after[k]) {
      if k == |used| && j < |used| - 1 {
        assert Before(used[j], used[|used| - 1]);
      }
    }
  }

  lemma OneMoreCall(epoch: nat, calls: seq<SenderCall>, c: SenderCall)
    ensures Calls(epoch, calls + [c]) == Call(Calls(epoch, calls), c)
  {
    assert (calls + [c])[..|calls|] == calls;
  }

  lemma {:induction false} EpochInRange(epoch: nat, calls: seq<SenderCall>)
    requires epoch <= MAXIMUM_EPOCH
    ensures Calls(epoch, calls).epoch <= MAXIMUM_EPOCH
  {
    if calls != [] {
      EpochInRange(epoch, calls[..|calls| - 1]);
    }
  }

  lemma {:induction false} UsedGrows(epoch: nat, calls: seq<SenderCall>)
    ensures var s := Calls(epoch, calls);
            && Growing(s.used) && (s.used != [] ==> Before(s.used[|s.used| - 1], (s.epoch, s.nextSequence)))
  {
    hide Growing;
    if calls == [] {
      NothingGrows();
    } else {
      var before := Calls(epoch, calls[..|calls| - 1]);
      UsedGrows(epoch, calls[..|calls| - 1]);
      GrowingAppend(before.used, (before.epoch, before.nextSequence));
    }
  }

  lemma NothingGrows()
    ensures Growing([])
  {
  }

  /**
   * Whatever is sealed and however often the epoch is rotated, no nonce of a
   * sender repeats: the epoch and sequence it seals under only grow.
   */
  lemma NoncesNeverRepeat(epoch: nat, calls: seq<SenderCall>, j: nat, k: nat)
    requires j < k < |Calls(epoch, calls).used|
    ensures Calls(epoch, calls).used[j] != Calls(epoch, calls).used[k]
  {
    hide Calls;
    UsedGrows(epoch, calls);
    assert Before(Calls(epoch, calls).used[j], Calls(epoch, calls).used[k]);
  }
}
