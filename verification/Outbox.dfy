/**
 * The durable outbox as a value (src/durable-pairwise-messaging-v2.js): its
 * state, what a candidate becomes when it is saved, and what compaction keeps.
 */
module Outbox {
  import opened Wrappers
  import opened Collections
  import opened PacketFrame
  import opened PacketSealing

  const MAXIMUM_PENDING_INTENTS := 32
  const MAXIMUM_RETAINED_INTENTS := 512
  const MAXIMUM_SESSIONS := 4
  const MAXIMUM_ATTEMPTS := 8
  const MAXIMUM_STATE_BYTES := 7 * 1024 * 1024

  datatype Status = Prepared | Publishing | RetryableFailure | RelayAccepted | PermanentFailure | Discarded

  datatype Delivery = Delivery(routeID: Id, sendCapability: Id, packets: seq<Packet>, nextPacketIndex: nat,
                               accepted: bool)

  /** The encrypted envelope is kept while it can still be retried; only its bootstrap kind matters here. */
  datatype Envelope = Ordinary | SignedPrekeyBootstrap

  datatype Intent = Intent(
    sequence: nat,
    sessionID: nat,
    transactionID: nat,
    request: nat,
    control: bool,
    envelope: Option<Envelope>,
    deliveries: seq<Delivery>,
    status: Status,
    attemptCount: nat)

  /** `records` lists the histories that a byte budget trims, in the order it trims them. */
  datatype State = State(
    generation: nat,
    activeSession: Option<nat>,
    sessions: seq<nat>,
    nextSequence: nat,
    intents: seq<Intent>,
    records: seq<seq<nat>>)

  /** What the model leaves abstract: packet hashing and the encoded size of a state. */
  datatype Platform = Platform(h: Hashes, size: State -> nat)

  predicate Pending(x: Intent) {
    x.status == Prepared || x.status == Publishing || x.status == RetryableFailure
  }

  predicate Blocking(x: Intent) {
    Pending(x) || x.status == PermanentFailure
  }

  function PendingOnly(intents: seq<Intent>): seq<Intent> {
    if intents == [] then []
    else PendingOnly(intents[..|intents| - 1])
         + if Pending(intents[|intents| - 1]) then [intents[|intents| - 1]] else []
  }

  function PendingCount(intents: seq<Intent>): nat {
    |PendingOnly(intents)|
  }

  predicate PendingInSession(intents: seq<Intent>, session: nat) {
    exists k :: 0 <= k < |intents| && Pending(intents[k]) && intents[k].sessionID == session
  }

  // ---- Compaction ----

  predicate CanBeCompacted(intents: seq<Intent>, i: nat)
    requires i < |intents|
  {
    var x := intents[i];
    || x.status == RelayAccepted || x.status == Discarded
    || (x.status == PermanentFailure && !PendingInSession(intents[i + 1..], x.sessionID))
  }

  /** Least index at or after `from` that can be compacted, or the length. */
  function FirstCompactable(intents: seq<Intent>, from: nat): (i: nat)
    requires from <= |intents|
    ensures from <= i <= |intents| && (i < |intents| ==> CanBeCompacted(intents, i))
    ensures forall k :: from <= k < i ==> !CanBeCompacted(intents, k)
    decreases |intents| - from
  {
    if from == |intents| || CanBeCompacted(intents, from) then from else FirstCompactable(intents, from + 1)
  }

  function CompactTerminal(intents: seq<Intent>, target: nat): (r: seq<Intent>)
    decreases |intents|
  {
    var i := FirstCompactable(intents, 0);
    if |intents| <= target || i == |intents| then intents else CompactTerminal(RemoveAt(intents, i), target)
  }

  function Target(intents: seq<Intent>, reserve: nat): nat
    requires reserve <= MAXIMUM_RETAINED_INTENTS
  {
    var kept := PendingCount(intents) + 256;
    if kept < MAXIMUM_RETAINED_INTENTS - reserve then kept else MAXIMUM_RETAINED_INTENTS - reserve
  }

  predicate Protected(s: State, session: nat) {
    || s.activeSession == Some(session)
    || exists k :: 0 <= k < |s.intents| && Blocking(s.intents[k]) && s.intents[k].sessionID == session
  }

  /** Least index at or after `from` of a session nothing protects, or the length. */
  function FirstUnprotected(s: State, from: nat): (i: nat)
    requires from <= |s.sessions|
    ensures from <= i <= |s.sessions| && (i < |s.sessions| ==> !Protected(s, s.sessions[i]))
    ensures forall k :: from <= k < i ==> Protected(s, s.sessions[k])
    decreases |s.sessions| - from
  {
    if from == |s.sessions| || !Protected(s, s.sessions[from]) then from else FirstUnprotected(s, from + 1)
  }

  /** Least index at or after `from` of a history with something left to trim, or the length. */
  function FirstNonEmpty(records: seq<seq<nat>>, from: nat): (i: nat)
    requires from <= |records|
    ensures from <= i <= |records| && (i < |records| ==> records[i] != [])
    ensures forall k :: from <= k < i ==> records[k] == []
    decreases |records| - from
  {
    if from == |records| || records[from] != [] then from else FirstNonEmpty(records, from + 1)
  }

  function RecordCount(records: seq<seq<nat>>): nat {
    if records == [] then 0 else |records[0]| + RecordCount(records[1..])
  }

  function Items(s: State): nat {
    |s.intents| + RecordCount(s.records) + |s.sessions|
  }

  lemma {:induction false} TrimmingRecordsShrinks(records: seq<seq<nat>>, i: nat)
    requires i < |records| && records[i] != []
    ensures RecordCount(records[i := records[i][1..]]) < RecordCount(records)
  {
    var next := records[i := records[i][1..]];
    if i == 0 {
      assert next[1..] == records[1..];
    } else {
      TrimmingRecordsShrinks(records[1..], i - 1);
      assert next[1..] == records[1..][i - 1 := records[i][1..]];
    }
  }

  /** One removal under the byte budget, in the fixed order of victims. */
  function DropOne(s: State): (r: Option<State>)
    ensures r.Some? ==> Items(r.value) < Items(s)
  {
    var i := FirstCompactable(s.intents, 0);
    if i < |s.intents| then Some(s.(intents := RemoveAt(s.intents, i)))
    else
      var k := FirstNonEmpty(s.records, 0);
      if k < |s.records| then
        TrimmingRecordsShrinks(s.records, k);
        Some(s.(records := s.records[k := s.records[k][1..]]))
      else
        var j := FirstUnprotected(s, 0);
        if j < |s.sessions| then Some(s.(sessions := RemoveAt(s.sessions, j))) else None
  }

  function TrimToBudget(size: State -> nat, s: State): State
    decreases Items(s)
  {
    if size(s) <= MAXIMUM_STATE_BYTES then s
    else
      match DropOne(s)
      case None => s
      case Some(t) => TrimToBudget(size, t)
  }

  function LengthCompacted(s: State): State {
    s.(intents := CompactTerminal(s.intents, Target(s.intents, 0)))
  }

  function Compacted(size: State -> nat, s: State): State {
    TrimToBudget(size, LengthCompacted(s))
  }

  /** Makes room for one more session, or finds that all are needed. */
  function ReserveSession(s: State): (r: Option<State>)
    decreases |s.sessions|
  {
    if |s.sessions| < MAXIMUM_SESSIONS then Some(s)
    else
      var i := FirstUnprotected(s, 0);
      if i == |s.sessions| then None else ReserveSession(s.(sessions := RemoveAt(s.sessions, i)))
  }

  // ---- The guard every save passes ----

  predicate DeliveryValid(h: Hashes, d: Delivery) {
    && 0 < |d.packets| && d.nextPacketIndex <= |d.packets|
    && (d.accepted <==> d.nextPacketIndex == |d.packets|)
    && (forall k :: 0 <= k < |d.packets| ==> ValidPacket(h, d.packets[k]) && d.packets[k].routeID == d.routeID)
    && (forall j, k :: 0 <= j < k < |d.packets| ==> d.packets[j].packetID != d.packets[k].packetID)
  }

  predicate IntentValid(h: Hashes, x: Intent, sessions: seq<nat>) {
    && 1 <= x.sequence && x.attemptCount <= MAXIMUM_ATTEMPTS
    && (x.status != Discarded ==> x.sessionID in sessions)
    && if Pending(x) then
         && x.envelope.Some? && 0 < |x.deliveries| <= 8
         && (forall d :: 0 <= d < |x.deliveries| ==> DeliveryValid(h, x.deliveries[d]))
         && (forall c, d :: 0 <= c < d < |x.deliveries| ==> x.deliveries[c].routeID != x.deliveries[d].routeID)
       else
         x.envelope.None? && x.deliveries == []
  }

  predicate SequencesIncrease(intents: seq<Intent>, next: nat) {
    && (forall i, j :: 0 <= i < j < |intents| ==> intents[i].sequence < intents[j].sequence)
    && (forall i :: 0 <= i < |intents| ==> intents[i].sequence < next)
  }

  predicate StateValid(h: Hashes, s: State) {
    && 1 <= s.generation <= MAX_SAFE_INTEGER && 1 <= s.nextSequence <= MAX_SAFE_INTEGER
    && |s.sessions| <= MAXIMUM_SESSIONS
    && (forall i, j :: 0 <= i < j < |s.sessions| ==> s.sessions[i] != s.sessions[j])
    && (s.activeSession.Some? ==> s.activeSession.value in s.sessions)
    && |s.intents| <= MAXIMUM_RETAINED_INTENTS && PendingCount(s.intents) <= MAXIMUM_PENDING_INTENTS
    && (forall i :: 0 <= i < |s.intents| ==> IntentValid(h, s.intents[i], s.sessions))
    && SequencesIncrease(s.intents, s.nextSequence)
    && (forall i, j :: 0 <= i < j < |s.intents| ==> s.intents[i].transactionID != s.intents[j].transactionID)
  }

  /** What saving a candidate over the current generation makes durable, if it is let through. */
  function Commit(e: Platform, candidate: State): Option<State> {
    if candidate.generation >= MAX_SAFE_INTEGER then None
    else
      var next := Compacted(e.size, candidate).(generation := candidate.generation + 1);
      if StateValid(e.h, next) && e.size(next) <= MAXIMUM_STATE_BYTES then Some(next) else None
  }

  // ---- Outbox order ----

  /**
   * Publication order: behind the first blocking intent everything is still
   * prepared or was discarded.
   */
  ghost predicate InOrder(intents: seq<Intent>) {
    forall i, j :: 0 <= i < j < |intents| && Blocking(intents[i]) ==>
      intents[j].status == Prepared || intents[j].status == Discarded
  }

  function FirstBlocking(intents: seq<Intent>): (i: nat)
    ensures i <= |intents| && (i < |intents| ==> Blocking(intents[i]))
    ensures forall k :: 0 <= k < i ==> !Blocking(intents[k])
  {
    if intents == [] then 0
    else if Blocking(intents[0]) then 0
    else
      var rest := FirstBlocking(intents[1..]);
      assert forall k :: 1 <= k < rest + 1 ==> intents[k] == intents[1..][k - 1];
      rest + 1
  }

  // ---- What compaction keeps ----

  lemma {:induction false} PendingOnlyAppend(a: seq<Intent>, b: seq<Intent>)
    ensures PendingOnly(a + b) == PendingOnly(a) + PendingOnly(b)
  {
    hide Pending;
    if b == [] {
      assert a + b == a;
    } else {
      PendingOnlyAppend(a, b[..|b| - 1]);
      assert (a + b)[..|a + b| - 1] == a + b[..|b| - 1];
    }
  }

  lemma RemovingFinalKeepsPending(intents: seq<Intent>, i: nat)
    requires i < |intents| && !Pending(intents[i])
    ensures PendingOnly(RemoveAt(intents, i)) == PendingOnly(intents)
  {
    hide Pending, PendingOnly;
    var before, after := intents[..i], intents[i + 1..];
    assert intents == (before + [intents[i]]) + after;
    PendingOnlyAppend(before, after);
    PendingOnlyAppend(before + [intents[i]], after);
    PendingOnlyAppend(before, [intents[i]]);
    NonePending([intents[i]]);
  }

  lemma {:induction false} NonePending(intents: seq<Intent>)
    requires forall i :: 0 <= i < |intents| ==> !Pending(intents[i])
    ensures PendingOnly(intents) == []
  {
    if intents != [] {
      NonePending(intents[..|intents| - 1]);
    }
  }

  lemma {:induction false} PendingMembers(intents: seq<Intent>, x: Intent)
    ensures x in PendingOnly(intents) <==> x in intents && Pending(x)
  {
    if intents != [] {
      var front := intents[..|intents| - 1];
      PendingMembers(front, x);
      assert intents == front + [intents[|intents| - 1]];
    }
  }

  lemma CompactableIsFinal(intents: seq<Intent>, i: nat)
    requires i < |intents| && CanBeCompacted(intents, i)
    ensures !Pending(intents[i])
  {
  }

  /** Length compaction keeps the order and every pending intent. */
  lemma {:induction false} CompactTerminalKeeps(intents: seq<Intent>, target: nat)
    ensures var r := CompactTerminal(intents, target);
            PendingOnly(r) == PendingOnly(intents) && Subsequence(r, intents)
    decreases |intents|
  {
    hide Subsequence, PendingOnly, CanBeCompacted;
    SubsequenceSelf(intents);
    var i := FirstCompactable(intents, 0);
    if |intents| > target && i < |intents| {
      CompactableIsFinal(intents, i);
      RemovingFinalKeepsPending(intents, i);
      SubsequenceRemove(intents, i);
      CompactTerminalKeeps(RemoveAt(intents, i), target);
      SubsequenceTransitive(CompactTerminal(RemoveAt(intents, i), target), RemoveAt(intents, i), intents);
    }
  }

  predicate Needed(s: State, session: nat) {
    || s.activeSession == Some(session)
    || exists k :: 0 <= k < |s.intents| && s.intents[k].sessionID == session
  }

  /**
   * What a save may leave out: final intents, and sessions that no intent left
   * in the state needs. Order and everything still to be published stay.
   */
  ghost predicate Trimmed(s: State, t: State) {
    && t.generation == s.generation && t.activeSession == s.activeSession && t.nextSequence == s.nextSequence
    && Subsequence(t.intents, s.intents) && PendingOnly(t.intents) == PendingOnly(s.intents)
    && Subsequence(t.sessions, s.sessions)
    && forall x :: x in s.sessions && Needed(t, x) ==> x in t.sessions
  }

  lemma NeededBefore(a: State, b: State, session: nat)
    requires b.activeSession == a.activeSession && Subsequence(b.intents, a.intents) && Needed(b, session)
    ensures Needed(a, session)
  {
    hide Subsequence;
    if b.activeSession != Some(session) {
      var k :| 0 <= k < |b.intents| && b.intents[k].sessionID == session;
      var _ := SubsequenceMember(b.intents, a.intents, k);
    }
  }

  lemma TrimmedTransitive(a: State, b: State, c: State)
    requires Trimmed(a, b) && Trimmed(b, c)
    ensures Trimmed(a, c)
  {
    hide Subsequence, PendingOnly, Needed;
    SubsequenceTransitive(c.intents, b.intents, a.intents);
    SubsequenceTransitive(c.sessions, b.sessions, a.sessions);
    forall x | x in a.sessions && Needed(c, x) ensures x in c.sessions {
      NeededBefore(b, c, x);
    }
  }

  lemma NothingCompactable(intents: seq<Intent>, k: nat)
    requires k < |intents| && !CanBeCompacted(intents, k)
    ensures Blocking(intents[k])
  {
  }

  lemma DropOneTrims(s: State)
    requires DropOne(s).Some?
    ensures Trimmed(s, DropOne(s).value)
  {
    hide Subsequence, PendingOnly, CanBeCompacted, Needed, Blocking;
    SubsequenceSelf(s.intents);
    SubsequenceSelf(s.sessions);
    var i := FirstCompactable(s.intents, 0);
    if i < |s.intents| {
      CompactableIsFinal(s.intents, i);
      RemovingFinalKeepsPending(s.intents, i);
      SubsequenceRemove(s.intents, i);
    } else if FirstNonEmpty(s.records, 0) == |s.records| {
      var j := FirstUnprotected(s, 0);
      SubsequenceRemove(s.sessions, j);
      SessionEvicted(s, j);
    }
  }

  /** A session goes only once every intent left blocks, so none of them uses it. */
  lemma SessionEvicted(s: State, j: nat)
    requires forall k :: 0 <= k < |s.intents| ==> !CanBeCompacted(s.intents, k)
    requires j < |s.sessions| && !Protected(s, s.sessions[j])
    ensures var t := s.(sessions := RemoveAt(s.sessions, j));
            forall x :: x in s.sessions && Needed(t, x) ==> x in t.sessions
  {
    hide CanBeCompacted;
    var t := s.(sessions := RemoveAt(s.sessions, j));
    forall x | x in s.sessions && Needed(t, x) ensures x in t.sessions {
      if t.activeSession != Some(x) {
        var k :| 0 <= k < |t.intents| && t.intents[k].sessionID == x;
        NothingCompactable(s.intents, k);
      }
      assert Protected(s, x);
      StaysWithout(s.sessions, j, x);
    }
  }

  lemma {:induction false} TrimToBudgetTrims(size: State -> nat, s: State)
    ensures Trimmed(s, TrimToBudget(size, s))
    decreases Items(s)
  {
    hide Subsequence, PendingOnly, DropOne, Trimmed;
    TrimmedSelf(s);
    if size(s) > MAXIMUM_STATE_BYTES && DropOne(s).Some? {
      var t := DropOne(s).value;
      DropOneTrims(s);
      TrimToBudgetTrims(size, t);
      TrimmedTransitive(s, t, TrimToBudget(size, t));
    }
  }

  lemma TrimmedSelf(s: State)
    ensures Trimmed(s, s)
  {
    hide PendingOnly;
    SubsequenceSelf(s.intents);
    SubsequenceSelf(s.sessions);
  }

  /** Every save, whatever its byte budget forces out, only trims. */
  lemma CompactionTrims(size: State -> nat, s: State)
    ensures Trimmed(s, Compacted(size, s))
  {
    hide Subsequence, PendingOnly, TrimToBudget, CompactTerminal, Target;
    var t := LengthCompacted(s);
    CompactTerminalKeeps(s.intents, Target(s.intents, 0));
    SubsequenceSelf(s.sessions);
    TrimToBudgetTrims(size, t);
    TrimmedTransitive(s, t, TrimToBudget(size, t));
  }

  /** One list of records lost its oldest, and every list before it lost all. */
  ghost predicate RecordsTrimmed(a: seq<seq<nat>>, b: seq<seq<nat>>) {
    && |b| == |a|
    && (forall k :: 0 <= k < |a| ==> |b[k]| <= |a[k]| && b[k] == a[k][|a[k]| - |b[k]|..])
    && forall j, k :: 0 <= j < k < |a| && b[k] != a[k] ==> b[j] == []
  }

  lemma RecordsTrimmedOne(a: seq<seq<nat>>, b: seq<seq<nat>>, k: nat)
    requires k < |a| && a[k] != [] && (forall j :: 0 <= j < k ==> a[j] == []) && RecordsTrimmed(a[k := a[k][1..]], b)
    ensures RecordsTrimmed(a, b)
  {
    var mid := a[k := a[k][1..]];
    forall i | 0 <= i < |a| ensures |b[i]| <= |a[i]| && b[i] == a[i][|a[i]| - |b[i]|..] {
      assert b[i] == mid[i][|mid[i]| - |b[i]|..];
    }
    forall i, j | 0 <= i < j < |a| && b[j] != a[j] ensures b[i] == [] {
      assert i < k ==> |b[i]| <= |mid[i]| == 0;
      if j == k {
        assert b[i] == [];
      } else {
        assert b[j] != mid[j];
      }
    }
  }

  ghost predicate NoneCompactable(intents: seq<Intent>) {
    forall i :: 0 <= i < |intents| ==> !CanBeCompacted(intents, i)
  }

  ghost predicate NoRecords(records: seq<seq<nat>>) {
    forall k :: 0 <= k < |records| ==> records[k] == []
  }

  /** The one removal, case by case: an intent, else the oldest of a list of records, else a session. */
  lemma DropOneInOrder(s: State)
    ensures var k := FirstNonEmpty(s.records, 0);
            match DropOne(s)
            case None => NoneCompactable(s.intents) && NoRecords(s.records) && forall x <- s.sessions :: Protected(s, x)
            case Some(t) =>
              if !NoneCompactable(s.intents) then t == s.(intents := t.intents)
              else if k < |s.records| then t == s.(records := s.records[k := s.records[k][1..]])
              else t == s.(sessions := t.sessions) && NoRecords(s.records)
  {
    hide CanBeCompacted, Protected;
  }

  /** Once no intent can be compacted, none is given up; once no record is left, the lists stay empty. */
  lemma {:induction false} NothingLeftToCompact(size: State -> nat, s: State)
    requires NoneCompactable(s.intents)
    ensures TrimToBudget(size, s).intents == s.intents
    ensures NoRecords(s.records) ==> TrimToBudget(size, s).records == s.records
    decreases Items(s)
  {
    hide NoneCompactable, DropOne;
    DropOneInOrder(s);
    if size(s) > MAXIMUM_STATE_BYTES && DropOne(s).Some? {
      NothingLeftToCompact(size, DropOne(s).value);
    }
  }

  lemma {:induction false} RecordsGoInOrder(size: State -> nat, s: State)
    ensures var t := TrimToBudget(size, s);
            RecordsTrimmed(s.records, t.records) && (t.records != s.records ==> NoneCompactable(t.intents))
    decreases Items(s)
  {
    hide NoneCompactable, DropOne, RecordsTrimmed, NoRecords;
    RecordsTrimmedSelf(s.records);
    DropOneInOrder(s);
    if size(s) > MAXIMUM_STATE_BYTES && DropOne(s).Some? {
      var u := DropOne(s).value;
      RecordsGoInOrder(size, u);
      var k := FirstNonEmpty(s.records, 0);
      if NoneCompactable(s.intents) && k < |s.records| {
        NothingLeftToCompact(size, u);
        RecordsTrimmedOne(s.records, TrimToBudget(size, u).records, k);
      }
    }
  }

  lemma RecordsTrimmedSelf(a: seq<seq<nat>>)
    ensures RecordsTrimmed(a, a)
  {
  }

  /**
   * The order in which a save over its byte budget gives things up: records
   * only when no intent can be compacted any more, the lists of records one
   * after the other and each from its oldest, sessions only when no record is
   * left. It gives up nothing within the budget, and stops over it only when
   * nothing can go.
   */
  lemma {:induction false} VictimsInOrder(size: State -> nat, s: State)
    ensures var t := TrimToBudget(size, s);
            && (size(s) <= MAXIMUM_STATE_BYTES ==> t == s)
            && RecordsTrimmed(s.records, t.records)
            && (t.records != s.records ==> NoneCompactable(t.intents))
            && (t.sessions != s.sessions ==> NoneCompactable(t.intents) && NoRecords(t.records))
            && (size(t) > MAXIMUM_STATE_BYTES ==>
                  NoneCompactable(t.intents) && NoRecords(t.records) && forall x <- t.sessions :: Protected(t, x))
    decreases Items(s)
  {
    hide NoneCompactable, DropOne, RecordsTrimmed, NoRecords, Protected;
    RecordsGoInOrder(size, s);
    DropOneInOrder(s);
    if size(s) > MAXIMUM_STATE_BYTES && DropOne(s).Some? {
      var u := DropOne(s).value;
      VictimsInOrder(size, u);
      if NoneCompactable(s.intents) {
        NothingLeftToCompact(size, u);
      }
    }
  }

  lemma TrimKeepsOrder(a: seq<Intent>, b: seq<Intent>, next: nat)
    requires Subsequence(a, b)
    ensures InOrder(b) ==> InOrder(a)
    ensures SequencesIncrease(b, next) ==> SequencesIncrease(a, next)
  {
    hide Subsequence, Blocking;
    if InOrder(b) {
      forall i, j | 0 <= i < j < |a| && Blocking(a[i]) ensures a[j].status == Prepared || a[j].status == Discarded {
        var p, q := SubsequencePair(a, b, i, j);
      }
    }
    if SequencesIncrease(b, next) {
      forall i, j | 0 <= i < j < |a| ensures a[i].sequence < a[j].sequence {
        var p, q := SubsequencePair(a, b, i, j);
      }
      forall i | 0 <= i < |a| ensures a[i].sequence < next {
        var _ := SubsequenceMember(a, b, i);
      }
    }
  }

  // ---- How much compaction removes ----

  lemma {:induction false} AllPending(intents: seq<Intent>)
    requires forall i :: 0 <= i < |intents| ==> Pending(intents[i])
    ensures PendingOnly(intents) == intents
  {
    if intents != [] {
      AllPending(intents[..|intents| - 1]);
      assert intents == intents[..|intents| - 1] + [intents[|intents| - 1]];
    }
  }

  /**
   * No intent that failed for good stands far behind one that blocks. In
   * publication order it stands behind none at all; a publication that lost its
   * place can leave it a little further back.
   */
  ghost predicate Near(intents: seq<Intent>, reach: nat) {
    forall i, j :: 0 <= i < j < |intents| && Blocking(intents[i]) && intents[j].status == PermanentFailure ==>
      j - i <= reach
  }

  lemma TrimKeepsNear(a: seq<Intent>, b: seq<Intent>, reach: nat)
    requires Subsequence(a, b) && Near(b, reach)
    ensures Near(a, reach)
  {
    hide Subsequence, Blocking;
    forall i, j | 0 <= i < j < |a| && Blocking(a[i]) && a[j].status == PermanentFailure ensures j - i <= reach {
      var p, q := SubsequencePair(a, b, i, j);
    }
  }

  /** Of the intents that cannot be compacted, only those within reach of the first can be failures. */
  lemma UncompactableArePending(intents: seq<Intent>, reach: nat)
    requires Near(intents, reach) && forall k :: 0 <= k < |intents| ==> !CanBeCompacted(intents, k)
    ensures |intents| <= PendingCount(intents) + reach + 1
  {
    hide CanBeCompacted, PendingOnly;
    if |intents| > reach + 1 {
      forall k | 0 <= k < |intents| ensures Blocking(intents[k]) {
        NothingCompactable(intents, k);
      }
      var front, rest := intents[..reach + 1], intents[reach + 1..];
      forall k | 0 <= k < |rest| ensures Pending(rest[k]) {
        assert Blocking(intents[0]) && rest[k] == intents[k + reach + 1];
      }
      AllPending(rest);
      assert intents == front + rest;
      PendingOnlyAppend(front, rest);
    }
  }

  /** Compaction of an outbox whose failures are within reach gets down to its target, so nothing accumulates. */
  lemma {:induction false} CompactTerminalReaches(intents: seq<Intent>, target: nat, reach: nat)
    requires Near(intents, reach) && PendingCount(intents) + reach < target
    ensures |CompactTerminal(intents, target)| <= target
    decreases |intents|
  {
    hide PendingOnly, CanBeCompacted, Near;
    var i := FirstCompactable(intents, 0);
    if |intents| > target {
      if i == |intents| {
        UncompactableArePending(intents, reach);
      } else {
        CompactableIsFinal(intents, i);
        RemovingFinalKeepsPending(intents, i);
        SubsequenceRemove(intents, i);
        TrimKeepsNear(RemoveAt(intents, i), intents, reach);
        CompactTerminalReaches(RemoveAt(intents, i), target, reach);
      }
    }
  }

  /** How far behind the first blocking intent any run lets an intent fail for good. */
  const FAILURE_REACH := 144

  /**
   * Every state saved over an outbox whose failures are within reach retains at
   * most its pending intents and 256 more.
   */
  lemma SavedOutboxIsBounded(e: Platform, candidate: State)
    requires Commit(e, candidate).Some? && Near(candidate.intents, FAILURE_REACH)
    ensures var t := Commit(e, candidate).value;
            |t.intents| <= PendingCount(t.intents) + 256
  {
    hide PendingOnly, CompactTerminal, TrimToBudget, StateValid, Near;
    var target := Target(candidate.intents, 0);
    var t := LengthCompacted(candidate);
    var trimmed := TrimToBudget(e.size, t);
    CompactTerminalKeeps(candidate.intents, target);
    TrimToBudgetTrims(e.size, t);
    SubsequenceShorter(trimmed.intents, t.intents);
    SavedPending(e.h, Commit(e, candidate).value);
    CompactTerminalReaches(candidate.intents, target, FAILURE_REACH);
  }

  lemma SavedPending(h: Hashes, s: State)
    requires StateValid(h, s)
    ensures PendingCount(s.intents) <= MAXIMUM_PENDING_INTENTS
  {
  }

  // ---- Session reservation ----

  /** Reservation removes only sessions without publication work, and then there is room. */
  lemma {:induction false} ReserveKeepsProtected(s: State)
    requires ReserveSession(s).Some?
    ensures var t := ReserveSession(s).value;
            && t == s.(sessions := t.sessions) && |t.sessions| < MAXIMUM_SESSIONS
            && Subsequence(t.sessions, s.sessions)
            && forall x :: x in s.sessions && Protected(s, x) ==> x in t.sessions
    decreases |s.sessions|
  {
    hide Subsequence, Protected;
    SubsequenceSelf(s.sessions);
    if |s.sessions| >= MAXIMUM_SESSIONS {
      var i := FirstUnprotected(s, 0);
      var u := s.(sessions := RemoveAt(s.sessions, i));
      ReserveKeepsProtected(u);
      SubsequenceRemove(s.sessions, i);
      SubsequenceTransitive(ReserveSession(u).value.sessions, u.sessions, s.sessions);
      forall x | x in s.sessions && Protected(s, x) ensures Protected(u, x) && x in u.sessions {
        SameProtection(s, u, x);
        StaysWithout(s.sessions, i, x);
      }
    }
  }

  lemma SameProtection(s: State, t: State, x: nat)
    requires t.activeSession == s.activeSession && t.intents == s.intents
    ensures Protected(s, x) <==> Protected(t, x)
  {
  }
}
