/**
 * The signalling state machine of one call (src/call-v1.js). Signals are
 * compared by digest, taken as the signal itself. Whether an answer matches
 * the offer is a parameter.
 */
module CallSignals {
  import opened Wrappers

  const CLOCK_SKEW_MS := 30000
  const MAXIMUM_LIFETIME_MS := 300000
  const MAXIMUM_SEQUENCE := 9007199254740991

  datatype Role = Initiator | Responder

  datatype Reason =
    | DeclinedReason
    | CanceledReason
    | Completed
    | Busy
    | Unavailable
    | FailedReason
    | SecurityError
    | ExpiredReason

  datatype Kind = Offer | Ringing | Answer | Candidate | Connected | Declined | Canceled | Ended

  datatype Signal = Signal(
    callID: nat,
    senderRole: Role,
    sequence: int,
    kind: Kind,
    createdAt: int,
    expiresAt: int,
    content: nat,
    terminationReason: Option<Reason>)

  /** Field rules of each kind. */
  predicate ValidSignal(s: Signal) {
    && 1 <= s.sequence <= MAXIMUM_SEQUENCE
    && 0 < s.expiresAt - s.createdAt <= MAXIMUM_LIFETIME_MS
    && match s.kind
       case Offer => s.senderRole == Initiator && s.sequence == 1 && s.terminationReason.None?
       case Answer => s.senderRole == Responder && s.terminationReason.None?
       case Candidate => s.terminationReason.None?
       case Ringing => s.terminationReason.None?
       case Connected => s.terminationReason.None?
       case Declined =>
         s.senderRole == Responder && s.terminationReason in {Some(DeclinedReason), Some(Busy), Some(Unavailable)}
       case Canceled => s.senderRole == Initiator && s.terminationReason == Some(CanceledReason)
       case Ended => s.terminationReason.Some?
  }

  /** Who may send a signal of a kind, and what reason it carries. */
  lemma ValidExactly(s: Signal)
    ensures ValidSignal(s) <==>
            && 1 <= s.sequence <= 9007199254740991 && s.createdAt < s.expiresAt <= s.createdAt + 300000
            && (s.kind == Offer || s.kind == Canceled ==> s.senderRole == Initiator)
            && (s.kind == Answer || s.kind == Declined ==> s.senderRole == Responder)
            && (s.kind == Offer ==> s.sequence == 1)
            && (s.terminationReason.Some? <==> s.kind == Declined || s.kind == Canceled || s.kind == Ended)
            && (s.kind == Canceled ==> s.terminationReason == Some(CanceledReason))
            && (s.kind == Declined ==> s.terminationReason == Some(DeclinedReason)
                                       || s.terminationReason == Some(Busy) || s.terminationReason == Some(Unavailable))
  {
  }

  predicate IsFresh(s: Signal, at: int) {
    s.createdAt - CLOCK_SKEW_MS <= at < s.expiresAt
  }

  datatype Phase = RingingPhase | Connecting | Active | EndedPhase

  datatype Call = Call(
    callID: nat,
    offer: Signal,
    phase: Phase,
    terminationReason: Option<Reason>,
    answer: Option<Signal>,
    last: map<Role, Signal>)

  datatype Error = InvalidOffer | InvalidSignal | SignalFork | InvalidTransition | TranscriptMismatch

  datatype Verdict = Applied | Stale | ExactReplay

  type Compatible = (Signal, Signal) -> bool

  function Create(offer: Signal, at: int): Result<Call, Error> {
    if !ValidSignal(offer) || offer.kind != Offer || !IsFresh(offer, at) then Err(InvalidOffer)
    else Ok(Call(offer.callID, offer, RingingPhase, None, None, map[Initiator := offer]))
  }

  /** The phase after a new signal, or why there is none. */
  function Transition(c: Call, s: Signal, compatible: Compatible): Result<Phase, Error> {
    match s.kind
    case Offer => Err(InvalidTransition)
    case Ringing =>
      if c.phase == RingingPhase && s.senderRole == Responder then Ok(RingingPhase) else Err(InvalidTransition)
    case Answer => if c.phase == RingingPhase && compatible(s, c.offer) then Ok(Connecting) else Err(TranscriptMismatch)
    case Candidate => if c.phase != EndedPhase then Ok(c.phase) else Err(InvalidTransition)
    case Connected => if c.phase == Connecting || c.phase == Active then Ok(Active) else Err(InvalidTransition)
    case _ => Ok(EndedPhase)
  }

  function Apply(c: Call, s: Signal, at: int, compatible: Compatible): (Call, Result<Verdict, Error>) {
    if !ValidSignal(s) || s.callID != c.callID || !IsFresh(s, at) then (c, Err(InvalidSignal))
    else if s.senderRole in c.last && s.sequence < c.last[s.senderRole].sequence then (c, Ok(Stale))
    else if s.senderRole in c.last && s.sequence == c.last[s.senderRole].sequence then
      (c, if c.last[s.senderRole] != s then Err(SignalFork) else Ok(ExactReplay))
    else if c.phase == EndedPhase then (c, Ok(Stale))
    else
      match Transition(c, s, compatible)
      case Err(e) => (c, Err(e))
      case Ok(phase) =>
        (c.(phase := phase,
            terminationReason := if phase == EndedPhase then s.terminationReason else c.terminationReason,
            answer := if s.kind == Answer then Some(s) else c.answer,
            last := c.last[s.senderRole := s]),
         Ok(Applied))
  }

  // ---- Runs ----

  datatype Arrival = Arrival(signal: Signal, at: int)

  datatype Trace = Trace(call: Call, applied: seq<Signal>)

  function Run(start: Call, arrivals: seq<Arrival>, compatible: Compatible): Trace {
    if arrivals == [] then Trace(start, [start.offer])
    else
      var before, a := Run(start, arrivals[..|arrivals| - 1], compatible), arrivals[|arrivals| - 1];
      var (call, verdict) := Apply(before.call, a.signal, a.at, compatible);
      Trace(call, if verdict == Ok(Applied) then before.applied + [a.signal] else before.applied)
  }

  function Rank(p: Phase): nat {
    match p case RingingPhase => 0 case Connecting => 1 case Active => 2 case EndedPhase => 3
  }

  /** The log of applied signals explains the state. */
  ghost predicate Explains(start: Call, t: Trace, compatible: Compatible) {
    && t.call.callID == start.callID && t.call.offer == start.offer && t.applied != []
    && Ordered(t.applied, t.call.last) && Answered(t, compatible)
  }

  /** Sequences of one role increase, up to the one remembered for it, which is its last. */
  ghost predicate Ordered(applied: seq<Signal>, last: map<Role, Signal>) {
    && (forall r :: r in last ==> last[r] in applied && last[r].senderRole == r)
    && (forall k :: 0 <= k < |applied| ==>
          applied[k].senderRole in last && applied[k].sequence <= last[applied[k].senderRole].sequence)
    && (forall j, k :: 0 <= j < k < |applied| && applied[j].senderRole == applied[k].senderRole
          ==> applied[j].sequence < applied[k].sequence)
  }

  lemma OrderedAppend(applied: seq<Signal>, last: map<Role, Signal>, s: Signal)
    requires Ordered(applied, last) && (s.senderRole in last ==> s.sequence > last[s.senderRole].sequence)
    ensures Ordered(applied + [s], last[s.senderRole := s])
  {
    assert (applied + [s])[|applied|] == s;
  }

  /** Past ringing and not ended means one compatible answer was applied. */
  ghost predicate Answered(t: Trace, compatible: Compatible) {
    && (t.call.answer.Some? ==>
          t.call.answer.value in t.applied && t.call.answer.value.kind == Answer
            && compatible(t.call.answer.value, t.call.offer))
    && (t.call.phase == Connecting || t.call.phase == Active ==> t.call.answer.Some?)
    && (t.call.phase == RingingPhase ==> t.call.answer.None?)
    && (t.call.phase == EndedPhase <==> t.call.terminationReason.Some?)
  }

  lemma StepExplains(start: Call, t: Trace, a: Arrival, compatible: Compatible)
    requires Explains(start, t, compatible)
    ensures var (call, verdict) := Apply(t.call, a.signal, a.at, compatible);
            Explains(start, Trace(call, if verdict == Ok(Applied) then t.applied + [a.signal] else t.applied),
                     compatible)
  {
    hide Ordered, ValidSignal;
    var (call, verdict) := Apply(t.call, a.signal, a.at, compatible);
    if verdict == Ok(Applied) {
      OrderedAppend(t.applied, t.call.last, a.signal);
      EndingHasReason(a.signal);
      assert (t.applied + [a.signal])[|t.applied|] == a.signal;
    }
  }

  lemma EndingHasReason(s: Signal)
    requires ValidSignal(s)
    ensures s.kind == Declined || s.kind == Canceled || s.kind == Ended ==> s.terminationReason.Some?
  {
  }

  lemma {:induction false} RunExplains(start: Call, arrivals: seq<Arrival>, offer: Signal,
                                       at: int, compatible: Compatible)
    requires Create(offer, at) == Ok(start)
    ensures Explains(start, Run(start, arrivals, compatible), compatible)
  {
    hide Explains, Apply;
    if arrivals == [] {
      StartExplains(start, offer, at, compatible);
    } else {
      RunExplains(start, arrivals[..|arrivals| - 1], offer, at, compatible);
      StepExplains(start, Run(start, arrivals[..|arrivals| - 1], compatible), arrivals[|arrivals| - 1], compatible);
    }
  }

  lemma StartExplains(start: Call, offer: Signal, at: int, compatible: Compatible)
    requires Create(offer, at) == Ok(start)
    ensures Explains(start, Trace(start, [start.offer]), compatible)
  {
  }

  /** Of each role's signals every sequence is applied at most once, and in increasing order. */
  lemma AppliedOnceInOrder(start: Call, arrivals: seq<Arrival>, offer: Signal, at: int, compatible: Compatible,
                           j: nat, k: nat)
    requires Create(offer, at) == Ok(start)
    requires var log := Run(start, arrivals, compatible).applied;
             j < k < |log| && log[j].senderRole == log[k].senderRole
    ensures var log := Run(start, arrivals, compatible).applied; log[j].sequence < log[k].sequence
  {
    hide Run;
    RunExplains(start, arrivals, offer, at, compatible);
  }

  /** A call connects only over an answer that matches its offer, which is one of the applied signals. */
  lemma ConnectedMeansAnswered(start: Call, arrivals: seq<Arrival>, offer: Signal, at: int, compatible: Compatible)
    requires Create(offer, at) == Ok(start)
    requires var call := Run(start, arrivals, compatible).call; call.phase == Connecting || call.phase == Active
    ensures var t := Run(start, arrivals, compatible);
            exists s :: s in t.applied && s.kind == Answer && s.senderRole in t.call.last && compatible(s, offer)
  {
    hide Run;
    RunExplains(start, arrivals, offer, at, compatible);
    var t := Run(start, arrivals, compatible);
    var s := t.call.answer.value;
    var k :| 0 <= k < |t.applied| && t.applied[k] == s;
  }

  /** The call only moves on, and once it has ended nothing changes it again. */
  lemma {:induction false} PhaseOnlyAdvances(start: Call, arrivals: seq<Arrival>, n: nat, compatible: Compatible)
    requires n <= |arrivals|
    ensures var before, after := Run(start, arrivals[..n], compatible), Run(start, arrivals, compatible);
            && Rank(before.call.phase) <= Rank(after.call.phase)
            && before.applied <= after.applied
            && (before.call.phase == EndedPhase ==> after == before)
  {
    hide Apply;
    if n == |arrivals| {
      assert arrivals[..n] == arrivals;
    } else {
      var front, a := arrivals[..|arrivals| - 1], arrivals[|arrivals| - 1];
      PhaseOnlyAdvances(start, front, n, compatible);
      assert front[..n] == arrivals[..n];
      StepAdvances(Run(start, front, compatible).call, a, compatible);
    }
  }

  lemma StepAdvances(c: Call, a: Arrival, compatible: Compatible)
    ensures var (call, verdict) := Apply(c, a.signal, a.at, compatible);
            && Rank(c.phase) <= Rank(call.phase)
            && (verdict != Ok(Applied) ==> call == c)
            && (c.phase == EndedPhase ==> call == c && verdict != Ok(Applied))
  {
  }

  /** No later signal of the same role was applied. */
  ghost predicate LastOfItsRole(applied: seq<Signal>, j: nat)
    requires j < |applied|
  {
    forall k :: j < k < |applied| ==> applied[k].senderRole != applied[j].senderRole
  }

  /**
   * After any run, a signal under the role and sequence of one already applied:
   * a different one is reported as a fork, and the same one as its repeat,
   * exactly when the applied one is its role's last. Any older one is answered
   * as stale, whether it conflicts or not.
   */
  lemma ForkExactly(start: Call, arrivals: seq<Arrival>, offer: Signal, at: int, compatible: Compatible, j: nat,
                    s: Signal, now: int)
    requires Create(offer, at) == Ok(start) && j < |Run(start, arrivals, compatible).applied|
    requires var log := Run(start, arrivals, compatible).applied;
             s.senderRole == log[j].senderRole && s.sequence == log[j].sequence
    requires ValidSignal(s) && s.callID == start.callID && IsFresh(s, now)
    ensures var t := Run(start, arrivals, compatible);
            Apply(t.call, s, now, compatible).1 ==
            if !LastOfItsRole(t.applied, j) then Ok(Stale)
            else if s == t.applied[j] then Ok(ExactReplay)
            else Err(SignalFork)
  {
    hide Run, ValidSignal, IsFresh, Answered;
    RunExplains(start, arrivals, offer, at, compatible);
    var t := Run(start, arrivals, compatible);
    var last := t.call.last[s.senderRole];
    var m :| 0 <= m < |t.applied| && t.applied[m] == last;
    if !LastOfItsRole(t.applied, j) {
      var k :| j < k < |t.applied| && t.applied[k].senderRole == s.senderRole;
      assert s.sequence < t.applied[k].sequence <= last.sequence;
    } else {
      assert m == j;
    }
  }

  /**
   * A conflict with a signal its role has moved past goes unreported: two
   * responder signals, then another first one.
   */
  lemma OlderConflictIsStale(compatible: Compatible)
    returns (start: Call, arrivals: seq<Arrival>, offer: Signal, s: Signal)
    ensures Create(offer, 0) == Ok(start) && ValidSignal(s) && IsFresh(s, 0)
    ensures var t := Run(start, arrivals, compatible);
            && |t.applied| == 3 && s != t.applied[1]
            && s.senderRole == t.applied[1].senderRole && s.sequence == t.applied[1].sequence
            && Apply(t.call, s, 0, compatible) == (t.call, Ok(Stale))
  {
    offer := Signal(1, Initiator, 1, Offer, 0, 1000, 0, None);
    start := Create(offer, 0).value;
    var ringing := Signal(1, Responder, 1, Ringing, 0, 1000, 0, None);
    var candidate := Signal(1, Responder, 2, Candidate, 0, 1000, 0, None);
    s := ringing.(content := 1);
    arrivals := [Arrival(ringing, 0), Arrival(candidate, 0)];
    assert arrivals[..1][..0] == [] && arrivals[..1][0] == arrivals[0];
    assert Run(start, [], compatible) == Trace(start, [offer]);
    assert Run(start, arrivals[..1], compatible)
      == Trace(start.(last := start.last[Responder := ringing]), [offer, ringing]);
    assert Run(start, arrivals, compatible).applied == [offer, ringing, candidate];
  }

  // ---- The phase, read off the log ----

  predicate Ending(k: Kind) {
    k == Declined || k == Canceled || k == Ended
  }

  ghost predicate Has(log: seq<Signal>, k: Kind) {
    exists i :: 0 <= i < |log| && log[i].kind == k
  }

  ghost predicate HasEnding(log: seq<Signal>) {
    exists i :: 0 <= i < |log| && Ending(log[i].kind)
  }

  /** What the applied signals say of the phase, the reason it ended for and the answer. */
  ghost predicate ReadOff(c: Call, log: seq<Signal>) {
    && (c.phase == EndedPhase <==> HasEnding(log))
    && (c.phase == Active <==> !HasEnding(log) && Has(log, Connected))
    && (c.phase == Connecting <==> !HasEnding(log) && !Has(log, Connected) && Has(log, Answer))
    && (c.phase == RingingPhase <==> !HasEnding(log) && !Has(log, Connected) && !Has(log, Answer))
    && (forall i :: 0 <= i < |log| && Ending(log[i].kind) ==>
          i == |log| - 1 && log[i].terminationReason.Some? && c.terminationReason == log[i].terminationReason)
    && (!HasEnding(log) ==> c.terminationReason.None?)
    && (c.answer.None? <==> !Has(log, Answer))
    && (forall i :: 0 <= i < |log| && log[i].kind == Answer ==> c.answer == Some(log[i]))
    && (Has(log, Connected) ==> Has(log, Answer))
  }

  lemma HasAppended(log: seq<Signal>, s: Signal, k: Kind)
    ensures Has(log + [s], k) <==> Has(log, k) || s.kind == k
    ensures HasEnding(log + [s]) <==> HasEnding(log) || Ending(s.kind)
  {
    var all := log + [s];
    assert all[|log|] == s && forall i :: 0 <= i < |log| ==> all[i] == log[i];
  }

  lemma StepReadOff(c: Call, log: seq<Signal>, a: Arrival, compatible: Compatible)
    requires ReadOff(c, log) && Apply(c, a.signal, a.at, compatible).1 == Ok(Applied)
    ensures ReadOff(Apply(c, a.signal, a.at, compatible).0, log + [a.signal])
  {
    hide Has, HasEnding, IsFresh;
    HasAppended(log, a.signal, Answer);
    HasAppended(log, a.signal, Connected);
    forall i | 0 <= i < |log| && Ending(log[i].kind) ensures HasEnding(log) {
      EndingIsIn(log, i);
    }
    forall i | 0 <= i < |log| && log[i].kind == Answer ensures Has(log, Answer) {
      IsIn(log, i);
    }
    EndingHasReason(a.signal);
  }

  lemma EndingIsIn(log: seq<Signal>, i: nat)
    requires i < |log| && Ending(log[i].kind)
    ensures HasEnding(log)
  {
  }

  lemma IsIn(log: seq<Signal>, i: nat)
    requires i < |log|
    ensures Has(log, log[i].kind)
  {
  }

  /**
   * After any run the phase is read off the applied signals: ended, for the
   * reason of the last one, exactly when one that ends the call was applied;
   * else active exactly when a connection was, connecting exactly when only an
   * answer was, and ringing otherwise.
   */
  lemma {:induction false} PhaseIsReadOffLog(start: Call, arrivals: seq<Arrival>, offer: Signal, at: int,
                                             compatible: Compatible)
    requires Create(offer, at) == Ok(start)
    ensures ReadOff(Run(start, arrivals, compatible).call, Run(start, arrivals, compatible).applied)
  {
    hide ReadOff, Apply;
    if arrivals == [] {
      StartReadOff(start, offer, at);
    } else {
      var front, a := arrivals[..|arrivals| - 1], arrivals[|arrivals| - 1];
      PhaseIsReadOffLog(start, front, offer, at, compatible);
      var before := Run(start, front, compatible);
      if Apply(before.call, a.signal, a.at, compatible).1 == Ok(Applied) {
        StepReadOff(before.call, before.applied, a, compatible);
      } else {
        StepAdvances(before.call, a, compatible);
      }
    }
  }

  lemma StartReadOff(start: Call, offer: Signal, at: int)
    requires Create(offer, at) == Ok(start)
    ensures ReadOff(start, [start.offer])
  {
  }

  /** Which signals move a call that has not ended, by the signals applied before. */
  ghost predicate Admitted(log: seq<Signal>, offer: Signal, s: Signal, compatible: Compatible) {
    match s.kind
    case Offer => false
    case Ringing => s.senderRole == Responder && !Has(log, Answer)
    case Answer => !Has(log, Answer) && compatible(s, offer)
    case Candidate => true
    case Connected => Has(log, Answer)
    case Declined => true
    case Canceled => true
    case Ended => true
  }

  /**
   * After any run, a signal is refused as invalid exactly when it breaks its
   * field rules, names another call or is not fresh; a new one of its role is
   * stale once the call has ended, and before that it is applied exactly in the
   * phases that admit its kind.
   */
  lemma AnsweredExactly(start: Call, arrivals: seq<Arrival>, offer: Signal, at: int, compatible: Compatible,
                        s: Signal, now: int)
    requires Create(offer, at) == Ok(start)
    ensures var t := Run(start, arrivals, compatible); var answer := Apply(t.call, s, now, compatible).1;
            && (answer == Err(InvalidSignal) <==>
                !ValidSignal(s) || s.callID != offer.callID || now < s.createdAt - 30000 || now >= s.expiresAt)
            && (answer != Err(InvalidSignal)
                && (forall k :: 0 <= k < |t.applied| && t.applied[k].senderRole == s.senderRole ==>
                      t.applied[k].sequence < s.sequence) ==>
                  answer == if HasEnding(t.applied) then Ok(Stale)
                            else if Admitted(t.applied, offer, s, compatible) then Ok(Applied)
                            else if s.kind == Answer then Err(TranscriptMismatch)
                            else Err(InvalidTransition))
  {
    hide Run, ValidSignal, Has, HasEnding, Answered;
    RunExplains(start, arrivals, offer, at, compatible);
    PhaseIsReadOffLog(start, arrivals, offer, at, compatible);
    var t := Run(start, arrivals, compatible);
    if s.senderRole in t.call.last {
      var m :| 0 <= m < |t.applied| && t.applied[m] == t.call.last[s.senderRole];
    }
  }

  // ---- The object ----

  class CallStateMachine {
    const callID: nat
    const offerSignal: Signal
    var phase: Phase
    var terminationReason: Option<Reason>
    var answerSignal: Option<Signal>
    var lastSignal: map<Role, Signal>

    function Value(): Call
      reads this
    {
      Call(callID, offerSignal, phase, terminationReason, answerSignal, lastSignal)
    }

    constructor (offer: Signal, at: int)
      requires Create(offer, at).Ok?
      ensures Create(offer, at) == Ok(Value())
    {
      callID := offer.callID;
      offerSignal := offer;
      phase := RingingPhase;
      terminationReason := None;
      answerSignal := None;
      lastSignal := map[Initiator := offer];
    }

    method ApplySignal(s: Signal, at: int, compatible: Compatible) returns (r: Result<Verdict, Error>)
      modifies this
      ensures (Value(), r) == Apply(old(Value()), s, at, compatible)
    {
      if !ValidSignal(s) || s.callID != callID || !IsFresh(s, at) {
        return Err(InvalidSignal);
      }
      if s.senderRole in lastSignal {
        var prior := lastSignal[s.senderRole];
        if s.sequence < prior.sequence {
          return Ok(Stale);
        }
        if s.sequence == prior.sequence {
          if prior != s {
            return Err(SignalFork);
          }
          return Ok(ExactReplay);
        }
      }
      if phase == EndedPhase {
        return Ok(Stale);
      }
      if s.kind == Offer {
        return Err(InvalidTransition);
      }
      if s.kind == Ringing && (phase != RingingPhase || s.senderRole != Responder) {
        return Err(InvalidTransition);
      }
      if s.kind == Answer {
        if phase != RingingPhase || !compatible(s, offerSignal) {
          return Err(TranscriptMismatch);
        }
        answerSignal := Some(s);
        phase := Connecting;
      } else if s.kind == Connected {
        if phase != Connecting && phase != Active {
          return Err(InvalidTransition);
        }
        phase := Active;
      } else if s.kind == Declined || s.kind == Canceled || s.kind == Ended {
        phase := EndedPhase;
        terminationReason := s.terminationReason;
      }
      lastSignal := lastSignal[s.senderRole := s];
      return Ok(Applied);
    }
  }
}
