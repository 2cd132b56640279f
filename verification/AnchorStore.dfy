/**
 * Anchored compare-and-swap over encrypted browser storage
 * (client/browser-security-profile.js): any number of committers on one
 * relationship, each a snapshot transaction and, later, a write transaction.
 * Sealing is ideal: a sealed entry is its nonce and what it seals. Anchors are
 * those whose authentication tag verifies.
 */
module AnchorStore {
  import opened Wrappers
  import opened PacketFrame

  datatype Anchor = Anchor(generation: nat, stateDigest: Id, erased: bool)

  /** The encrypted state record, opaque to the store. */
  type Record = nat

  datatype SealedAnchor = SealedAnchor(nonce: nat, anchor: Anchor)

  datatype SealedState = SealedState(nonce: nat, record: Record)

  datatype Database = Database(anchor: Option<SealedAnchor>, state: Option<SealedState>)

  const ERASED_DIGEST: Id := 0

  datatype Intent =
    | CommitIntent(expected: Option<Anchor>, nextGeneration: int, stateDigest: Id, record: Record)
    | DestroyIntent(expected: Option<Anchor>)

  function Opened(sealed: Option<SealedAnchor>): Option<Anchor> {
    match sealed case None => None case Some(s) => Some(s.anchor)
  }

  function Generation(a: Option<Anchor>): nat {
    match a case None => 0 case Some(anchor) => anchor.generation
  }

  /** Verification of a stored anchor also wants its generation to be a safe integer. */
  predicate Verified(a: Option<Anchor>) {
    Generation(a) <= MAX_SAFE_INTEGER
  }

  /** What the snapshot transaction lets through. */
  predicate Admitted(snapshot: Option<SealedAnchor>, i: Intent) {
    && Verified(Opened(snapshot)) && Opened(snapshot) == i.expected
    && (i.CommitIntent? ==> i.nextGeneration == Generation(i.expected) + 1)
  }

  function NextAnchor(i: Intent): Anchor
    requires i.CommitIntent? ==> i.nextGeneration >= 0
  {
    match i
    case CommitIntent(_, nextGeneration, digest, _) => Anchor(nextGeneration, digest, false)
    case DestroyIntent(expected) => Anchor(Generation(expected) + 1, ERASED_DIGEST, true)
  }

  function NextState(i: Intent, nonce: nat): Option<SealedState> {
    match i case CommitIntent(_, _, _, record) => Some(SealedState(nonce, record)) case DestroyIntent(_) => None
  }

  /** A write that succeeded, with the anchor its caller expected to replace. */
  datatype Version = Version(expected: Option<Anchor>, anchor: Anchor, record: Option<Record>)

  function VersionOf(i: Intent): Version
    requires i.CommitIntent? ==> i.nextGeneration >= 0
  {
    Version(i.expected, NextAnchor(i), if i.CommitIntent? then Some(i.record) else None)
  }

  function LastAnchor(history: seq<Version>): Option<Anchor> {
    if history == [] then None else Some(history[|history| - 1].anchor)
  }

  /** Each write replaced exactly the anchor before it, one generation on. */
  ghost predicate Chained(history: seq<Version>) {
    forall k :: 0 <= k < |history| ==> Follows(history, k)
  }

  ghost predicate Follows(history: seq<Version>, k: nat)
    requires k < |history|
  {
    && history[k].expected == LastAnchor(history[..k])
    && history[k].anchor.generation == k + 1
    && (history[k].anchor.erased <==> history[k].record.None?)
  }

  /** Anchor and state of the database come from the last write. */
  ghost predicate Holds(db: Database, history: seq<Version>) {
    && Opened(db.anchor) == LastAnchor(history)
    && (if history == [] then db.state.None?
        else match history[|history| - 1].record
             case None => db.state.None?
             case Some(record) => db.state.Some? && db.state.value.record == record)
  }

  lemma WriteExtends(db: Database, history: seq<Version>, snapshot: Option<SealedAnchor>,
                     i: Intent, nonce: nat, stateNonce: nat)
    requires Chained(history) && Holds(db, history) && Admitted(snapshot, i) && db.anchor == snapshot
    ensures var next := history + [VersionOf(i)];
            Chained(next) && Holds(Database(Some(SealedAnchor(nonce, NextAnchor(i))), NextState(i, stateNonce)), next)
  {
    var next := history + [VersionOf(i)];
    forall k | 0 <= k < |next| ensures Follows(next, k) {
      if k < |history| {
        assert Follows(history, k);
        assert next[..k] == history[..k];
      } else {
        assert next[..k] == history;
        LastGeneration(history);
      }
    }
  }

  lemma LastGeneration(history: seq<Version>)
    requires Chained(history)
    ensures Generation(LastAnchor(history)) == |history|
  {
    if history != [] {
      assert Follows(history, |history| - 1);
    }
  }

  // ---- Concurrent committers ----

  datatype InFlight = InFlight(intent: Intent, snapshot: Option<SealedAnchor>)

  datatype World = World(db: Database, inFlight: map<nat, InFlight>, history: seq<Version>)

  datatype Action =
    | Snapshot(committer: nat, intent: Intent)
    | Write(committer: nat, nonce: nat, stateNonce: nat)
    | Abandon(committer: nat)

  function Step(w: World, a: Action): World {
    match a
    case Snapshot(id, intent) =>
      if id in w.inFlight || !Admitted(w.db.anchor, intent) then w
      else w.(inFlight := w.inFlight[id := InFlight(intent, w.db.anchor)])
    case Write(id, nonce, stateNonce) =>
      if id !in w.inFlight then w
      else
        var f := w.inFlight[id];
        var rest := w.inFlight - {id};
        if w.db.anchor != f.snapshot || (f.intent.CommitIntent? && f.intent.nextGeneration < 0) then
          w.(inFlight := rest)
        else
          World(Database(Some(SealedAnchor(nonce, NextAnchor(f.intent))), NextState(f.intent, stateNonce)), rest,
                w.history + [VersionOf(f.intent)])
    case Abandon(id) => w.(inFlight := w.inFlight - {id})
  }

  function Run(actions: seq<Action>): World {
    if actions == [] then World(Database(None, None), map[], [])
    else Step(Run(actions[..|actions| - 1]), actions[|actions| - 1])
  }

  ghost predicate Good(w: World) {
    && Chained(w.history) && Holds(w.db, w.history)
    && forall id :: id in w.inFlight ==> Admitted(w.inFlight[id].snapshot, w.inFlight[id].intent)
  }

  lemma StepGood(w: World, a: Action)
    requires Good(w)
    ensures Good(Step(w, a))
  {
    hide Chained, Holds;
    if a.Write? && a.committer in w.inFlight && w.db.anchor == w.inFlight[a.committer].snapshot {
      var f := w.inFlight[a.committer];
      WriteExtends(w.db, w.history, f.snapshot, f.intent, a.nonce, a.stateNonce);
    }
  }

  lemma {:induction false} RunGood(actions: seq<Action>)
    ensures Good(Run(actions))
  {
    if actions != [] {
      RunGood(actions[..|actions| - 1]);
      StepGood(Run(actions[..|actions| - 1]), actions[|actions| - 1]);
    }
  }

  /**
   * Over all interleavings of all committers: generations are gapless, every
   * successful write replaced exactly the write before it, so no update is
   * lost, and what a reader sees as anchor and state is one write.
   */
  lemma WritesFormOneChain(actions: seq<Action>, k: nat)
    requires k < |Run(actions).history|
    ensures var w := Run(actions);
            && w.history[k].anchor.generation == k + 1
            && w.history[k].expected == (if k == 0 then None else Some(w.history[k - 1].anchor))
            && Opened(w.db.anchor) == Some(w.history[|w.history| - 1].anchor)
            && (w.db.state.Some? <==> w.history[|w.history| - 1].record.Some?)
            && (w.db.state.Some? ==> w.history[|w.history| - 1].record == Some(w.db.state.value.record))
  {
    hide Run;
    RunGood(actions);
    assert Follows(Run(actions).history, k);
  }

  /**
   * At every point of every run: a committer is let in exactly when it expects
   * the last anchor and, unless it destroys, the next generation, and what it
   * was let in with is written exactly when nothing was written since.
   */
  lemma WritesTakeEffectExactly(actions: seq<Action>, id: nat, i: Intent, nonce: nat, stateNonce: nat)
    ensures var w := Run(actions); var after := Step(w, Snapshot(id, i));
            && after.db == w.db && after.history == w.history
            && (id !in w.inFlight ==>
                  (id in after.inFlight <==>
                   && i.expected == LastAnchor(w.history) && |w.history| <= 9007199254740991
                   && (i.CommitIntent? ==> i.nextGeneration == |w.history| + 1))
                  && (id in after.inFlight ==> after.inFlight[id] == InFlight(i, w.db.anchor)))
    ensures var w := Run(actions); var after := Step(w, Write(id, nonce, stateNonce));
            && (after.history != w.history <==> id in w.inFlight && w.inFlight[id].snapshot == w.db.anchor)
            && (after.history == w.history ==> after.db == w.db)
            && (after.history != w.history ==>
                  match w.inFlight[id].intent
                  case CommitIntent(expected, _, digest, record) =>
                    var anchor := Anchor(|w.history| + 1, digest, false);
                    && after.history == w.history + [Version(expected, anchor, Some(record))]
                    && after.db == Database(Some(SealedAnchor(nonce, anchor)), Some(SealedState(stateNonce, record)))
                  case DestroyIntent(expected) =>
                    var anchor := Anchor(|w.history| + 1, ERASED_DIGEST, true);
                    && after.history == w.history + [Version(expected, anchor, None)]
                    && after.db == Database(Some(SealedAnchor(nonce, anchor)), None))
  {
    hide Run, Chained;
    RunGood(actions);
    var w := Run(actions);
    LastGeneration(w.history);
  }

  /** Of all committers that expect the same anchor, at most one wins. */
  lemma OneWinnerPerAnchor(actions: seq<Action>, j: nat, k: nat)
    requires j < |Run(actions).history| && k < |Run(actions).history|
    requires Run(actions).history[j].expected == Run(actions).history[k].expected
    ensures j == k
  {
    hide Run;
    WritesFormOneChain(actions, j);
    WritesFormOneChain(actions, k);
    if j > 0 {
      WritesFormOneChain(actions, j - 1);
    }
    if k > 0 {
      WritesFormOneChain(actions, k - 1);
    }
  }

  /**
   * After an erasure no write with an expected anchor that is absent or lacks
   * the erasure mark succeeds, as every anchor the runtime validates lacks it.
   */
  lemma NothingAfterErasure(actions: seq<Action>, j: nat)
    requires j < |Run(actions).history| && Run(actions).history[j].anchor.erased
    requires forall i :: j < i < |Run(actions).history| ==> Unmarked(Run(actions).history[i].expected)
    ensures |Run(actions).history| == j + 1 && Run(actions).db.state.None?
  {
    hide Run;
    WritesFormOneChain(actions, j);
    RunGood(actions);
    assert Follows(Run(actions).history, j);
    if j + 1 < |Run(actions).history| {
      WritesFormOneChain(actions, j + 1);
    }
  }

  predicate Unmarked(expected: Option<Anchor>) {
    expected.None? || !expected.value.erased
  }

  lemma RunAppend(actions: seq<Action>, a: Action)
    ensures Run(actions + [a]) == Step(Run(actions), a)
  {
    assert (actions + [a])[..|actions|] == actions;
  }

  /**
   * The mark is what stops later commits: a caller that presents the tombstone
   * itself as expected can write over it.
   */
  lemma TombstoneItselfIsNoBarrier(nonce: nat, record: Record) returns (actions: seq<Action>)
    ensures var history := Run(actions).history;
            && |history| == 2 && history[0].anchor.erased && history[1].expected == Some(history[0].anchor)
            && history[1].record == Some(record)
  {
    hide Run;
    var tombstone := Anchor(1, ERASED_DIGEST, true);
    var erase, write := Snapshot(0, DestroyIntent(None)), Write(0, nonce, 0);
    var again := Snapshot(0, CommitIntent(Some(tombstone), 2, 7, record));
    RunAppend([], erase);
    RunAppend([] + [erase], write);
    RunAppend([] + [erase] + [write], again);
    RunAppend([] + [erase] + [write] + [again], write);
    EmptyRun();
    actions := [] + [erase] + [write] + [again] + [write];
  }

  lemma EmptyRun()
    ensures Run([]) == World(Database(None, None), map[], [])
  {
  }

  // ---- The store object ----

  /** The database as every store object of every tab sees it. */
  class SharedDatabase {
    var db: Database
    ghost var history: seq<Version>

    ghost predicate Valid()
      reads this
    {
      Chained(history) && Holds(db, history)
    }

    constructor ()
      ensures Valid() && history == []
    {
      db := Database(None, None);
      history := [];
    }

    /** Any number of writes by other objects: each compares and swaps as this one does. */
    method OthersRun()
      requires Valid()
      modifies this
      ensures Valid() && old(history) <= history && (history == old(history) ==> db == old(db))
    {
      hide Chained, Holds;
      var n: nat := *;
      while n > 0
        invariant Valid() && old(history) <= history && (history == old(history) ==> db == old(db))
      {
        var intent: Intent := *;
        var nonce: nat := *;
        var stateNonce: nat := *;
        if Admitted(db.anchor, intent) {
          var _ := CompareAndSwap(db.anchor, intent, nonce, stateNonce);
        }
        n := n - 1;
      }
    }

    /** The write transaction: both puts, or none when the sealed anchor is no longer the one read. */
    method CompareAndSwap(snapshot: Option<SealedAnchor>, i: Intent, nonce: nat, stateNonce: nat)
      returns (written: bool)
      requires Valid() && Admitted(snapshot, i)
      modifies this
      ensures Valid()
      ensures written <==> old(db).anchor == snapshot
      ensures written ==> history == old(history) + [VersionOf(i)]
      ensures written ==> db == Database(Some(SealedAnchor(nonce, NextAnchor(i))), NextState(i, stateNonce))
      ensures !written ==> db == old(db) && history == old(history)
    {
      hide Chained, Holds;
      if db.anchor != snapshot {
        return false;
      }
      WriteExtends(db, history, snapshot, i, nonce, stateNonce);
      db := Database(Some(SealedAnchor(nonce, NextAnchor(i))), NextState(i, stateNonce));
      history := history + [VersionOf(i)];
      return true;
    }
  }

  lemma ErasedHasNoRecord(history: seq<Version>)
    requires Chained(history) && history != []
    ensures var last := history[|history| - 1]; last.anchor.erased <==> last.record.None?
  {
    assert Follows(history, |history| - 1);
  }

  lemma OpenedIsLast(db: Database, history: seq<Version>)
    requires Holds(db, history)
    ensures Opened(db.anchor) == LastAnchor(history)
  {
  }

  datatype Stage = Idle | Committing | Destroying

  /** Not staged, staged as deleted, or a staged record. */
  datatype Staged = Unset | Deletion | Staging(record: Record)

  /** What a caller's callback tries against the encrypted-state backend. */
  datatype BackendCall = SetRecord(key: nat, record: Record) | DeleteRecord(key: nat)

  class IndexedDBBrowserAnchorStore {
    const database: SharedDatabase
    const stateKey: nat
    var stage: Stage
    var stagedRecord: Staged
    var readRecord: Option<Option<Record>>

    constructor (database: SharedDatabase, stateKey: nat)
      ensures this.database == database && this.stateKey == stateKey
      ensures stage == Idle && stagedRecord == Unset && readRecord == None
    {
      this.database := database;
      this.stateKey := stateKey;
      stage := Idle;
      stagedRecord := Unset;
      readRecord := None;
    }

    /** A read of the encrypted record is answered only inside a load. */
    method GetEncryptedRecord(key: nat) returns (r: Option<Option<Record>>)
      ensures r == if key == stateKey && stage == Idle then readRecord else None
    {
      if key != stateKey || readRecord.None? || stage != Idle {
        return None;
      }
      return readRecord;
    }

    method Backend(call: BackendCall) returns (ok: bool)
      modifies `stagedRecord
      ensures ok <==> call.key == stateKey && old(stagedRecord) == Unset
                      && stage == if call.SetRecord? then Committing else Destroying
      ensures stagedRecord == if !ok then old(stagedRecord) else if call.SetRecord? then Staging(call.record)
                else Deletion
    {
      if call.key != stateKey || stagedRecord != Unset {
        return false;
      }
      if call.SetRecord? && stage == Committing {
        stagedRecord := Staging(call.record);
        return true;
      }
      if call.DeleteRecord? && stage == Destroying {
        stagedRecord := Deletion;
        return true;
      }
      return false;
    }

    /** Runs the caller's callback; its first refused call ends it. */
    method Callback(calls: seq<BackendCall>) returns (ok: bool)
      requires stagedRecord == Unset
      modifies `stagedRecord
      ensures ok && calls != [] ==>
                |calls| == 1 && calls[0].key == stateKey
                && stagedRecord == if calls[0].SetRecord? then Staging(calls[0].record) else Deletion
      ensures ok && calls == [] ==> stagedRecord == Unset
      ensures ok <==> calls == [] || (|calls| == 1 && calls[0].key == stateKey
                                      && stage == if calls[0].SetRecord? then Committing else Destroying)
      ensures ok && stagedRecord.Staging? ==> stage == Committing
      ensures ok && stagedRecord.Deletion? ==> stage == Destroying
    {
      for k := 0 to |calls|
        invariant k == 0 ==> stagedRecord == Unset
        invariant k > 0 ==> k == 1 && calls[0].key == stateKey
                            && stage == (if calls[0].SetRecord? then Committing else Destroying)
                            && stagedRecord == if calls[0].SetRecord? then Staging(calls[0].record) else Deletion
        invariant stagedRecord.Staging? ==> stage == Committing
        invariant stagedRecord.Deletion? ==> stage == Destroying
      {
        var accepted := Backend(calls[k]);
        if !accepted {
          return false;
        }
      }
      return true;
    }

    /** One read transaction over both stores; the record is readable only during it. */
    method Load() returns (r: Option<(Option<Anchor>, Option<Record>)>)
      requires database.Valid()
      modifies `readRecord
      ensures readRecord == if r.Some? then None else old(readRecord)
      ensures r.Some? <==> stage == Idle && Verified(LastAnchor(database.history))
      ensures r.Some? ==> r.value.0 == LastAnchor(database.history)
      ensures r.Some? ==> r.value.1
                          == if database.history == [] then None else database.history[|database.history| - 1].record
    {
      if stage != Idle {
        return None;
      }
      var current := database.db;
      if !Verified(Opened(current.anchor)) {
        return None;
      }
      var record := match current.state case None => None case Some(s) => Some(s.record);
      readRecord := Some(record);
      var loaded := GetEncryptedRecord(stateKey);
      readRecord := None;
      return Some((Opened(current.anchor), loaded.value));
    }

    method ErasureStatus() returns (erased: Option<bool>)
      requires database.Valid()
      ensures erased.Some? <==> Verified(LastAnchor(database.history))
      ensures erased.Some? ==>
                (erased.value <==> database.history != [] && database.history[|database.history| - 1].record.None?)
    {
      var anchor := Opened(database.db.anchor);
      if !Verified(anchor) {
        return None;
      }
      erased := Some(anchor.Some? && anchor.value.erased);
      if database.history != [] {
        assert Follows(database.history, |database.history| - 1);
      }
    }

    /**
     * A commit: stage, snapshot and check, seal, then compare and swap. Other
     * objects may write at any point in between, also just before the swap.
     * While nobody else writes it succeeds exactly for an idle store, one staged
     * record, the anchor that stands and the next generation.
     */
    method Commit(expected: Option<Anchor>, nextGeneration: int, stateDigest: Id, calls: seq<BackendCall>,
                  nonce: nat, stateNonce: nat)
      returns (anchor: Option<Anchor>)
      requires database.Valid()
      modifies this, database
      ensures database.Valid() && stage == old(stage) && (old(stage) == Idle ==> stagedRecord == Unset)
      ensures old(database.history) <= database.history
      ensures anchor.Some? ==>
                && old(stage) == Idle && |calls| == 1 && calls[0].SetRecord? && calls[0].key == stateKey
                && 0 < nextGeneration == |database.history|
                && anchor.value == Anchor(nextGeneration, stateDigest, false)
                && database.history[|database.history| - 1] == Version(expected, anchor.value, Some(calls[0].record))
                && database.db.state == Some(SealedState(stateNonce, calls[0].record))
      ensures anchor.None? && database.history == old(database.history) ==>
                || old(stage) != Idle || |calls| != 1 || !calls[0].SetRecord? || calls[0].key != stateKey
                || LastAnchor(old(database.history)) != expected || !Verified(expected)
                || nextGeneration != Generation(expected) + 1
    {
      hide Chained, Holds, Follows;
      if stage != Idle {
        return None;
      }
      stage := Committing;
      stagedRecord := Unset;
      var called := Callback(calls);
      if !called || !stagedRecord.Staging? {
        stagedRecord := Unset;
        stage := Idle;
        return None;
      }
      var record := stagedRecord.record;
      database.OthersRun();
      var snapshot := database.db.anchor;
      OpenedIsLast(database.db, database.history);
      var intent := CommitIntent(expected, nextGeneration, stateDigest, record);
      if !Verified(Opened(snapshot)) || Opened(snapshot) != expected || nextGeneration != Generation(expected) + 1 {
        stagedRecord := Unset;
        stage := Idle;
        return None;
      }
      database.OthersRun();
      var written := database.CompareAndSwap(snapshot, intent, nonce, stateNonce);
      stagedRecord := Unset;
      stage := Idle;
      if !written {
        return None;
      }
      LastGeneration(database.history);
      return Some(NextAnchor(intent));
    }

    /** Erasure: an authenticated tombstone replaces the anchor and the state is deleted, in one transaction. */
    method Destroy(expected: Option<Anchor>, calls: seq<BackendCall>, nonce: nat) returns (destroyed: bool)
      requires database.Valid()
      modifies this, database
      ensures database.Valid() && stage == old(stage) && (old(stage) == Idle ==> stagedRecord == Unset)
      ensures old(database.history) <= database.history
      ensures destroyed ==>
                && old(stage) == Idle && calls == [DeleteRecord(stateKey)] && database.db.state.None?
                && database.history != []
                && database.history[|database.history| - 1]
                   == Version(expected, Anchor(Generation(expected) + 1, ERASED_DIGEST, true), None)
      ensures !destroyed && database.history == old(database.history) ==>
                || old(stage) != Idle || calls != [DeleteRecord(stateKey)]
                || LastAnchor(old(database.history)) != expected || !Verified(expected)
    {
      hide Chained, Holds, Follows;
      if stage != Idle {
        return false;
      }
      stage := Destroying;
      stagedRecord := Unset;
      var called := Callback(calls);
      if !called || stagedRecord != Deletion {
        stagedRecord := Unset;
        stage := Idle;
        return false;
      }
      database.OthersRun();
      var snapshot := database.db.anchor;
      OpenedIsLast(database.db, database.history);
      if !Verified(Opened(snapshot)) || Opened(snapshot) != expected {
        stagedRecord := Unset;
        stage := Idle;
        return false;
      }
      database.OthersRun();
      destroyed := database.CompareAndSwap(snapshot, DestroyIntent(expected), nonce, 0);
      stagedRecord := Unset;
      stage := Idle;
    }
  }
}
