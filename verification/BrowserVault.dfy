/**
 * The vault object (client/messaging-service.js): it loads and commits the one
 * application slot through the anchored store of module AnchorStore, which any
 * number of other tabs write as well.
 */
module BrowserVault {
  import opened Wrappers
  import opened PacketFrame
  import opened AnchorStore
  import Burn

  type Vault = Burn.Vault

  datatype VaultError =
    | StoreFailed
    | VaultRollbackDetected
    | VaultBurnInProgress
    | VaultAlreadyActive
    | VaultUnavailable
    | VaultBurnNotPending
    | VaultLocked
    | VaultScopeRollback

  class HostAnchoredBrowserApplicationVault {
    const store: IndexedDBBrowserAnchorStore
    /** The record as stored, its parser and validator, and the digest an anchor carries. */
    const encode: Vault -> Record
    const decode: Record -> Option<Vault>
    const digest: Record -> Id

    var currentAnchor: Option<Anchor>
    var currentRecord: Option<Vault>
    var innerVaultScopeID: Option<nat>
    /** The writes behind what was loaded or committed last. */
    ghost var known: seq<Version>

    ghost predicate Valid()
      reads this, store, store.database
    {
      && store.database.Valid() && store.stage == Idle
      && (forall v :: decode(encode(v)) == Some(v))
      && known <= store.database.history && currentAnchor == LastAnchor(known) && currentRecord == SlotOf(known)
    }

    /** The vault record as of a series of writes. */
    ghost function SlotOf(history: seq<Version>): Option<Vault> {
      if history == [] || history[|history| - 1].record.None? then None else decode(history[|history| - 1].record.value)
    }

    /** What loading the slot answers as of a series of writes. */
    ghost function SlotAnswer(history: seq<Version>): Result<Option<Vault>, VaultError> {
      if !Verified(LastAnchor(history)) then Err(StoreFailed)
      else if history == [] then Ok(None)
      else
        var last := history[|history| - 1];
        if last.record.None? || decode(last.record.value).None? || digest(last.record.value) != last.anchor.stateDigest
        then Err(VaultRollbackDetected)
        else Ok(decode(last.record.value))
    }

    constructor (store: IndexedDBBrowserAnchorStore, encode: Vault -> Record, decode: Record -> Option<Vault>,
                 digest: Record -> Id)
      requires store.database.Valid() && store.stage == Idle && forall v :: decode(encode(v)) == Some(v)
      ensures Valid() && this.store == store && innerVaultScopeID == None
    {
      this.store := store;
      this.encode := encode;
      this.decode := decode;
      this.digest := digest;
      currentAnchor := None;
      currentRecord := None;
      innerVaultScopeID := None;
      known := [];
    }

    method LoadSlot() returns (r: Result<Option<Vault>, VaultError>)
      requires Valid()
      modifies this`currentAnchor, this`currentRecord, this`known, store`readRecord
      ensures Valid()
      ensures r.Ok? ==> known == store.database.history && r.value == currentRecord == SlotOf(known)
      ensures r.Ok? && r.value.None? ==> known == []
      ensures r == SlotAnswer(store.database.history)
      ensures r.Err? ==> known == old(known)
    {
      hide Chained, Holds;
      var loaded := store.Load();
      if loaded.None? {
        return Err(StoreFailed);
      }
      var (anchor, record) := loaded.value;
      if anchor.None? != record.None? {
        return Err(VaultRollbackDetected);
      }
      if store.database.history != [] {
        ErasedHasNoRecord(store.database.history);
      }
      if anchor.None? {
        currentAnchor, currentRecord, known := None, None, store.database.history;
        return Ok(None);
      }
      var vault := decode(record.value);
      if anchor.value.erased || vault.None? || digest(record.value) != anchor.value.stateDigest {
        return Err(VaultRollbackDetected);
      }
      currentAnchor, currentRecord, known := anchor, vault, store.database.history;
      return Ok(vault);
    }

    /** One commit on top of exactly what was loaded, or none; it fails only for a write that came in between. */
    method CommitSlot(next: Vault, nonce: nat, stateNonce: nat) returns (ok: bool)
      requires Valid()
      modifies this, store, store.database
      ensures Valid() && innerVaultScopeID == old(innerVaultScopeID)
      ensures old(store.database.history) <= store.database.history
      ensures ok ==>
                store.database.history == known && |known| == |old(known)| + 1 && old(known) <= known
                  && SlotOf(known) == Some(next)
      ensures !ok ==> known == old(known)
      ensures !ok && store.database.history == old(store.database.history) ==>
                old(known) != old(store.database.history) || !Verified(LastAnchor(old(store.database.history)))
    {
      hide Chained, Holds;
      ghost var before := store.database.history;
      var record := encode(next);
      KnownGeneration();
      var committed := store.Commit(currentAnchor, Generation(currentAnchor) + 1, digest(record),
                                    [SetRecord(store.stateKey, record)], nonce, stateNonce);
      if committed.None? {
        return false;
      }
      currentAnchor, currentRecord, known := committed, Some(next), store.database.history;
      return true;
    }

    lemma KnownGeneration()
      requires Valid()
      ensures Generation(currentAnchor) == |known|
    {
      forall k | 0 <= k < |known| ensures Follows(known, k) {
        assert Follows(store.database.history, k);
        assert known[..k] == store.database.history[..k];
      }
      LastGeneration(known);
    }

    /** A new vault goes in only where none is, or a burned one. */
    method Initialize(scopeID: nat, persona: set<Burn.Relationship>, nonce: nat, stateNonce: nat)
      returns (r: Result<(), VaultError>)
      requires Valid()
      modifies this, store, store.database
      ensures Valid()
      ensures r.Ok? ==>
                && SlotOf(known) == Some(Burn.Vault(Burn.Active, scopeID, persona)) && known != []
                   && store.database.history == known
                && var before := SlotOf(known[..|known| - 1]); before.None? || before.value.status.Burned?
      ensures innerVaultScopeID == if r.Ok? then Some(scopeID) else old(innerVaultScopeID)
      ensures r.Err? ==>
                match SlotAnswer(old(store.database.history))
                case Err(error) => r.error == error
                case Ok(slot) =>
                  if slot.Some? && slot.value.status.Burning? then r.error == VaultBurnInProgress
                  else if slot.Some? && slot.value.status.Active? then r.error == VaultAlreadyActive
                  else r.error == StoreFailed && store.database.history != old(store.database.history)
    {
      hide Chained, Holds;
      var current := LoadSlot();
      if current.Err? {
        return Err(current.error);
      }
      if current.value.Some? && !current.value.value.status.Burned? {
        return Err(if current.value.value.status.Burning? then VaultBurnInProgress else VaultAlreadyActive);
      }
      ghost var loaded := known;
      var ok := CommitSlot(Burn.Vault(Burn.Active, scopeID, persona), nonce, stateNonce);
      if !ok {
        return Err(StoreFailed);
      }
      assert known[..|known| - 1] == loaded;
      innerVaultScopeID := Some(scopeID);
      return Ok(());
    }

    /** A save replaces the persona of the active vault this object unlocked, whatever persona that vault then holds. */
    method Save(persona: set<Burn.Relationship>, nonce: nat, stateNonce: nat) returns (r: Result<(), VaultError>)
      requires Valid()
      modifies this, store, store.database
      ensures Valid() && innerVaultScopeID == old(innerVaultScopeID)
      ensures r.Ok? ==>
                && known != [] && store.database.history == known
                && var before := SlotOf(known[..|known| - 1]);
                   && before.Some? && before.value.status.Active? && Some(before.value.scopeID) == innerVaultScopeID
                   && SlotOf(known) == Some(before.value.(persona := persona))
      ensures r.Err? ==>
                if old(innerVaultScopeID).None? || old(currentRecord).None? then r.error == VaultLocked
                else
                  match SlotAnswer(old(store.database.history))
                  case Err(error) => r.error == error
                  case Ok(slot) =>
                    if slot.None? || !slot.value.status.Active? || Some(slot.value.scopeID) != old(innerVaultScopeID)
                    then r.error == VaultScopeRollback
                    else r.error == StoreFailed && store.database.history != old(store.database.history)
    {
      hide Chained, Holds;
      if innerVaultScopeID.None? || currentRecord.None? {
        return Err(VaultLocked);
      }
      var current := LoadSlot();
      if current.Err? {
        return Err(current.error);
      }
      if current.value.None? || !current.value.value.status.Active?
        || Some(current.value.value.scopeID) != innerVaultScopeID {
        return Err(VaultScopeRollback);
      }
      ghost var loaded := known;
      var ok := CommitSlot(current.value.value.(persona := persona), nonce, stateNonce);
      if !ok {
        return Err(StoreFailed);
      }
      assert known[..|known| - 1] == loaded;
      return Ok(());
    }

    /** Burning starts from an active vault; a burn in progress is left as it is. */
    method BeginBurn(nonce: nat, stateNonce: nat) returns (r: Result<nat, VaultError>)
      requires Valid()
      modifies this, store, store.database
      ensures Valid() && innerVaultScopeID == old(innerVaultScopeID)
      ensures r.Ok? ==>
                && store.database.history == known && SlotOf(known).Some? && SlotOf(known).value.status.Burning?
                && SlotOf(known).value.scopeID == r.value
                && (known != old(store.database.history) ==>
                      known != [] && SlotOf(known[..|known| - 1]) == Some(SlotOf(known).value.(status := Burn.Active)))
      ensures r.Err? ==>
                match SlotAnswer(old(store.database.history))
                case Err(error) => r.error == error
                case Ok(slot) =>
                  if slot.None? || slot.value.status.Burned? then r.error == VaultUnavailable
                  else slot.value.status.Active? && r.error == StoreFailed
                       && store.database.history != old(store.database.history)
    {
      hide Chained, Holds;
      var current := LoadSlot();
      if current.Err? {
        return Err(current.error);
      }
      if current.value.None? || current.value.value.status.Burned? {
        return Err(VaultUnavailable);
      }
      if current.value.value.status.Burning? {
        return Ok(current.value.value.scopeID);
      }
      ghost var loaded := known;
      var ok := CommitSlot(current.value.value.(status := Burn.Burning), nonce, stateNonce);
      if !ok {
        return Err(StoreFailed);
      }
      assert known[..|known| - 1] == loaded;
      return Ok(current.value.value.scopeID);
    }

    /** Burned follows burning, keeps no persona and locks this object. */
    method FinishBurn(nonce: nat, stateNonce: nat) returns (r: Result<nat, VaultError>)
      requires Valid()
      modifies this, store, store.database
      ensures Valid()
      ensures r.Ok? ==>
                && store.database.history == known && SlotOf(known).Some? && SlotOf(known).value.status.Burned?
                && SlotOf(known).value.scopeID == r.value
                && (known != old(store.database.history) ==>
                      && known != [] && SlotOf(known).value.persona == {} && SlotOf(known[..|known| - 1]).Some?
                      && SlotOf(known[..|known| - 1]).value.status.Burning?
                         && SlotOf(known[..|known| - 1]).value.scopeID == r.value)
      ensures innerVaultScopeID == if r.Ok? then None else old(innerVaultScopeID)
      ensures r.Err? ==>
                match SlotAnswer(old(store.database.history))
                case Err(error) => r.error == error
                case Ok(slot) =>
                  if slot.None? || slot.value.status.Active? then r.error == VaultBurnNotPending
                  else slot.value.status.Burning? && r.error == StoreFailed
                       && store.database.history != old(store.database.history)
    {
      hide Chained, Holds;
      var current := LoadSlot();
      if current.Err? {
        return Err(current.error);
      }
      if current.value.Some? && current.value.value.status.Burned? {
        innerVaultScopeID := None;
        return Ok(current.value.value.scopeID);
      }
      if current.value.None? || !current.value.value.status.Burning? {
        return Err(VaultBurnNotPending);
      }
      ghost var loaded := known;
      var ok := CommitSlot(Burn.Vault(Burn.Burned, current.value.value.scopeID, {}), nonce, stateNonce);
      if !ok {
        return Err(StoreFailed);
      }
      assert known[..|known| - 1] == loaded;
      innerVaultScopeID := None;
      return Ok(current.value.value.scopeID);
    }
  }
}
