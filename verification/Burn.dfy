/**
 * Local burn (client/messaging-service.js): any number of tabs share one vault
 * slot and one slot per relationship, any of them may run the burn, stop at any
 * point and run it again. A commit takes effect only on the state it was loaded
 * from (module AnchorStore), so each step here reads and writes at once; a step
 * that fails for any other reason ends its executor.
 */
module Burn {
  import opened Wrappers

  type Relationship = nat

  datatype Status = Active | Burning | Burned

  datatype Vault = Vault(status: Status, scopeID: nat, persona: set<Relationship>)

  /**
   * A relationship's own slot: nothing saved yet, a readable state with or
   * without the terminal policy, a state that no longer agrees with its anchor
   * (which may itself be missing), or the erasure tombstone.
   */
  datatype Slot = Untouched | Live(blocked: bool) | Damaged(wasBlocked: bool, anchored: bool) | Erased

  /** Where an executor stands in executeAnchoredBrowserLocalBurnV2. */
  datatype Progress =
    | Beginning
    | Checking(index: nat)
    | Opening(index: nat)
    | Blocking(index: nat)
    | Destroying(index: nat)
    | Erasing(index: nat)
    | Finishing
    | Cleaning(index: nat)
    | Finished

  /** `scopeID` and `persona` are the vault's when the burn began. */
  datatype Executor = Executor(list: seq<Relationship>, at: Progress, scopeID: nat, persona: set<Relationship>)

  /** `scopeIDs` are the vault scopes used so far, `burnedIDs` those whose burn was committed. */
  datatype World = World(
    vault: Option<Vault>,
    slots: map<Relationship, Slot>,
    executors: map<nat, Executor>,
    scopeIDs: set<nat>,
    burnedIDs: set<nat>)

  datatype Action =
    | Initialize(scopeID: nat, persona: set<Relationship>)
    | Save(scopeID: nat, persona: set<Relationship>)
    | RuntimeSave(relationship: Relationship, blocked: bool)
    | Damage(relationship: Relationship, anchored: bool)
    | Start(id: nat, list: seq<Relationship>)
    | Advance(id: nat, succeeds: bool)
    | Crash(id: nat)

  function SlotOf(w: World, r: Relationship): Slot {
    if r in w.slots then w.slots[r] else Untouched
  }

  function WithSlot(w: World, r: Relationship, s: Slot): World {
    w.(slots := w.slots[r := s])
  }

  // ---- One executor ----

  function AfterBlocking(list: seq<Relationship>, index: nat): Progress {
    if index + 1 < |list| then Checking(index + 1) else if list == [] then Finishing else Destroying(0)
  }

  function AfterDestroying(list: seq<Relationship>, index: nat): Progress {
    if index + 1 < |list| then Destroying(index + 1) else Finishing
  }

  function AfterFinishing(list: seq<Relationship>): Progress {
    if list == [] then Finished else Cleaning(0)
  }

  /** What the next call of an executor does to the stores, and where it leaves the executor; None when it throws. */
  function Next(vault: Option<Vault>, slot: Slot, e: Executor): Option<(Option<Vault>, Slot, Executor)> {
    match e.at
    case Beginning =>
      if vault.None? || vault.value.status.Burned? then None
      else
        var begun := e.(at := if e.list == [] then Finishing else Checking(0), scopeID := vault.value.scopeID,
                        persona := vault.value.persona);
        Some((Some(vault.value.(status := Burning)), slot, begun))
    case Checking(i) =>
      Some((vault, slot, e.(at := if slot.Erased? then AfterBlocking(e.list, i) else Opening(i))))
    case Opening(i) =>
      (match slot
       case Untouched => Some((vault, Live(false), e.(at := Blocking(i))))
       case Live(_) => Some((vault, slot, e.(at := Blocking(i))))
       case _ => None)
    case Blocking(i) =>
      if slot.Live? then Some((vault, Live(true), e.(at := AfterBlocking(e.list, i)))) else None
    case Destroying(i) =>
      Some((vault, slot, e.(at := if slot.Erased? then AfterDestroying(e.list, i) else Erasing(i))))
    case Erasing(i) =>
      (match slot
       case Erased => None
       case Damaged(_, anchored) => if anchored then None
         else Some((vault, Erased, e.(at := AfterDestroying(e.list, i))))
       case _ => Some((vault, Erased, e.(at := AfterDestroying(e.list, i)))))
    case Finishing =>
      if vault.None? || vault.value.status.Active? then None
      else if vault.value.status.Burned? then Some((vault, slot, e.(at := AfterFinishing(e.list))))
      else Some((Some(Vault(Burned, vault.value.scopeID, {})), slot, e.(at := AfterFinishing(e.list))))
    case Cleaning(i) => Some((vault, slot, e.(at := if i + 1 < |e.list| then Cleaning(i + 1) else Finished)))
    case Finished => Some((vault, slot, e))
  }

  predicate HasIndex(p: Progress) {
    p.Checking? || p.Opening? || p.Blocking? || p.Destroying? || p.Erasing?
  }

  /** The relationship the next call is about; any other number when it is about none. */
  function Subject(e: Executor): Relationship {
    if HasIndex(e.at) && e.at.index < |e.list| then e.list[e.at.index] else 0
  }

  function Step(w: World, a: Action): World {
    match a
    case Initialize(scopeID, persona) =>
      if scopeID in w.scopeIDs || (w.vault.Some? && !w.vault.value.status.Burned?) then w
      else w.(vault := Some(Vault(Active, scopeID, persona)), scopeIDs := w.scopeIDs + {scopeID})
    case Save(scopeID, persona) =>
      if w.vault.None? || !w.vault.value.status.Active? || w.vault.value.scopeID != scopeID then w
      else w.(vault := Some(w.vault.value.(persona := persona)))
    case RuntimeSave(r, blocked) =>
      (match SlotOf(w, r)
       case Untouched => WithSlot(w, r, Live(blocked))
       case Live(was) => if was && !blocked then w else WithSlot(w, r, Live(blocked))
       case _ => w)
    case Damage(r, anchored) => if SlotOf(w, r).Live? then WithSlot(w, r, Damaged(SlotOf(w, r).blocked, anchored))
      else w
    case Start(id, list) => if id in w.executors then w
      else w.(executors := w.executors[id := Executor(list, Beginning, 0, {})])
    case Advance(id, succeeds) =>
      if id !in w.executors then w
      else
        var e := w.executors[id];
        var next := Next(w.vault, SlotOf(w, Subject(e)), e);
        if !succeeds || next.None? then w.(executors := w.executors - {id})
        else
          var (vault, slot, after) := next.value;
          w.(vault := vault, slots := if slot == SlotOf(w, Subject(e)) then w.slots else w.slots[Subject(e) := slot],
             executors := w.executors[id := after],
             burnedIDs := if vault.Some? && vault.value.status.Burned? then w.burnedIDs + {vault.value.scopeID}
               else w.burnedIDs)
    case Crash(id) => w.(executors := w.executors - {id})
  }

  function Run(actions: seq<Action>): World {
    if actions == [] then World(None, map[], map[], {}, {})
      else Step(Run(actions[..|actions| - 1]), actions[|actions| - 1])
  }

  // ---- Slots only move towards erasure ----

  /** Durably blocked, or already erased. */
  predicate Sealed(s: Slot) {
    s.Erased? || (s.Live? && s.blocked) || (s.Damaged? && s.wasBlocked)
  }

  predicate SlotMoves(before: Slot, after: Slot) {
    && (Sealed(before) ==> Sealed(after))
    && (before.Erased? ==> after.Erased?)
  }

  lemma SlotsMove(w: World, a: Action, r: Relationship)
    ensures SlotMoves(SlotOf(w, r), SlotOf(Step(w, a), r))
  {
  }

  // ---- The invariant of executors ----

  predicate InRange(e: Executor) {
    && (HasIndex(e.at) || e.at.Cleaning? ==> e.at.index < |e.list|)
    && (e.at.Cleaning? ==> e.list != [])
  }

  /** How much of its list an executor has blocked. */
  function BlockedCount(e: Executor): nat {
    match e.at
    case Beginning => 0
    case Checking(i) => i
    case Opening(i) => i
    case Blocking(i) => i
    case _ => |e.list|
  }

  /** How much of its list an executor has erased. */
  function ErasedCount(e: Executor): nat {
    match e.at
    case Destroying(i) => i
    case Erasing(i) => i
    case Finishing => |e.list|
    case Cleaning(_) => |e.list|
    case Finished => |e.list|
    case _ => 0
  }

  ghost predicate Done(w: World, e: Executor) {
    && (forall k :: 0 <= k < BlockedCount(e) && k < |e.list| ==> Sealed(SlotOf(w, e.list[k])))
    && (forall k :: 0 <= k < ErasedCount(e) && k < |e.list| ==> SlotOf(w, e.list[k]).Erased?)
  }

  ghost predicate Good(w: World) {
    && ScopesGood(w)
    && forall id :: id in w.executors ==> Sound(w, w.executors[id])
  }

  /** Every scope but a current, unburned one has been burned. */
  ghost predicate ScopesGood(w: World) {
    && (w.vault.None? ==> w.scopeIDs == {})
    && w.burnedIDs <= w.scopeIDs
    && (w.vault.Some? ==> w.vault.value.scopeID in w.scopeIDs)
    && forall s :: s in w.scopeIDs && s !in w.burnedIDs <==>
         w.vault.Some? && w.vault.value.scopeID == s && !w.vault.value.status.Burned?
  }

  ghost predicate Sound(w: World, e: Executor) {
    && InRange(e) && Done(w, e)
    && (!e.at.Beginning? ==> e.scopeID in w.scopeIDs && w.vault.Some?)
    && (e.at.Cleaning? || e.at.Finished? ==> e.scopeID in w.burnedIDs)
    && (!e.at.Beginning? && w.vault.value.scopeID == e.scopeID && !w.vault.value.status.Burned? ==>
          w.vault.value == Vault(Burning, e.scopeID, e.persona))
  }

  lemma DoneStays(w: World, a: Action, e: Executor)
    requires Done(w, e)
    ensures Done(Step(w, a), e)
  {
    hide Step, Sealed;
    forall k | 0 <= k < |e.list| ensures SlotMoves(SlotOf(w, e.list[k]), SlotOf(Step(w, a), e.list[k])) {
      SlotsMove(w, a, e.list[k]);
    }
  }

  /** What any action does to the vault, as far as an executor cares. */
  lemma VaultSteps(w: World, a: Action)
    requires ScopesGood(w)
    ensures var after := Step(w, a);
            && ScopesGood(after) && w.scopeIDs <= after.scopeIDs && w.burnedIDs <= after.burnedIDs
            && (w.vault.Some? ==> after.vault.Some?)
            && (w.vault.Some? && after.vault.value.scopeID in w.scopeIDs ==>
                after.vault.value.scopeID == w.vault.value.scopeID)
            && (w.vault.Some? && w.vault.value.status.Burning? && !after.vault.value.status.Burned? ==>
                after.vault == w.vault)
            && (w.vault.Some? && w.vault.value.status.Burned? && after.vault != w.vault ==>
                after.vault.value.scopeID !in w.scopeIDs)
  {
  }

  lemma OthersStaySound(w: World, a: Action, e: Executor)
    requires Good(w) && Sound(w, e)
    ensures Sound(Step(w, a), e)
  {
    hide Step, Done, Sealed;
    DoneStays(w, a, e);
    VaultSteps(w, a);
  }

  /** A call about one relationship of the list. */
  lemma ListedCallIsSound(w: World, id: nat)
    requires Good(w) && id in w.executors && HasIndex(w.executors[id].at) && id in Step(w, Advance(id, true)).executors
    ensures Sound(Step(w, Advance(id, true)), Step(w, Advance(id, true)).executors[id])
  {
    hide ScopesGood;
    var a := Advance(id, true);
    var e := w.executors[id];
    assert Sound(w, e);
    DoneStays(w, a, e);
    VaultSteps(w, a);
  }

  lemma OtherCallIsSound(w: World, id: nat)
    requires Good(w) && id in w.executors && !HasIndex(w.executors[id].at) && id in Step(w, Advance(id, true)).executors
    ensures Sound(Step(w, Advance(id, true)), Step(w, Advance(id, true)).executors[id])
  {
    var a := Advance(id, true);
    var e := w.executors[id];
    assert Sound(w, e);
    DoneStays(w, a, e);
    VaultSteps(w, a);
  }

  lemma StepGood(w: World, a: Action)
    requires Good(w)
    ensures Good(Step(w, a))
  {
    hide ScopesGood;
    var after := Step(w, a);
    VaultSteps(w, a);
    forall id | id in after.executors ensures Sound(after, after.executors[id]) {
      if id in w.executors && after.executors[id] == w.executors[id] {
        OthersStaySound(w, a, w.executors[id]);
      } else if a.Advance? {
        if HasIndex(w.executors[id].at) {
          ListedCallIsSound(w, id);
        } else {
          OtherCallIsSound(w, id);
        }
      }
    }
  }

  lemma {:induction false} RunGood(actions: seq<Action>)
    ensures Good(Run(actions))
  {
    hide Good, Step;
    if actions == [] {
      NothingGood();
    } else {
      RunGood(actions[..|actions| - 1]);
      StepGood(Run(actions[..|actions| - 1]), actions[|actions| - 1]);
    }
  }

  lemma NothingGood()
    ensures Good(World(None, map[], map[], {}, {}))
  {
  }

  lemma RunAppend(actions: seq<Action>, a: Action)
    ensures Run(actions + [a]) == Step(Run(actions), a)
  {
    assert (actions + [a])[..|actions|] == actions;
  }

  // ---- Safety over every run ----

  /** Some listed relationship is about to be erased, or was just erased, by this call. */
  predicate Erases(w: World, a: Action, r: Relationship) {
    !SlotOf(w, r).Erased? && SlotOf(Step(w, a), r).Erased?
  }

  /**
   * Only an executor erases, and when it does, every relationship on its list
   * is durably blocked or already erased, and the vault has left `active` for
   * good as far as that burn goes.
   */
  lemma BlockBeforeDestroy(actions: seq<Action>, a: Action, r: Relationship)
    requires Erases(Run(actions), a, r)
    ensures a.Advance? && a.id in Run(actions).executors
    ensures var w := Run(actions); var e := w.executors[a.id];
            && r in e.list && (forall x :: x in e.list ==> Sealed(SlotOf(w, x)))
            && w.vault.Some? && (w.vault.value.scopeID == e.scopeID ==> !w.vault.value.status.Active?)
  {
    hide Run;
    RunGood(actions);
    assert Sound(Run(actions), Run(actions).executors[a.id]);
  }

  /** Relay cleanup by an executor comes after the burn of its vault, with everything on its list erased. */
  lemma CleanupComesLast(actions: seq<Action>, id: nat)
    requires id in Run(actions).executors
    requires Run(actions).executors[id].at.Cleaning? || Run(actions).executors[id].at.Finished?
    ensures var w := Run(actions); var e := w.executors[id];
            && w.vault.Some? && e.scopeID in w.burnedIDs && (forall x :: x in e.list ==> SlotOf(w, x).Erased?)
            && (w.vault.value.scopeID == e.scopeID ==> w.vault.value.status.Burned?)
  {
    hide Run;
    RunGood(actions);
    assert Sound(Run(actions), Run(actions).executors[id]);
  }

  /** An executor that is done has asked the relay to tear down the routes of every listed relationship, in order. */
  lemma {:induction false} EveryRouteIsTornDown(actions: seq<Action>, id: nat, i: nat) returns (m: nat)
    requires id in Run(actions).executors
    requires var e := Run(actions).executors[id];
             i < |e.list| && (e.at.Finished? || (e.at.Cleaning? && i < e.at.index))
    ensures m < |actions| && actions[m] == Advance(id, true) && id in Run(actions[..m]).executors
    ensures var earlier := Run(actions[..m]).executors[id];
            earlier.list == Run(actions).executors[id].list && earlier.at == Cleaning(i)
  {
    var before, last := actions[..|actions| - 1], actions[|actions| - 1];
    assert Run(actions) == Step(Run(before), last);
    hide Run;
    CleaningAdvances(Run(before), last, id, i);
    if Run(before).executors[id].at == Cleaning(i) {
      m := |actions| - 1;
    } else {
      m := EveryRouteIsTornDown(before, id, i);
      assert before[..m] == actions[..m];
    }
  }

  lemma CleaningAdvances(w: World, a: Action, id: nat, i: nat)
    requires id in Step(w, a).executors
    requires var e := Step(w, a).executors[id];
             i < |e.list| && (e.at.Finished? || (e.at.Cleaning? && i < e.at.index))
    ensures id in w.executors && w.executors[id].list == Step(w, a).executors[id].list
    ensures var e := w.executors[id];
            || (e.at == Cleaning(i) && a == Advance(id, true))
            || (e.at != Cleaning(i) && (e.at.Finished? || (e.at.Cleaning? && i < e.at.index)))
  {
    hide SlotOf;
  }

  function StatusOf(w: World): Option<Status> {
    if w.vault.None? then None else Some(w.vault.value.status)
  }

  /** The vault's status moves along empty or burned, active, burning, burned. */
  predicate StatusMoves(before: Option<Status>, after: Option<Status>) {
    match after
    case None => before == None
    case Some(Active) => before != Some(Burning)
    case Some(Burning) => before == Some(Active) || before == Some(Burning)
    case Some(Burned) => before == Some(Burning) || before == Some(Burned)
  }

  lemma StatusMovesInOrder(w: World, a: Action)
    ensures StatusMoves(StatusOf(w), StatusOf(Step(w, a)))
    ensures StatusOf(w) != Some(Active) && StatusOf(Step(w, a)) == Some(Active) ==>
              a.Initialize? && a.scopeID !in w.scopeIDs
  {
  }

  /** Every burned vault was burning before, and active before that. */
  lemma {:induction false} BurnedWasBurning(actions: seq<Action>, scopeID: nat) returns (active: nat, burning: nat)
    requires scopeID in Run(actions).burnedIDs
    ensures active < burning < |actions|
    ensures HoldsVault(Run(actions[..active]), scopeID, Active) && HoldsVault(Run(actions[..burning]), scopeID, Burning)
  {
    hide Step, Sound;
    var front := actions[..|actions| - 1];
    RunGood(front);
    if scopeID in Run(front).burnedIDs {
      active, burning := BurnedWasBurning(front, scopeID);
      assert front[..active] == actions[..active] && front[..burning] == actions[..burning];
    } else {
      BurnStep(Run(front), actions[|actions| - 1], scopeID);
      active := BurningWasActive(front, scopeID);
      burning := |front|;
      assert front[..active] == actions[..active] && actions[..burning] == front;
    }
  }

  predicate HoldsVault(w: World, scopeID: nat, status: Status) {
    w.vault.Some? && w.vault.value.scopeID == scopeID && w.vault.value.status == status
  }

  lemma BurnStep(w: World, a: Action, scopeID: nat)
    requires ScopesGood(w)
    ensures scopeID in Step(w, a).burnedIDs && scopeID !in w.burnedIDs ==> HoldsVault(w, scopeID, Burning)
    ensures HoldsVault(Step(w, a), scopeID, Burning) ==>
              HoldsVault(w, scopeID, Burning) || HoldsVault(w, scopeID, Active)
  {
  }

  lemma {:induction false} BurningWasActive(actions: seq<Action>, scopeID: nat) returns (active: nat)
    requires HoldsVault(Run(actions), scopeID, Burning)
    ensures active < |actions| && HoldsVault(Run(actions[..active]), scopeID, Active)
  {
    hide Step, Sound;
    var front := actions[..|actions| - 1];
    RunGood(front);
    BurnStep(Run(front), actions[|actions| - 1], scopeID);
    if HoldsVault(Run(front), scopeID, Active) {
      active := |front|;
      assert actions[..active] == front;
    } else {
      active := BurningWasActive(front, scopeID);
      assert front[..active] == actions[..active];
    }
  }

  lemma {:induction false} StaysBurned(actions: seq<Action>, n: nat)
    requires n <= |actions|
    ensures Run(actions[..n]).burnedIDs <= Run(actions).burnedIDs && Run(actions[..n]).scopeIDs <= Run(actions).scopeIDs
    ensures Run(actions[..n]).vault.Some? ==> Run(actions).vault.Some?
  {
    hide Step, ScopesGood, Sound;
    if n == |actions| {
      assert actions[..n] == actions;
    } else {
      var front := actions[..|actions| - 1];
      assert front[..n] == actions[..n];
      StaysBurned(front, n);
      RunGood(front);
      VaultSteps(Run(front), actions[|actions| - 1]);
    }
  }

  /**
   * A burn that began cannot be undone, by any tab, crash or later burn: while
   * its vault scope is in place it stays burning with the same persona until it
   * is burned, and a burned scope never holds a persona again.
   */
  lemma {:induction false} BurnIsIrreversible(actions: seq<Action>, n: nat)
    requires n <= |actions| && Run(actions[..n]).vault.Some? && !Run(actions[..n]).vault.value.status.Active?
    ensures var began, now := Run(actions[..n]).vault.value, Run(actions).vault;
            now.Some? && (now.value.scopeID == began.scopeID ==> now.value == began || now.value.status.Burned?)
  {
    hide Step, Sound;
    if n == |actions| {
      assert actions[..n] == actions;
    } else {
      var front := actions[..|actions| - 1];
      assert front[..n] == actions[..n];
      BurnIsIrreversible(front, n);
      StaysBurned(front, n);
      RunGood(front);
      RunGood(actions[..n]);
      VaultSteps(Run(front), actions[|actions| - 1]);
    }
  }

  lemma {:induction false} StaysErased(actions: seq<Action>, n: nat, r: Relationship)
    requires n <= |actions| && SlotOf(Run(actions[..n]), r).Erased?
    ensures SlotOf(Run(actions), r).Erased?
  {
    hide Step;
    if n == |actions| {
      assert actions[..n] == actions;
    } else {
      var front := actions[..|actions| - 1];
      assert front[..n] == actions[..n];
      StaysErased(front, n, r);
      SlotsMove(Run(front), actions[|actions| - 1], r);
    }
  }

  /** The action commits the burn of the vault. */
  /**
   * Which relationships the erasing call erases: those that can still be read,
   * and of those that cannot exactly the ones whose anchor is gone as well. Any
   * other stops its executor.
   */
  lemma ErasesExactly(w: World, id: nat)
    requires id in w.executors && w.executors[id].at.Erasing?
             && w.executors[id].at.index < |w.executors[id].list|
    ensures var r := w.executors[id].list[w.executors[id].at.index]; var after := Step(w, Advance(id, true));
            && (Erases(w, Advance(id, true), r) <==>
                  SlotOf(w, r).Untouched? || SlotOf(w, r).Live? || (SlotOf(w, r).Damaged? && !SlotOf(w, r).anchored))
            && (id in after.executors <==> Erases(w, Advance(id, true), r))
            && forall x :: x != r ==> SlotOf(after, x) == SlotOf(w, x)
  {
  }

  predicate Burns(w: World, a: Action) {
    StatusOf(w) == Some(Burning) && StatusOf(Step(w, a)) == Some(Burned)
  }

  /**
   * The last call does not look at which vault it burns. It burns the vault its
   * executor began on exactly when nobody has burned that one yet.
   */
  lemma BurnsItsOwnVaultExactly(actions: seq<Action>, a: Action)
    requires Burns(Run(actions), a)
    ensures a.Advance? && a.id in Run(actions).executors && Run(actions).executors[a.id].at.Finishing?
    ensures var w := Run(actions); var e := w.executors[a.id];
            e.scopeID == w.vault.value.scopeID <==> e.scopeID !in w.burnedIDs
  {
    hide Run;
    RunGood(actions);
    assert Sound(Run(actions), Run(actions).executors[a.id]);
  }

  /**
   * When the burn of a vault is committed by an executor whose own vault nobody
   * has burned yet and whose list covers the persona that vault had when it
   * began, every relationship of the burned vault is erased, then and ever after.
   */
  lemma BurnErasesItsPersona(actions: seq<Action>, n: nat, r: Relationship)
    requires n < |actions| && Burns(Run(actions[..n]), actions[n])
    requires var w, a := Run(actions[..n]), actions[n];
             a.Advance? && a.id in w.executors ==>
               var e := w.executors[a.id];
               e.scopeID !in w.burnedIDs && (forall x :: x in e.persona ==> x in e.list)
    requires r in Run(actions[..n]).vault.value.persona
    ensures SlotOf(Run(actions), r).Erased?
  {
    hide Run;
    var w, a := Run(actions[..n]), actions[n];
    RunGood(actions[..n]);
    BurnsItsOwnVaultExactly(actions[..n], a);
    assert Sound(w, w.executors[a.id]);
    assert SlotOf(w, r).Erased?;
    SlotsMove(w, a, r);
    OneMore(actions, n);
    StaysErased(actions, n + 1, r);
  }

  lemma OneMore(actions: seq<Action>, n: nat)
    requires n < |actions|
    ensures Run(actions[..n + 1]) == Step(Run(actions[..n]), actions[n])
  {
    assert actions[..n + 1][..n] == actions[..n];
  }

  // ---- An undisturbed run ----

  /** Calls an executor still makes. */
  function Remaining(e: Executor): nat
    requires InRange(e)
  {
    var n := |e.list|;
    match e.at
    case Beginning => 6 * n + 2
    case Checking(i) => 3 * (n - i) + 3 * n + 1
    case Opening(i) => 3 * (n - i) + 3 * n
    case Blocking(i) => 3 * (n - i) + 3 * n - 1
    case Destroying(i) => 2 * (n - i) + n + 1
    case Erasing(i) => 2 * (n - i) + n
    case Finishing => n + 1
    case Cleaning(i) => n - i
    case Finished => 0
  }

  lemma AdvanceShortens(w: World, id: nat)
    requires id in w.executors && InRange(w.executors[id]) && !w.executors[id].at.Finished?
    requires id in Step(w, Advance(id, true)).executors
    ensures var after := Step(w, Advance(id, true)).executors[id];
            InRange(after) && Remaining(after) < Remaining(w.executors[id]) && after.list == w.executors[id].list
  {
  }

  /** The executor makes all its calls, none fails by itself and nobody else acts. */
  ghost function Undisturbed(w: World, id: nat): World
    requires id in w.executors && InRange(w.executors[id])
    decreases Remaining(w.executors[id])
  {
    var next := Step(w, Advance(id, true));
    if w.executors[id].at.Finished? || id !in next.executors then next
    else
      AdvanceShortens(w, id);
      Undisturbed(next, id)
  }

  /** What the calls up to here have established, with nobody interfering. */
  ghost predicate OnCourse(w: World, e: Executor) {
    && InRange(e) && w.vault.Some?
    && (forall k :: 0 <= k < |e.list| ==> !SlotOf(w, e.list[k]).Damaged?)
    && (forall k :: 0 <= k < ErasedCount(e) ==> SlotOf(w, e.list[k]).Erased?)
    && (if e.at.Beginning? then !w.vault.value.status.Burned?
        else if e.at.Cleaning? || e.at.Finished? then w.vault.value.status.Burned?
        else w.vault.value.status.Burning?)
    && (e.at.Opening? || e.at.Erasing? ==> !SlotOf(w, Subject(e)).Erased?)
    && (e.at.Blocking? ==> SlotOf(w, Subject(e)).Live?)
  }

  lemma ListedCallStaysOnCourse(w: World, id: nat)
    requires id in w.executors && OnCourse(w, w.executors[id]) && HasIndex(w.executors[id].at)
    ensures var next := Step(w, Advance(id, true));
            id in next.executors && next.executors[id].list == w.executors[id].list
              && OnCourse(next, next.executors[id])
  {
    var next := Step(w, Advance(id, true));
    var e := w.executors[id];
    forall k | 0 <= k < |e.list|
      ensures !SlotOf(next, e.list[k]).Damaged? && (SlotOf(w, e.list[k]).Erased? ==> SlotOf(next, e.list[k]).Erased?)
    {
      assert !SlotOf(w, e.list[k]).Damaged?;
    }
  }

  lemma OtherCallStaysOnCourse(w: World, id: nat)
    requires id in w.executors && OnCourse(w, w.executors[id]) && !HasIndex(w.executors[id].at)
    ensures var next := Step(w, Advance(id, true));
            id in next.executors && next.executors[id].list == w.executors[id].list
              && OnCourse(next, next.executors[id])
  {
  }

  lemma {:induction false} CourseCompletes(w: World, id: nat)
    requires id in w.executors && OnCourse(w, w.executors[id])
    ensures Completed(Undisturbed(w, id), id, w.executors[id].list)
    decreases Remaining(w.executors[id])
  {
    hide OnCourse, Step, Completed;
    if HasIndex(w.executors[id].at) {
      ListedCallStaysOnCourse(w, id);
    } else {
      OtherCallStaysOnCourse(w, id);
    }
    CourseInRange(w, w.executors[id]);
    var next := Step(w, Advance(id, true));
    if w.executors[id].at.Finished? {
      FinishedCompletes(w, id);
    } else {
      AdvanceShortens(w, id);
      CourseCompletes(next, id);
    }
  }

  lemma CourseInRange(w: World, e: Executor)
    requires OnCourse(w, e)
    ensures InRange(e)
  {
  }

  lemma FinishedCompletes(w: World, id: nat)
    requires id in w.executors && OnCourse(w, w.executors[id]) && w.executors[id].at.Finished?
    ensures Completed(Step(w, Advance(id, true)), id, w.executors[id].list)
  {
  }

  ghost predicate Completed(w: World, id: nat, list: seq<Relationship>) {
    && id in w.executors && w.executors[id].at.Finished? && StatusOf(w) == Some(Burned)
    && forall k :: 0 <= k < |list| ==> SlotOf(w, list[k]).Erased?
  }

  /** Nothing was erased and the executor gave up. */
  ghost predicate GaveUp(before: World, after: World, id: nat) {
    && id !in after.executors
    && StatusOf(after) == (if StatusOf(before) == Some(Active) then Some(Burning) else StatusOf(before))
    && forall x :: SlotOf(after, x).Erased? ==> SlotOf(before, x).Erased?
  }

  lemma {:induction false} DamageStopsCourse(w: World, id: nat, k: nat)
    requires id in w.executors && InRange(w.executors[id])
    requires k < |w.executors[id].list| && SlotOf(w, w.executors[id].list[k]).Damaged?
             && BlockedCount(w.executors[id]) <= k
    requires w.vault.Some? && !w.vault.value.status.Burned?
             && (w.executors[id].at.Beginning? || w.vault.value.status.Burning?)
    ensures GaveUp(w, Undisturbed(w, id), id)
    decreases Remaining(w.executors[id])
  {
    hide Step;
    var next := Step(w, Advance(id, true));
    TowardsDamage(w, id, k);
    if id in next.executors {
      AdvanceShortens(w, id);
      DamageStopsCourse(next, id, k);
    }
  }

  lemma TowardsDamage(w: World, id: nat, k: nat)
    requires id in w.executors && InRange(w.executors[id])
    requires k < |w.executors[id].list| && SlotOf(w, w.executors[id].list[k]).Damaged?
             && BlockedCount(w.executors[id]) <= k
    requires w.vault.Some? && !w.vault.value.status.Burned?
             && (w.executors[id].at.Beginning? || w.vault.value.status.Burning?)
    ensures var next := Step(w, Advance(id, true));
            next.vault.Some? && next.vault.value.status == Burning
    ensures var next := Step(w, Advance(id, true));
            && (forall x :: SlotOf(next, x).Erased? ==> SlotOf(w, x).Erased?)
            && (id in next.executors ==>
                  && next.executors[id].list == w.executors[id].list && SlotOf(next, w.executors[id].list[k]).Damaged?
                  && BlockedCount(next.executors[id]) <= k && !w.executors[id].at.Finished?)
  {
  }

  /**
   * An undisturbed burn, first run or re-run, completes exactly when the vault
   * holds something to burn and every listed relationship is readable, unused
   * or already erased; otherwise it erases nothing, and no re-run will.
   */
  lemma UndisturbedBurnCompletesIff(w: World, id: nat)
    requires id in w.executors && w.executors[id].at.Beginning?
    ensures var list := w.executors[id].list; var after := Undisturbed(w, id);
            && (Completed(after, id, list) <==>
                  w.vault.Some? && !w.vault.value.status.Burned?
                    && forall k :: 0 <= k < |list| ==> !SlotOf(w, list[k]).Damaged?)
            && (!Completed(after, id, list) ==> GaveUp(w, after, id))
  {
    var list := w.executors[id].list;
    if w.vault.None? || w.vault.value.status.Burned? {
      assert id !in Undisturbed(w, id).executors;
    } else if k :| 0 <= k < |list| && SlotOf(w, list[k]).Damaged? {
      hide Step, Undisturbed;
      DamageStopsCourse(w, id, k);
    } else {
      hide Step, Undisturbed;
      CourseCompletes(w, id);
    }
  }

  /**
   * A relationship that stopped agreeing with its anchor before it was blocked
   * is never passed: whatever the tabs do, no executor listing it erases any
   * relationship or burns the vault.
   */
  lemma {:induction false} DamagedIsNeverPassed(actions: seq<Action>, n: nat, r: Relationship)
    requires n <= |actions|
    requires SlotOf(Run(actions[..n]), r).Damaged? && !SlotOf(Run(actions[..n]), r).wasBlocked
    ensures SlotOf(Run(actions), r) == SlotOf(Run(actions[..n]), r)
    ensures forall id :: id in Run(actions).executors && r in Run(actions).executors[id].list ==>
                           ErasedCount(Run(actions).executors[id]) == 0 && Run(actions).executors[id].at != Finishing
                           && BlockedCount(Run(actions).executors[id]) < |Run(actions).executors[id].list|
  {
    hide Step;
    RunGood(actions);
    if n == |actions| {
      assert actions[..n] == actions;
    } else {
      var front := actions[..|actions| - 1];
      assert front[..n] == actions[..n];
      DamagedIsNeverPassed(front, n, r);
      RunGood(front);
      UnblockedDamageStays(Run(front), actions[|actions| - 1], r);
    }
    forall id | id in Run(actions).executors && r in Run(actions).executors[id].list
      ensures BlockedCount(Run(actions).executors[id]) < |Run(actions).executors[id].list|
    {
      var e := Run(actions).executors[id];
      assert Sound(Run(actions), e);
      var k :| 0 <= k < |e.list| && e.list[k] == r;
    }
  }

  lemma UnblockedDamageStays(w: World, a: Action, r: Relationship)
    requires Good(w) && SlotOf(w, r).Damaged? && !SlotOf(w, r).wasBlocked
    ensures SlotOf(Step(w, a), r) == SlotOf(w, r)
  {
    if a.Advance? && a.id in w.executors {
      assert Sound(w, w.executors[a.id]);
    }
  }

  // ---- Where the burn leaves relationships behind ----

  lemma {:induction false} UndisturbedIsARun(actions: seq<Action>, id: nat) returns (more: seq<Action>)
    requires id in Run(actions).executors && InRange(Run(actions).executors[id])
    ensures Run(actions + more) == Undisturbed(Run(actions), id)
    decreases Remaining(Run(actions).executors[id])
  {
    hide Run, Step;
    var w, a := Run(actions), Advance(id, true);
    RunAppend(actions, a);
    if w.executors[id].at.Finished? || id !in Step(w, a).executors {
      more := [a];
    } else {
      AdvanceShortens(w, id);
      var rest := UndisturbedIsARun(actions + [a], id);
      more := [a] + rest;
      assert actions + more == (actions + [a]) + rest;
    }
  }

  lemma {:induction false} UndisturbedKeepsUnlisted(w: World, id: nat, r: Relationship)
    requires id in w.executors && InRange(w.executors[id]) && r !in w.executors[id].list
    ensures SlotOf(Undisturbed(w, id), r) == SlotOf(w, r)
    decreases Remaining(w.executors[id])
  {
    var next := Step(w, Advance(id, true));
    if !w.executors[id].at.Finished? && id in next.executors {
      AdvanceShortens(w, id);
      UndisturbedKeepsUnlisted(next, id, r);
    }
  }

  /**
   * The list is the caller's: for any list that misses a relationship of the
   * vault's persona there is a run that burns the vault and leaves that
   * relationship's state in place.
   */
  lemma UncoveredRelationshipSurvives(persona: set<Relationship>, list: seq<Relationship>, r: Relationship)
    returns (actions: seq<Action>)
    requires r in persona && r !in list
    ensures actions != [] && actions[0] == Initialize(0, persona)
    ensures forall id :: id in Run(actions).executors ==> Run(actions).executors[id].list == list
    ensures StatusOf(Run(actions)) == Some(Burned) && SlotOf(Run(actions), r) == Live(false)
  {
    var first, save, start := Initialize(0, persona), RuntimeSave(r, false), Start(0, list);
    RunAppend([], first);
    RunAppend([] + [first], save);
    RunAppend([] + [first] + [save], start);
    var begun := [] + [first] + [save] + [start];
    var w := Run(begun);
    assert w == World(Some(Vault(Active, 0, persona)), map[r := Live(false)],
                      map[0 := Executor(list, Beginning, 0, {})], {0}, {});
    UndisturbedBurnCompletesIff(w, 0);
    UndisturbedKeepsUnlisted(w, 0, r);
    UndisturbedLists(w, 0);
    var more := UndisturbedIsARun(begun, 0);
    actions := begun + more;
  }

  lemma {:induction false} UndisturbedLists(w: World, id: nat)
    requires id in w.executors && InRange(w.executors[id])
    ensures forall x :: x in Undisturbed(w, id).executors ==>
              x in w.executors && Undisturbed(w, id).executors[x].list == w.executors[x].list
    decreases Remaining(w.executors[id])
  {
    var next := Step(w, Advance(id, true));
    if !w.executors[id].at.Finished? && id in next.executors {
      AdvanceShortens(w, id);
      UndisturbedLists(next, id);
    }
  }

  /**
   * An executor left over from an earlier burn, whose own vault is burned by
   * then, burns a later vault whose own burn has only begun
   * (BurnsItsOwnVaultExactly says when that happens).
   */
  lemma LateExecutorBurnsAnotherVault(r: Relationship) returns (actions: seq<Action>)
    ensures var w := Run(actions);
            && w.vault == Some(Vault(Burned, 1, {})) && SlotOf(w, r) == Live(false)
            && 0 in w.executors && w.executors[0] == Executor([], Finished, 0, {})
            && 2 in w.executors && w.executors[2] == Executor([r], Checking(0), 1, {r})
  {
    hide Run;
    actions := StragglerRun();
    RunAppend(actions, Initialize(1, {r}));
    actions := actions + [Initialize(1, {r})];
    RunAppend(actions, RuntimeSave(r, false));
    actions := actions + [RuntimeSave(r, false)];
    assert Run(actions).vault == Some(Vault(Active, 1, {r})) && Run(actions).slots == map[r := Live(false)];
    RunAppend(actions, Start(2, [r]));
    actions := actions + [Start(2, [r])];
    var late, done := Executor([], Finishing, 0, {}), Executor([], Finished, 0, {});
    assert Run(actions) == World(Some(Vault(Active, 1, {r})), map[r := Live(false)],
                                 map[0 := late, 1 := done, 2 := Executor([r], Beginning, 0, {})], {0, 1}, {0});
    RunAppend(actions, Advance(2, true));
    actions := actions + [Advance(2, true)];
    RunAppend(actions, Advance(0, true));
    actions := actions + [Advance(0, true)];
  }

  /** Two executors burn an empty vault; the second overtakes the first before its last call. */
  lemma StragglerRun() returns (actions: seq<Action>)
    ensures Run(actions) == World(Some(Vault(Burned, 0, {})), map[],
                                  map[0 := Executor([], Finishing, 0, {}),
                                      1 := Executor([], Finished, 0, {})], {0}, {0})
  {
    hide Run;
    EmptyRun();
    RunAppend([], Initialize(0, {}));
    actions := [] + [Initialize(0, {})];
    RunAppend(actions, Start(0, []));
    actions := actions + [Start(0, [])];
    RunAppend(actions, Advance(0, true));
    actions := actions + [Advance(0, true)];
    assert Run(actions) == World(Some(Vault(Burning, 0, {})), map[], map[0 := Executor([], Finishing, 0, {})], {0}, {});
    RunAppend(actions, Start(1, []));
    actions := actions + [Start(1, [])];
    RunAppend(actions, Advance(1, true));
    actions := actions + [Advance(1, true)];
    RunAppend(actions, Advance(1, true));
    actions := actions + [Advance(1, true)];
  }

  lemma EmptyRun()
    ensures Run([]) == World(None, map[], map[], {}, {})
  {
  }
}
