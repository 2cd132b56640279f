/**
 * The burn as it runs (client/messaging-service.js): every call on the stores
 * is recorded as an action of module Burn, other tabs act in between, and what
 * a crash leaves is what the actions so far leave.
 */
module BurnRuntime {
  import opened Wrappers
  import opened Burn

  /** What all tabs share: the vault slot and the relationship slots. */
  class BurnHost {
    var world: World
    ghost var actions: seq<Action>
    /** How often storage refused, and how often another tab acted. */
    ghost var refusals: nat
    ghost var disturbances: nat

    ghost predicate Consistent()
      reads this
    {
      Run(actions) == world
    }

    constructor ()
      ensures Consistent() && actions == []
    {
      world := World(None, map[], map[], {}, {});
      actions := [];
      refusals, disturbances := 0, 0;
    }

    /** Since then storage refused nothing and no other tab acted. */
    twostate predicate Quiet()
      reads this
    {
      refusals == old(refusals) && disturbances == old(disturbances)
    }

    /** Storage answers. */
    method Ask() returns (agrees: bool)
      modifies `refusals
      ensures refusals == old(refusals) + if agrees then 0 else 1
    {
      agrees := *;
      if !agrees {
        refusals := refusals + 1;
      }
    }

    /** Other tabs act: vaults, runtimes and other executors, and storage that decays. */
    method OthersAct(id: nat)
      requires Consistent()
      modifies this
      ensures Consistent() && old(actions) <= actions
      ensures id in world.executors <==> id in old(world).executors
      ensures id in world.executors ==> world.executors[id] == old(world).executors[id]
      ensures refusals == old(refusals) && old(disturbances) <= disturbances && (Quiet() ==> world == old(world))
    {
      hide Step;
      var n: nat := *;
      while n > 0
        invariant Consistent() && old(actions) <= actions
        invariant id in world.executors <==> id in old(world).executors
        invariant id in world.executors ==> world.executors[id] == old(world).executors[id]
        invariant refusals == old(refusals) && old(disturbances) <= disturbances && (Quiet() ==> world == old(world))
      {
        var a: Action := *;
        if Foreign(a, id) {
          RunAppend(actions, a);
          ForeignKeeps(world, a, id);
          world := Step(world, a);
          actions := actions + [a];
          disturbances := disturbances + 1;
        }
        n := n - 1;
      }
    }

    predicate Foreign(a: Action, id: nat) {
      match a
      case Start(other, _) => other != id
      case Advance(other, _) => other != id
      case Crash(other) => other != id
      case _ => true
    }

    static lemma ForeignKeeps(w: World, a: Action, id: nat)
      requires match a
               case Start(other, _) => other != id
               case Advance(other, _) => other != id
               case Crash(other) => other != id
               case _ => true
      ensures id in Step(w, a).executors <==> id in w.executors
      ensures id in w.executors ==> Step(w, a).executors[id] == w.executors[id]
    {
    }
  }

  /** One call of executeAnchoredBrowserLocalBurnV2, known to the other tabs as executor `id`. */
  class LocalBurn {
    const host: BurnHost
    const id: nat
    const list: seq<Relationship>

    constructor (host: BurnHost, id: nat, list: seq<Relationship>)
      requires host.Consistent() && id !in host.world.executors
      modifies host
      ensures this.host == host && this.id == id && this.list == list && old(host.actions) <= host.actions
      ensures host.Consistent() && At(Beginning)
    {
      RunAppend(host.actions, Start(id, list));
      this.host := host;
      this.id := id;
      this.list := list;
      new;
      host.world := host.world.(executors := host.world.executors[id := Executor(list, Beginning, 0, {})]);
      host.actions := host.actions + [Start(id, list)];
    }

    predicate At(p: Progress)
      reads host
    {
      id in host.world.executors && host.world.executors[id].at == p && host.world.executors[id].list == list
    }

    /** The call threw: the burn ends here, to be run again some time. */
    method Fail()
      requires host.Consistent() && id in host.world.executors
      modifies host
      ensures host.Consistent() && old(host.actions) <= host.actions && id !in host.world.executors
      ensures host.refusals == old(host.refusals) && host.disturbances == old(host.disturbances)
      ensures host.world == old(host.world).(executors := old(host.world).executors - {id})
    {
      RunAppend(host.actions, Advance(id, false));
      host.world := host.world.(executors := host.world.executors - {id});
      host.actions := host.actions + [Advance(id, false)];
    }

    /** A call took effect on the vault, on the slot of the relationship it was about, and on where the burn stands. */
    method Succeed(vault: Option<Vault>, slot: Slot, p: Progress)
      requires host.Consistent() && id in host.world.executors
      requires var w := host.world; var e := w.executors[id]; var next := Next(w.vault, SlotOf(w, Subject(e)), e);
               next.Some? && next.value.0 == vault && next.value.1 == slot && next.value.2.at == p
      requires host.world.executors[id].list == list
      modifies host
      ensures host.Consistent() && old(host.actions) <= host.actions && At(p)
      ensures SlotOf(host.world, Subject(old(host.world).executors[id])) == slot
      ensures host.refusals == old(host.refusals) && host.disturbances == old(host.disturbances)
      ensures host.world == Step(old(host.world), Advance(id, true))
    {
      hide Subject;
      RunAppend(host.actions, Advance(id, true));
      NextKeepsList(host.world, host.world.executors[id]);
      host.world := Step(host.world, Advance(id, true));
      host.actions := host.actions + [Advance(id, true)];
    }

    static lemma NextKeepsList(w: World, e: Executor)
      ensures var next := Next(w.vault, SlotOf(w, Subject(e)), e); next.Some? ==> next.value.2.list == e.list
    {
    }

    method BeginBurn() returns (ok: bool)
      requires host.Consistent() && At(Beginning)
      modifies host
      ensures host.Consistent() && old(host.actions) <= host.actions
      ensures ok ==> At(if list == [] then Finishing else Checking(0))
      ensures old(host.refusals) <= host.refusals && old(host.disturbances) <= host.disturbances
      ensures (!ok ==> id !in host.world.executors) && (host.Quiet() ==> Course(old(host.world), host.world, id))
    {
      hide Course;
      host.OthersAct(id);
      ghost var w := host.world;
      CourseStarts(w, id);
      var vault := host.world.vault;
      ok := host.Ask();
      if !ok || vault.None? || vault.value.status.Burned? {
        if ok {
          CourseFails(w, w, id);
        }
        Fail();
        return false;
      }
      CourseGoesOn(w, w, id);
      Succeed(Some(vault.value.(status := Burning)), SlotOf(host.world, Subject(host.world.executors[id])),
              if list == [] then Finishing else Checking(0));
      return true;
    }

    /**
     * anchorRelationshipsForBurn on one relationship: skip an erased one, else
     * open it and commit the terminal policy.
     */
    method AnchorRelationshipForBurn(index: nat) returns (ok: bool)
      requires host.Consistent() && index < |list| && At(Checking(index))
      modifies host
      ensures host.Consistent() && old(host.actions) <= host.actions
      ensures ok ==> At(AfterBlocking(list, index)) && Sealed(SlotOf(host.world, list[index]))
      ensures old(host.refusals) <= host.refusals && old(host.disturbances) <= host.disturbances
      ensures (!ok ==> id !in host.world.executors) && (host.Quiet() ==> Course(old(host.world), host.world, id))
    {
      hide Course;
      var r := list[index];
      host.OthersAct(id);
      ghost var w := host.world;
      CourseStarts(w, id);
      ok := host.Ask();
      if !ok {
        Fail();
        return;
      }
      CourseGoesOn(w, w, id);
      if SlotOf(host.world, r).Erased? {
        Succeed(host.world.vault, Erased, AfterBlocking(list, index));
        return;
      }
      Succeed(host.world.vault, SlotOf(host.world, r), Opening(index));
      ghost var first := host.world;
      ok := OpenForBurn(index);
      ghost var second := host.world;
      if host.Quiet() {
        CourseJoins(w, first, second, id);
      }
      if !ok {
        return;
      }
      ok := BlockForBurn(index);
      if host.Quiet() {
        CourseJoins(w, second, host.world, id);
      }
    }

    /** Opens the runtime of a relationship, which a damaged or erased one does not. */
    method OpenForBurn(index: nat) returns (ok: bool)
      requires host.Consistent() && index < |list| && At(Opening(index))
      modifies host
      ensures host.Consistent() && old(host.actions) <= host.actions
      ensures ok ==> At(Blocking(index))
      ensures old(host.refusals) <= host.refusals && old(host.disturbances) <= host.disturbances
      ensures (!ok ==> id !in host.world.executors) && (host.Quiet() ==> Course(old(host.world), host.world, id))
    {
      hide Course;
      host.OthersAct(id);
      ghost var w := host.world;
      CourseStarts(w, id);
      ok := host.Ask();
      var slot := SlotOf(host.world, list[index]);
      if !ok || slot.Damaged? || slot.Erased? {
        if ok {
          CourseFails(w, w, id);
        }
        Fail();
        return false;
      }
      CourseGoesOn(w, w, id);
      Succeed(host.world.vault, if slot.Untouched? then Live(false) else slot, Blocking(index));
    }

    /** Commits the terminal policy of an opened relationship. */
    method BlockForBurn(index: nat) returns (ok: bool)
      requires host.Consistent() && index < |list| && At(Blocking(index))
      modifies host
      ensures host.Consistent() && old(host.actions) <= host.actions
      ensures ok ==> At(AfterBlocking(list, index)) && SlotOf(host.world, list[index]) == Live(true)
      ensures old(host.refusals) <= host.refusals && old(host.disturbances) <= host.disturbances
      ensures (!ok ==> id !in host.world.executors) && (host.Quiet() ==> Course(old(host.world), host.world, id))
    {
      hide Course;
      host.OthersAct(id);
      ghost var w := host.world;
      CourseStarts(w, id);
      ok := host.Ask();
      if !ok || !SlotOf(host.world, list[index]).Live? {
        if ok {
          CourseFails(w, w, id);
        }
        Fail();
        return false;
      }
      CourseGoesOn(w, w, id);
      Succeed(host.world.vault, Live(true), AfterBlocking(list, index));
    }

    /** destroyRollbackAnchors on one relationship. */
    method DestroyRollbackAnchor(index: nat) returns (ok: bool)
      requires host.Consistent() && index < |list| && At(Destroying(index))
      modifies host
      ensures host.Consistent() && old(host.actions) <= host.actions
      ensures ok ==> At(AfterDestroying(list, index)) && SlotOf(host.world, list[index]).Erased?
      ensures old(host.refusals) <= host.refusals && old(host.disturbances) <= host.disturbances
      ensures (!ok ==> id !in host.world.executors) && (host.Quiet() ==> Course(old(host.world), host.world, id))
    {
      hide Course;
      var r := list[index];
      host.OthersAct(id);
      ghost var w := host.world;
      CourseStarts(w, id);
      ok := host.Ask();
      if !ok {
        Fail();
        return;
      }
      CourseGoesOn(w, host.world, id);
      if SlotOf(host.world, r).Erased? {
        Succeed(host.world.vault, Erased, AfterDestroying(list, index));
        return;
      }
      Succeed(host.world.vault, SlotOf(host.world, r), Erasing(index));
      host.OthersAct(id);
      ok := host.Ask();
      var slot := SlotOf(host.world, r);
      // A state that cannot be read is erased by expecting no anchor at all, which an anchor still in place refuses.
      var expectsNone := slot.Damaged? || slot.Erased?;
      var anchored := slot.Erased? || (slot.Damaged? && slot.anchored);
      if !ok || (expectsNone && anchored) {
        if host.Quiet() {
          CourseFails(w, host.world, id);
        }
        Fail();
        return false;
      }
      if host.Quiet() {
        CourseGoesOn(w, host.world, id);
      }
      Succeed(host.world.vault, Erased, AfterDestroying(list, index));
    }

    method FinishBurn() returns (ok: bool)
      requires host.Consistent() && At(Finishing)
      modifies host
      ensures host.Consistent() && old(host.actions) <= host.actions
      ensures ok ==> At(AfterFinishing(list)) && host.world.vault.Some? && host.world.vault.value.status.Burned?
      ensures old(host.refusals) <= host.refusals && old(host.disturbances) <= host.disturbances
      ensures (!ok ==> id !in host.world.executors) && (host.Quiet() ==> Course(old(host.world), host.world, id))
    {
      hide Course;
      host.OthersAct(id);
      ghost var w := host.world;
      CourseStarts(w, id);
      ok := host.Ask();
      var vault := host.world.vault;
      if !ok || vault.None? || vault.value.status.Active? {
        if ok {
          CourseFails(w, w, id);
        }
        Fail();
        return false;
      }
      CourseGoesOn(w, w, id);
      Succeed(if vault.value.status.Burned? then vault else Some(Vault(Burned, vault.value.scopeID, {})),
              SlotOf(host.world, Subject(host.world.executors[id])), AfterFinishing(list));
    }

    /** Relay cleanup is best effort: its failures are collected, not thrown. */
    method TeardownRelationshipRoutes(index: nat)
      requires host.Consistent() && index < |list| && At(Cleaning(index))
      modifies host
      ensures host.Consistent() && old(host.actions) <= host.actions
      ensures At(if index + 1 < |list| then Cleaning(index + 1) else Finished)
      ensures old(host.refusals) <= host.refusals && old(host.disturbances) <= host.disturbances
      ensures host.Quiet() ==> Course(old(host.world), host.world, id) && host.world.vault == old(host.world).vault
    {
      hide Course;
      host.OthersAct(id);
      CourseStarts(host.world, id);
      CourseGoesOn(host.world, host.world, id);
      Succeed(host.world.vault, SlotOf(host.world, Subject(host.world.executors[id])),
              if index + 1 < |list| then Cleaning(index + 1) else Finished);
    }

    /**
     * The whole burn. It reports success only when every listed relationship is
     * erased and the vault it began on is burned; stopping anywhere leaves a
     * world of module Burn. When storage refuses nothing and no other tab acts,
     * it succeeds exactly when there is a vault to burn and no listed
     * relationship is damaged.
     */
    method Execute() returns (burned: bool)
      requires host.Consistent() && At(Beginning)
      modifies host
      ensures host.Consistent() && old(host.actions) <= host.actions
      ensures burned ==>
                && At(Finished) && (forall r :: r in list ==> SlotOf(host.world, r).Erased?)
                && host.world.executors[id].scopeID in host.world.burnedIDs
      ensures host.Quiet() ==>
                (burned <==> && old(host.world).vault.Some? && !old(host.world).vault.value.status.Burned?
                             && forall r :: r in list ==> !SlotOf(old(host.world), r).Damaged?)
    {
      hide Run, Step, Next, SlotOf, Course;
      ghost var start := host.world;
      CourseStarts(start, id);
      burned := BeginBurn();
      if !burned {
        if host.Quiet() {
          CourseDecides(start, host.world, id);
        }
        return;
      }
      for index := 0 to |list|
        invariant host.Consistent() && old(host.actions) <= host.actions
        invariant At(if index < |list| then Checking(index) else if list == [] then Finishing else Destroying(0))
        invariant old(host.refusals) <= host.refusals && old(host.disturbances) <= host.disturbances
        invariant host.Quiet() ==> Course(start, host.world, id)
      {
        ghost var w := host.world;
        burned := AnchorRelationshipForBurn(index);
        if host.Quiet() {
          CourseJoins(start, w, host.world, id);
        }
        if !burned {
          if host.Quiet() {
            CourseDecides(start, host.world, id);
          }
          return;
        }
      }
      for index := 0 to |list|
        invariant host.Consistent() && old(host.actions) <= host.actions
        invariant At(if index < |list| then Destroying(index) else Finishing)
        invariant old(host.refusals) <= host.refusals && old(host.disturbances) <= host.disturbances
        invariant host.Quiet() ==> Course(start, host.world, id)
      {
        ghost var w := host.world;
        burned := DestroyRollbackAnchor(index);
        if host.Quiet() {
          CourseJoins(start, w, host.world, id);
        }
        if !burned {
          if host.Quiet() {
            CourseDecides(start, host.world, id);
          }
          return;
        }
      }
      ghost var w := host.world;
      burned := FinishBurn();
      if host.Quiet() {
        CourseJoins(start, w, host.world, id);
      }
      if !burned {
        if host.Quiet() {
          CourseDecides(start, host.world, id);
        }
        return;
      }
      for index := 0 to |list|
        invariant host.Consistent() && old(host.actions) <= host.actions
        invariant At(if index < |list| then Cleaning(index) else Finished)
        invariant old(host.refusals) <= host.refusals && old(host.disturbances) <= host.disturbances
        invariant host.Quiet() ==> Course(start, host.world, id)
        invariant host.Quiet() ==> host.world.vault.Some? && host.world.vault.value.status.Burned?
      {
        ghost var before := host.world;
        TeardownRelationshipRoutes(index);
        if host.Quiet() {
          CourseJoins(start, before, host.world, id);
        }
      }
      CleanupComesLast(host.actions, id);
      if host.Quiet() {
        RunGood(host.actions);
        CourseDecides(start, host.world, id);
      }
    }
  }

  // ---- The one course of an undisturbed burn ----

  /** From one world to the other the executor did what it does alone. */
  ghost predicate Course(start: World, now: World, id: nat) {
    id in start.executors && InRange(start.executors[id]) ==>
      if id in now.executors then InRange(now.executors[id]) && Undisturbed(now, id) == Undisturbed(start, id)
      else now == Undisturbed(start, id)
  }

  lemma CourseStarts(w: World, id: nat)
    requires id in w.executors
    ensures Course(w, w, id)
  {
  }

  lemma CourseGoesOn(start: World, now: World, id: nat)
    requires Course(start, now, id) && id in now.executors && !now.executors[id].at.Finished?
    ensures Course(start, Step(now, Advance(id, true)), id)
  {
    hide Step;
    if id in start.executors && InRange(start.executors[id]) && id in Step(now, Advance(id, true)).executors {
      AdvanceShortens(now, id);
    }
  }

  lemma CourseFails(start: World, now: World, id: nat)
    requires Course(start, now, id) && id in now.executors && !now.executors[id].at.Finished?
    requires Next(now.vault, SlotOf(now, Subject(now.executors[id])), now.executors[id]).None?
    ensures Course(start, now.(executors := now.executors - {id}), id)
  {
    hide Next;
    CourseGoesOn(start, now, id);
  }

  lemma CourseJoins(start: World, middle: World, now: World, id: nat)
    requires Course(start, middle, id) && Course(middle, now, id) && id in middle.executors
    ensures Course(start, now, id)
  {
    hide Undisturbed;
  }

  /** Where the course ends it has failed or finished, which the world it began in decides. */
  lemma CourseDecides(start: World, now: World, id: nat)
    requires Course(start, now, id) && id in start.executors && start.executors[id].at.Beginning?
    requires id in now.executors ==>
               now.executors[id].at.Finished? && (forall r :: r in start.executors[id].list ==> SlotOf(now, r).Erased?)
               && now.vault.Some? && now.vault.value.status.Burned? && now.vault.value.scopeID in now.burnedIDs
    ensures id in now.executors <==>
            && start.vault.Some? && !start.vault.value.status.Burned?
            && forall r :: r in start.executors[id].list ==> !SlotOf(start, r).Damaged?
  {
    hide Next;
    UndisturbedBurnCompletesIff(start, id);
    var list := start.executors[id].list;
    if id in now.executors {
      FinishedStays(now, id);
    }
  }

  lemma FinishedStays(w: World, id: nat)
    requires id in w.executors && w.executors[id].at.Finished?
    requires w.vault.Some? && w.vault.value.status.Burned? ==> w.vault.value.scopeID in w.burnedIDs
    ensures Step(w, Advance(id, true)) == w
  {
    assert w.executors[id := w.executors[id]] == w.executors;
    if w.vault.Some? && w.vault.value.status.Burned? {
      assert w.burnedIDs + {w.vault.value.scopeID} == w.burnedIDs;
    }
  }
}
