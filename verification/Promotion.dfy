/** What every mutation, movement phase and combat round of a playtest keeps: the sector index is exact,
    and the promotion record tells forked, created and deleted ships apart. */
module Promotion {
  import opened Prelude
  import opened Ships
  import opened World
  import opened Fork
  import opened Playtest

  /** The promotion record is right: a forked ship is present unless it is recorded as deleted, and every
      other ship is recorded as created. */
  ghost predicate RecordExact(p: Playtest, forked: set<Id>) {
    && (forall id: Id | id in forked :: id in p.world.ships <==> id !in p.deleted)
    && (forall id: Id | id in p.world.ships :: id in forked || id in p.created)
    && (forall id: Id | id in p.created :: id !in forked)
    && (forall id: Id | id in p.deleted :: id in forked)
  }

  ghost predicate Sound(p: Playtest, forked: set<Id>) {
    IndexExact(p.world) && KeysAreIds(p.world) && RecordExact(p, forked)
  }

  lemma ApplyKeepsSound(p: Playtest, forked: set<Id>, m: Mutation, order: seq<Id>, newId: Id)
    requires Sound(p, forked) && Possible(p, forked, Mutate(m, order, newId))
    ensures Sound(Apply(p, m, order, newId).0, forked)
  {
    StepKeepsIndex(p.world, m, order, newId);
    hide IndexExact, KeysAreIds, Enumerates, ChangeShip, ChangePlayer, NewNpcShip, WithoutLocation, SectorWithMission, SectorWithLocation;
  }

  // ---------- movement ----------

  /** The same ships, in the same sectors. */
  ghost predicate SamePlace(before: map<Id, Ship>, after: map<Id, Ship>) {
    before.Keys == after.Keys && forall id | id in after :: after[id].id == before[id].id && after[id].sectorId == before[id].sectorId
  }

  lemma SamePlaceKeepsIndex(w: World, ships: map<Id, Ship>)
    requires IndexExact(w) && KeysAreIds(w) && SamePlace(w.ships, ships)
    ensures var moved := w.(ships := ships); IndexExact(moved) && KeysAreIds(moved)
  {
  }

  lemma SamePlaceKeepsSound(p: Playtest, forked: set<Id>, ships: map<Id, Ship>)
    requires Sound(p, forked) && SamePlace(p.world.ships, ships)
    ensures Sound(p.(world := p.world.(ships := ships)), forked)
  {
    SamePlaceKeepsIndex(p.world, ships);
  }

  // ---------- combat ----------

  /** The targets of the actions are in the sector, as long as they exist. */
  ghost predicate Aimed(w: World, s: Id, actions: seq<Action>) {
    forall i | 0 <= i < |actions| :: actions[i].target in w.ships ==> w.ships[actions[i].target].sectorId == s
  }

  lemma {:induction false} ActionsAimed(w: World, s: Id, order: seq<Id>)
    requires KeysAreIds(w)
    ensures Aimed(w, s, Actions(w, s, order))
  {
    if order != [] {
      ActionsAimed(w, s, order[..|order| - 1]);
    }
  }

  lemma {:induction false} DisengageSamePlace(ships: map<Id, Ship>, ids: seq<Id>)
    ensures SamePlace(ships, DisengageAll(ships, ids))
  {
    if ids != [] {
      DisengageSamePlace(ships, ids[..|ids| - 1]);
    }
  }

  lemma StrikeKeepsSound(p: Playtest, forked: set<Id>, s: Id, a: Action)
    requires Sound(p, forked) && Aimed(p.world, s, [a])
    ensures var q := Strike(p, s, a);
            && Sound(q, forked)
            && q.world.ships.Keys <= p.world.ships.Keys
            && forall id | id in q.world.ships :: q.world.ships[id].sectorId == p.world.ships[id].sectorId
  {
    assert a == [a][0];
    hide Hit;
  }

  lemma {:induction false} StrikesKeepSound(p: Playtest, forked: set<Id>, s: Id, actions: seq<Action>)
    requires Sound(p, forked) && Aimed(p.world, s, actions)
    ensures var q := Strikes(p, s, actions);
            && Sound(q, forked)
            && q.world.ships.Keys <= p.world.ships.Keys
            && forall id | id in q.world.ships :: q.world.ships[id].sectorId == p.world.ships[id].sectorId
  {
    hide Sound, Strike;
    if actions != [] {
      var (front, last) := (actions[..|actions| - 1], actions[|actions| - 1]);
      StrikesKeepSound(p, forked, s, front);
      assert last == actions[|actions| - 1];
      StrikeKeepsSound(Strikes(p, s, front), forked, s, last);
    }
  }

  lemma CombatKeepsSound(p: Playtest, forked: set<Id>, s: Id, order: seq<Id>)
    requires Sound(p, forked)
    ensures Sound(CombatRound(p, s, order), forked)
  {
    var ships := DisengageAll(p.world.ships, Leavers(p.world, s, order));
    DisengageSamePlace(p.world.ships, Leavers(p.world, s, order));
    SamePlaceKeepsSound(p, forked, ships);
    ActionsAimed(p.world, s, order);
    StrikesKeepSound(p.(world := p.world.(ships := ships)), forked, s, Actions(p.world, s, order));
  }

  lemma TickKeepsSound(root: real -> real, p: Playtest, forked: set<Id>, t: Tick)
    requires Sound(p, forked) && t.deltaTime >= 0.0
    ensures Sound(SectorTick(root, p, t), forked)
  {
    if t.sector in p.world.sectors {
      hide Sound, CombatRound;
      var moved := MovementPhase(root, p.world, t.sector, t.deltaTime);
      SamePlaceKeepsSound(p, forked, moved.ships);
      CombatKeepsSound(p.(world := moved), forked, t.sector, t.order);
      var fought := if t.number % COMBAT_INTERVAL == 0 then CombatRound(p.(world := moved), t.sector, t.order) else p.(world := moved);
      ExpiryKeepsSound(fought, forked, t.sector, t.now);
    }
  }

  lemma ExpiryKeepsSound(p: Playtest, forked: set<Id>, s: Id, now: int)
    requires Sound(p, forked)
    ensures Sound(p.(world := ExpiryPhase(p.world, s, now)), forked)
  {
    hide Expire;
  }

  lemma {:induction false} StrikesKeepMissions(p: Playtest, s: Id, actions: seq<Action>)
    ensures var (before, after) := (p.world.sectors, Strikes(p, s, actions).world.sectors);
            after.Keys == before.Keys && forall k | k in after :: after[k].missions == before[k].missions
  {
    hide Hit, Disengage;
    if actions != [] {
      StrikesKeepMissions(p, s, actions[..|actions| - 1]);
    }
  }

  /** A mission that was available until a time that has passed is expired; every other is as before. */
  ghost predicate Expires(m: Mission, after: Mission, now: int) {
    if m.status == Available && m.expiresAt.Some? && m.expiresAt.value < now then after == Mission(m.title, Expired, m.expiresAt)
    else after == m
  }

  /** A tick changes no mission but the available ones of its sector that are overdue, and these expire. */
  lemma TickExpires(root: real -> real, p: Playtest, t: Tick)
    requires t.deltaTime >= 0.0
    ensures var (before, after) := (p.world.sectors, SectorTick(root, p, t).world.sectors);
            && after.Keys == before.Keys
            && (forall k | k in after && k != t.sector :: after[k].missions == before[k].missions)
            && (t.sector in after ==>
                  && after[t.sector].missions.Keys == before[t.sector].missions.Keys
                  && forall m | m in after[t.sector].missions ::
                       Expires(before[t.sector].missions[m], after[t.sector].missions[m], t.now))
  {
    if t.sector in p.world.sectors {
      hide Expire, Strikes, Travel;
      var moved := MovementPhase(root, p.world, t.sector, t.deltaTime);
      var left := moved.(ships := DisengageAll(moved.ships, Leavers(moved, t.sector, t.order)));
      StrikesKeepMissions(p.(world := left), t.sector, Actions(moved, t.sector, t.order));
    }
  }

  // ---------- whole lives ----------

  /** Right after a fork nothing has been created or deleted. */
  ghost function Start(live: World, config: ForkConfig, owner: Id): Playtest {
    Playtest(Forked(live, config, owner), {}, {})
  }

  /** Whatever was forked and whatever happens since, at every point the sector index is exact and the
      promotion record is right. */
  lemma {:induction false} LifeKeepsSound(root: real -> real, live: World, config: ForkConfig, owner: Id,
                                          es: seq<Event>, ps: seq<Playtest>, n: nat)
    requires KeysAreIds(live) && ps != [] && ps[0] == Start(live, config, owner)
    requires var forked := ps[0].world.ships.Keys; Life(root, forked, es, ps)
    requires n <= |es|
    ensures Sound(ps[n], ps[0].world.ships.Keys)
    decreases n
  {
    var forked := ps[0].world.ships.Keys;
    if n == 0 {
      ForkIndexExact(live, config, owner);
    } else {
      LifeKeepsSound(root, live, config, owner, es, ps, n - 1);
      assert Possible(ps[n - 1], forked, es[n - 1]) && ps[n - 1 + 1] == Next(root, ps[n - 1], es[n - 1]);
      hide Sound, Apply, SectorTick, Forked;
      match es[n - 1]
      case Mutate(m, order, newId) => ApplyKeepsSound(ps[n - 1], forked, m, order, newId);
      case Simulate(t) => TickKeepsSound(root, ps[n - 1], forked, t);
    }
  }
}
