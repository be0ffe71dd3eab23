/** Combat in a playtest ends (simulation.rs): every round in which a ship fights uses up some of a finite
    amount, so after that many rounds nobody in the sector fights any more. */
module Combat {
  import opened Prelude
  import opened Ships
  import opened Movement
  import opened World
  import opened Playtest
  import opened Promotion

  const WEAKEST_ATTACK: real := 5.0

  lemma AttackAtLeast(c: ShipClass)
    ensures Stats(c).attack >= WEAKEST_ATTACK
  {
  }

  function Strength(ship: Ship): real { ship.shield + ship.hull }

  /** A hit takes away exactly its damage, whatever the shields were, and leaves no shields below zero
      when it got through them. */
  lemma HitTakesDamage(ship: Ship, damage: real)
    ensures var hit := Hit(ship, damage);
            && Strength(hit) == Strength(ship) - damage
            && (hit.shield == 0.0 || (hit.shield > 0.0 && hit.hull == ship.hull))
  {
  }

  /** How many of the weakest hits a ship can take, at least one. */
  function Lives(ship: Ship): (n: nat)
    ensures n >= 1
  {
    var n := Ceiling(Strength(ship) / WEAKEST_ATTACK);
    if n < 1 then 1 else n
  }

  /** One more for being in combat: it can leave once. */
  function Points(ship: Ship): (n: nat)
    ensures n >= 1
  {
    Lives(ship) + if ship.status.InCombat? then 1 else 0
  }

  /** The points of those on a list that still exist. */
  function Total(ships: map<Id, Ship>, roster: seq<Id>): nat {
    if roster == [] then 0
    else
      Total(ships, roster[..|roster| - 1])
      + if roster[|roster| - 1] in ships then Points(ships[roster[|roster| - 1]]) else 0
  }

  /** A surviving target has lost a life. */
  lemma HitCostsALife(ship: Ship, damage: real)
    requires damage >= WEAKEST_ATTACK && Hit(ship, damage).hull > 0.0
    ensures Lives(Hit(ship, damage)) < Lives(ship)
    ensures Hit(ship, damage).status == ship.status
  {
    HitTakesDamage(ship, damage);
    var (before, after) := (Strength(ship) / WEAKEST_ATTACK, Strength(Hit(ship, damage)) / WEAKEST_ATTACK);
    assert 0.0 < after <= before - 1.0;
    assert Ceiling(after) >= 1 && Ceiling(after) <= Ceiling(before) - 1;
  }

  // ---------- nothing grows ----------

  /** Ships only disappear, stay in their sector, lose points and never start to fight. */
  ghost predicate Weaker(before: map<Id, Ship>, after: map<Id, Ship>) {
    forall id | id in after ::
      && id in before && after[id].sectorId == before[id].sectorId
      && Points(after[id]) <= Points(before[id])
      && (after[id].status.InCombat? ==> before[id].status.InCombat?)
  }

  ghost predicate Lost(before: map<Id, Ship>, after: map<Id, Ship>, id: Id) {
    id in before && (id in after ==> Points(after[id]) < Points(before[id]))
  }

  lemma {:induction false} TotalFalls(before: map<Id, Ship>, after: map<Id, Ship>, roster: seq<Id>)
    requires Weaker(before, after)
    ensures Total(after, roster) <= Total(before, roster)
    ensures (exists id :: id in roster && Lost(before, after, id)) ==> Total(after, roster) < Total(before, roster)
  {
    hide Points;
    if roster != [] {
      var (front, last) := (roster[..|roster| - 1], roster[|roster| - 1]);
      TotalFalls(before, after, front);
      if !Lost(before, after, last) && exists id :: id in roster && Lost(before, after, id) {
        var id :| id in roster && Lost(before, after, id);
        assert id in front;
      }
    }
  }

  lemma TravelWeaker(root: real -> real, w: World, s: Id, deltaTime: real)
    requires deltaTime >= 0.0
    ensures Weaker(w.ships, MovementPhase(root, w, s, deltaTime).ships)
    ensures forall id :: Fights(MovementPhase(root, w, s, deltaTime).ships, id) <==> Fights(w.ships, id)
  {
    hide Lives;
    assert forall ship: Ship :: Strength(Travel(root, ship, deltaTime)) == Strength(ship);
    forall ship: Ship ensures Lives(Travel(root, ship, deltaTime)) == Lives(ship) {
      SameStrength(ship, Travel(root, ship, deltaTime));
    }
  }

  lemma SameStrength(a: Ship, b: Ship)
    requires Strength(a) == Strength(b)
    ensures Lives(a) == Lives(b)
  {
  }

  lemma DisengageWeaker(ships: map<Id, Ship>, id: Id)
    ensures Weaker(ships, Disengage(ships, id))
    ensures Fights(ships, id) ==> Lost(ships, Disengage(ships, id), id)
  {
    if id in ships {
      SameStrength(ships[id], Disengage(ships, id)[id]);
    }
    hide Lives;
  }

  lemma WeakerReflexive(ships: map<Id, Ship>)
    ensures Weaker(ships, ships)
  {
  }

  lemma WeakerTransitive(a: map<Id, Ship>, b: map<Id, Ship>, c: map<Id, Ship>)
    requires Weaker(a, b) && Weaker(b, c)
    ensures Weaker(a, c)
    ensures forall id | Lost(a, b, id) || (Lost(b, c, id) && id in b) :: Lost(a, c, id)
  {
    hide Points;
  }

  lemma {:induction false} DisengageAllWeaker(ships: map<Id, Ship>, ids: seq<Id>)
    ensures Weaker(ships, DisengageAll(ships, ids))
    ensures ids != [] && Fights(ships, ids[0]) ==> Lost(ships, DisengageAll(ships, ids), ids[0])
  {
    hide Points, Disengage, Weaker, Lost;
    if ids == [] {
      WeakerReflexive(ships);
    } else {
      var (front, last) := (ids[..|ids| - 1], ids[|ids| - 1]);
      var middle := DisengageAll(ships, front);
      DisengageAllWeaker(ships, front);
      DisengageWeaker(middle, last);
      WeakerTransitive(ships, middle, Disengage(middle, last));
    }
  }

  lemma StrikeWeaker(p: Playtest, s: Id, a: Action)
    requires a.damage >= WEAKEST_ATTACK
    ensures Weaker(p.world.ships, Strike(p, s, a).world.ships)
    ensures a.target in p.world.ships ==> Lost(p.world.ships, Strike(p, s, a).world.ships, a.target)
  {
    if a.target in p.world.ships {
      if Hit(p.world.ships[a.target], a.damage).hull > 0.0 {
        HitCostsALife(p.world.ships[a.target], a.damage);
        hide Lives, Hit;
      } else {
        DisengageWeaker(p.world.ships - {a.target}, a.attacker);
        hide Points, Disengage;
      }
    }
  }

  ghost predicate Strong(actions: seq<Action>) {
    forall i | 0 <= i < |actions| :: actions[i].damage >= WEAKEST_ATTACK
  }

  lemma {:induction false} StrikesWeaker(p: Playtest, s: Id, actions: seq<Action>)
    requires Strong(actions)
    ensures Weaker(p.world.ships, Strikes(p, s, actions).world.ships)
    ensures actions != [] && actions[0].target in p.world.ships
            ==> Lost(p.world.ships, Strikes(p, s, actions).world.ships, actions[0].target)
  {
    hide Points, Strike, Lost;
    if actions != [] {
      var (front, last) := (actions[..|actions| - 1], actions[|actions| - 1]);
      var middle := Strikes(p, s, front);
      StrikesWeaker(p, s, front);
      StrikeWeaker(middle, s, last);
      WeakerTransitive(p.world.ships, middle.world.ships, Strike(middle, s, last).world.ships);
    }
  }

  // ---------- a round costs something ----------

  /** Every fighter either leaves or acts on a target there is. */
  lemma {:induction false} FightersLeaveOrAct(w: World, s: Id, order: seq<Id>)
    ensures Strong(Actions(w, s, order))
    ensures forall i | 0 <= i < |Actions(w, s, order)| :: Actions(w, s, order)[i].target in w.ships
    ensures forall i | 0 <= i < |Leavers(w, s, order)| :: Fights(w.ships, Leavers(w, s, order)[i]) && Leavers(w, s, order)[i] in order
    ensures (exists id :: id in order && Fights(w.ships, id)) ==> Leavers(w, s, order) != [] || Actions(w, s, order) != []
  {
    hide Stats;
    if order != [] {
      var (front, last) := (order[..|order| - 1], order[|order| - 1]);
      FightersLeaveOrAct(w, s, front);
      if last in w.ships {
        AttackAtLeast(w.ships[last].shipClass);
      }
      if id :| id in order && Fights(w.ships, id) && id != last {
        assert id in front;
      }
    }
  }

  ghost predicate Peaceful(ships: map<Id, Ship>, s: Id) {
    forall id | id in ships && ships[id].sectorId == s :: !ships[id].status.InCombat?
  }

  /** The roster lists every ship of the sector. */
  ghost predicate Covers(roster: seq<Id>, ships: map<Id, Ship>, s: Id) {
    forall id | id in ships && ships[id].sectorId == s :: id in roster
  }

  /** A round never adds ships or points. */
  lemma RoundWeaker(p: Playtest, s: Id, order: seq<Id>)
    ensures Weaker(p.world.ships, CombatRound(p, s, order).world.ships)
  {
    var (leavers, actions) := (Leavers(p.world, s, order), Actions(p.world, s, order));
    var left := DisengageAll(p.world.ships, leavers);
    FightersLeaveOrAct(p.world, s, order);
    DisengageAllWeaker(p.world.ships, leavers);
    StrikesWeaker(p.(world := p.world.(ships := left)), s, actions);
    WeakerTransitive(p.world.ships, left, CombatRound(p, s, order).world.ships);
    hide Weaker, Strong;
  }

  /** A round takes points away from a sector in which somebody fights. */
  lemma RoundCosts(p: Playtest, s: Id, order: seq<Id>)
    requires IndexExact(p.world) && KeysAreIds(p.world) && s in p.world.sectors
    requires Enumerates(order, p.world.sectors[s].shipIds)
    ensures var after := CombatRound(p, s, order).world.ships;
            && Weaker(p.world.ships, after)
            && (Peaceful(p.world.ships, s)
                || exists id :: id in p.world.ships && p.world.ships[id].sectorId == s && Lost(p.world.ships, after, id))
  {
    var (ships, leavers, actions) := (p.world.ships, Leavers(p.world, s, order), Actions(p.world, s, order));
    var left := DisengageAll(ships, leavers);
    var after := CombatRound(p, s, order).world.ships;
    FightersLeaveOrAct(p.world, s, order);
    DisengageAllWeaker(ships, leavers);
    DisengageSamePlace(ships, leavers);
    StrikesWeaker(p.(world := p.world.(ships := left)), s, actions);
    WeakerTransitive(ships, left, after);
    if !Peaceful(ships, s) {
      var id :| id in ships && ships[id].sectorId == s && ships[id].status.InCombat?;
      assert id in p.world.sectors[s].shipIds && id in order;
      if leavers != [] {
        assert Lost(ships, after, leavers[0]);
      } else {
        ActionsAimed(p.world, s, order);
        assert Lost(ships, after, actions[0].target);
      }
    }
  }

  // ---------- fights do not start ----------

  function InSector(ships: map<Id, Ship>, s: Id): map<Id, Ship> {
    map id | id in ships && ships[id].sectorId == s :: ships[id]
  }

  /** The points of the listed ships that are in the sector. */
  function SectorPoints(ships: map<Id, Ship>, s: Id, roster: seq<Id>): nat {
    Total(InSector(ships, s), roster)
  }

  lemma WeakerInSector(before: map<Id, Ship>, after: map<Id, Ship>, s: Id)
    requires Weaker(before, after)
    ensures Weaker(InSector(before, s), InSector(after, s))
    ensures Peaceful(before, s) ==> Peaceful(after, s)
    ensures forall id :: id in before && before[id].sectorId == s && Lost(before, after, id) ==> Lost(InSector(before, s), InSector(after, s), id)
  {
    hide Points;
  }

  lemma TickWeaker(root: real -> real, p: Playtest, t: Tick)
    requires t.deltaTime >= 0.0
    ensures Weaker(p.world.ships, SectorTick(root, p, t).world.ships)
  {
    if t.sector in p.world.sectors {
      var moved := MovementPhase(root, p.world, t.sector, t.deltaTime);
      TravelWeaker(root, p.world, t.sector, t.deltaTime);
      if t.number % COMBAT_INTERVAL == 0 {
        hide CombatRound, Weaker, MovementPhase;
        RoundWeaker(p.(world := moved), t.sector, t.order);
        WeakerTransitive(p.world.ships, moved.ships, CombatRound(p.(world := moved), t.sector, t.order).world.ships);
      }
    } else {
      WeakerReflexive(p.world.ships);
    }
  }

  /** Scripts can set a ship idle, under way or disabled, and what they spawn is idle. */
  lemma MutationStartsNoFight(w: World, m: Mutation, order: seq<Id>, newId: Id, id: Id)
    requires Fights(Step(w, m, order, newId).0.ships, id)
    ensures Fights(w.ships, id)
    ensures var s := Step(w, m, order, newId).0.ships[id].sectorId; s == w.ships[id].sectorId || s == NIL
  {
    hide ChangePlayer, SectorWithMission, SectorWithLocation, WithoutLocation, Loaded, Unloaded, Panics, InstallUpgrade, RemoveUpgrade, Stats;
  }

  lemma LifeStep(root: real -> real, forked: set<Id>, es: seq<Event>, ps: seq<Playtest>, i: nat)
    requires Life(root, forked, es, ps) && i < |es|
    ensures |ps| == |es| + 1 && Possible(ps[i], forked, es[i]) && ps[i + 1] == Next(root, ps[i], es[i])
  {
  }

  lemma LifeLength(root: real -> real, forked: set<Id>, es: seq<Event>, ps: seq<Playtest>)
    requires Life(root, forked, es, ps)
    ensures |ps| == |es| + 1
  {
  }

  lemma EventStartsNoFight(root: real -> real, p: Playtest, forked: set<Id>, e: Event, id: Id)
    requires Possible(p, forked, e) && Fights(Next(root, p, e).world.ships, id)
    ensures Fights(p.world.ships, id)
  {
    hide Apply, SectorTick, Step;
    match e
    case Mutate(m, order, newId) =>
      WorldOfApply(p, m, order, newId);
      MutationStartsNoFight(p.world, m, order, newId, id);
    case Simulate(t) => TickWeaker(root, p, t);
  }

  /** No event of a playtest starts a fight: whoever fights has done so from the start. */
  lemma {:induction false} NoNewFight(root: real -> real, forked: set<Id>, es: seq<Event>, ps: seq<Playtest>, k: nat, n: nat, id: Id)
    requires Life(root, forked, es, ps) && k <= n <= |es| && Fights(ps[n].world.ships, id)
    ensures Fights(ps[k].world.ships, id)
    decreases n
  {
    hide Life, Fights, Next, Possible;
    if k < n {
      LifeStep(root, forked, es, ps, n - 1);
      EventStartsNoFight(root, ps[n - 1], forked, es[n - 1], id);
      NoNewFight(root, forked, es, ps, k, n - 1, id);
    }
  }

  // ---------- what a mutation adds ----------

  /** The lives that a mutation brings into a sector: those of a ship it spawns there, or those it gives to
      a ship that is there. */
  function Gain(w: World, m: Mutation, newId: Id, s: Id): nat {
    match m
    case ModifyShip(id, changes) =>
      if id in w.ships && w.ships[id].sectorId == s && Lives(ChangeShip(w.ships[id], changes)) > Lives(w.ships[id])
      then Lives(ChangeShip(w.ships[id], changes)) - Lives(w.ships[id])
      else 0
    case SpawnShip(c) =>
      if c.sectorId == s then Lives(NewNpcShip(newId, c.name, c.shipClass, c.sectorId, c.position, c.factionId)) else 0
    case _ => 0
  }

  function EventGain(w: World, e: Event, s: Id): nat {
    if e.Mutate? then Gain(w, e.mutation, e.newId, s) else 0
  }

  /** The one ship that may gain. */
  function Touched(m: Mutation, newId: Id): Id {
    match m
    case ModifyShip(id, _) => id
    case _ => newId
  }

  ghost predicate Gains(before: map<Id, Ship>, after: map<Id, Ship>, id: Id, gain: nat) {
    && (forall k | k in after && k != id :: k in before && after[k] == before[k])
    && (id in after ==> Points(after[id]) <= (if id in before then Points(before[id]) else 0) + gain)
  }

  lemma ModifyGains(ship: Ship, c: ShipChanges)
    ensures var after := ChangeShip(ship, c);
            after.sectorId == ship.sectorId && Points(after) <= Points(ship) + if Lives(after) > Lives(ship) then Lives(after) - Lives(ship) else 0
  {
    hide Lives, Loaded, Unloaded, Panics, InstallUpgrade, RemoveUpgrade, Stats;
  }

  lemma SpawnGains(newId: Id, c: SpawnConfig)
    ensures var ship := NewNpcShip(newId, c.name, c.shipClass, c.sectorId, c.position, c.factionId);
            ship.sectorId == c.sectorId && Points(ship) == Lives(ship)
  {
    hide Lives, Stats;
  }

  /** Either the sector is removed, and the ships that were in it are in none, or one ship gains what the
      mutation brings and the others are as before. */
  lemma MutationGains(w: World, m: Mutation, order: seq<Id>, newId: Id, s: Id)
    requires IndexExact(w) && KeysAreIds(w) && s in w.sectors && newId !in w.ships
    ensures var after := Step(w, m, order, newId).0;
            if s in after.sectors then Gains(InSector(w.ships, s), InSector(after.ships, s), Touched(m, newId), Gain(w, m, newId, s))
            else Peaceful(after.ships, s)
  {
    hide ChangeShip, ChangePlayer, NewNpcShip, Panics, SectorWithMission, SectorWithLocation, WithoutLocation, Points, Lives;
    match m
    case ModifyShip(id, changes) => if id in w.ships { ModifyGains(w.ships[id], changes); }
    case SpawnShip(c) => SpawnGains(newId, c);
    case DestroyEntity(id, SectorEntity) =>
      assert id in w.sectors ==> forall k: Id :: k in w.sectors[id].shipIds <==> k in w.ships && w.ships[k].sectorId == id;
    case _ =>
  }

  ghost predicate Once(roster: seq<Id>) {
    forall i, j | 0 <= i < j < |roster| :: roster[i] != roster[j]
  }

  lemma {:induction false} TotalGains(before: map<Id, Ship>, after: map<Id, Ship>, roster: seq<Id>, id: Id, gain: nat)
    requires Once(roster) && Gains(before, after, id, gain)
    ensures Total(after, roster) <= Total(before, roster) + if id in roster then gain else 0
  {
    hide Points;
    if roster != [] {
      var front := roster[..|roster| - 1];
      TotalGains(before, after, front, id, gain);
      assert roster == front + [roster[|roster| - 1]];
    }
  }

  // ---------- over any life ----------

  /** The combat rounds of a sector among all events. */
  function Rounds(es: seq<Event>, s: Id): nat {
    if es == [] then 0
    else
      var e := es[|es| - 1];
      Rounds(es[..|es| - 1], s)
      + if e.Simulate? && e.tick.sector == s && e.tick.number % COMBAT_INTERVAL == 0 then 1 else 0
  }

  /** The lives that mutations have brought into a sector before event `n`. */
  ghost function Gained(es: seq<Event>, ps: seq<Playtest>, s: Id, n: nat): nat
    requires n <= |es| && |ps| == |es| + 1
  {
    if n == 0 then 0
    else
      Gained(es, ps, s, n - 1) + EventGain(ps[n - 1].world, es[n - 1], s)
  }

  /** The roster, with the id of a ship that the event spawns in the sector. */
  function Enlist(roster: seq<Id>, e: Event, s: Id): seq<Id> {
    if e.Mutate? && e.mutation.SpawnShip? && e.mutation.config.sectorId == s && e.newId !in roster then roster + [e.newId] else roster
  }

  function Roster(start: seq<Id>, es: seq<Event>, s: Id): seq<Id> {
    if es == [] then start else Enlist(Roster(start, es[..|es| - 1], s), es[|es| - 1], s)
  }

  lemma {:induction false} StrikesKeepSectors(p: Playtest, s: Id, actions: seq<Action>)
    ensures Strikes(p, s, actions).world.sectors.Keys == p.world.sectors.Keys
  {
    hide Hit, Disengage;
    if actions != [] {
      StrikesKeepSectors(p, s, actions[..|actions| - 1]);
    }
  }

  lemma TickCosts(root: real -> real, p: Playtest, t: Tick)
    requires IndexExact(p.world) && KeysAreIds(p.world) && Possible(p, {}, Simulate(t))
    ensures var q := SectorTick(root, p, t);
            && Weaker(p.world.ships, q.world.ships)
            && q.world.sectors.Keys == p.world.sectors.Keys
            && (t.sector in p.world.sectors && t.number % COMBAT_INTERVAL == 0 && !Peaceful(p.world.ships, t.sector)
                ==> exists id :: id in p.world.ships && p.world.ships[id].sectorId == t.sector && Lost(p.world.ships, q.world.ships, id))
  {
    TickWeaker(root, p, t);
    if t.sector in p.world.sectors && t.number % COMBAT_INTERVAL == 0 {
      var moved := MovementPhase(root, p.world, t.sector, t.deltaTime);
      TravelWeaker(root, p.world, t.sector, t.deltaTime);
      SamePlaceKeepsIndex(p.world, moved.ships);
      assert SamePlace(p.world.ships, moved.ships);
      RoundCosts(p.(world := moved), t.sector, t.order);
      StrikesKeepSectors(p.(world := moved.(ships := DisengageAll(moved.ships, Leavers(moved, t.sector, t.order)))),
                         t.sector, Actions(moved, t.sector, t.order));
      hide Weaker, Lost, Strikes, MovementPhase, Actions, Leavers, DisengageAll, IndexExact, KeysAreIds, SamePlace, Fights;
      MovedThenFought(p.world.ships, moved.ships, CombatRound(p.(world := moved), t.sector, t.order).world.ships, t.sector);
    }
  }

  /** Movement neither ends a fight nor costs anything. */
  lemma MovedThenFought(before: map<Id, Ship>, moved: map<Id, Ship>, after: map<Id, Ship>, s: Id)
    requires SamePlace(before, moved) && Weaker(before, moved) && Weaker(moved, after)
    requires forall id :: Fights(moved, id) <==> Fights(before, id)
    requires Peaceful(moved, s) || exists id :: id in moved && moved[id].sectorId == s && Lost(moved, after, id)
    ensures Peaceful(before, s) || exists id :: id in before && before[id].sectorId == s && Lost(before, after, id)
  {
    WeakerTransitive(before, moved, after);
    hide Points;
    if Peaceful(moved, s) {
      forall id | id in before && before[id].sectorId == s ensures !before[id].status.InCombat? {
        assert Fights(moved, id) <==> Fights(before, id);
      }
    }
  }

  /** A sector is at peace, or its points and rounds together are within what it may have had. */
  ghost predicate Paid(p: Playtest, s: Id, roster: seq<Id>, rounds: nat, budget: nat) {
    || Peaceful(p.world.ships, s)
    || (s in p.world.sectors && Once(roster) && Covers(roster, p.world.ships, s)
        && SectorPoints(p.world.ships, s, roster) + rounds <= budget)
  }

  lemma {:induction false} TotalWithout(ships: map<Id, Ship>, roster: seq<Id>, id: Id)
    requires id !in ships
    ensures Total(ships, roster + [id]) == Total(ships, roster)
  {
    assert (roster + [id])[..|roster|] == roster;
  }

  lemma MutationPaid(p: Playtest, forked: set<Id>, m: Mutation, order: seq<Id>, newId: Id,
                     s: Id, roster: seq<Id>, rounds: nat, budget: nat)
    requires Sound(p, forked) && Possible(p, forked, Mutate(m, order, newId)) && s != NIL && Paid(p, s, roster, rounds, budget)
    ensures Paid(Apply(p, m, order, newId).0, s, Enlist(roster, Mutate(m, order, newId), s), rounds, budget + Gain(p.world, m, newId, s))
  {
    var (q, listed) := (Apply(p, m, order, newId).0, Enlist(roster, Mutate(m, order, newId), s));
    WorldOfApply(p, m, order, newId);
    SoundMeans(p, forked);
    hide Sound, Apply, Total, Gain, IndexExact, KeysAreIds;
    if Peaceful(p.world.ships, s) {
      PeaceLasts(p.world, m, order, newId, s);
    } else {
      hide Step;
      MutationGains(p.world, m, order, newId, s);
      if s in q.world.sectors {
        TotalGains(InSector(p.world.ships, s), InSector(q.world.ships, s), listed, Touched(m, newId), Gain(p.world, m, newId, s));
        TotalWithout(InSector(p.world.ships, s), roster, newId);
        EnlistedCover(p.world, m, order, newId, s, roster);
      }
    }
  }

  lemma EnlistedCover(w: World, m: Mutation, order: seq<Id>, newId: Id, s: Id, roster: seq<Id>)
    requires Covers(roster, w.ships, s) && Once(roster) && s != NIL
    ensures var listed := Enlist(roster, Mutate(m, order, newId), s); Covers(listed, Step(w, m, order, newId).0.ships, s) && Once(listed)
  {
    hide ChangeShip, ChangePlayer, NewNpcShip, Panics, SectorWithMission, SectorWithLocation, WithoutLocation;
    match m
    case ModifyShip(id, changes) => if id in w.ships { assert SameIdentity(w.ships[id], ChangeShip(w.ships[id], changes)); }
    case SpawnShip(c) => SpawnGains(newId, c);
    case _ =>
  }

  lemma SoundMeans(p: Playtest, forked: set<Id>)
    requires Sound(p, forked)
    ensures IndexExact(p.world) && KeysAreIds(p.world)
  {
  }

  lemma PeaceLasts(w: World, m: Mutation, order: seq<Id>, newId: Id, s: Id)
    requires Peaceful(w.ships, s) && s != NIL
    ensures Peaceful(Step(w, m, order, newId).0.ships, s)
  {
    hide Step;
    var after := Step(w, m, order, newId).0.ships;
    forall id | id in after && after[id].sectorId == s ensures !after[id].status.InCombat? {
      if after[id].status.InCombat? {
        MutationStartsNoFight(w, m, order, newId, id);
      }
    }
  }

  lemma TickPaid(root: real -> real, p: Playtest, forked: set<Id>, t: Tick, s: Id, roster: seq<Id>, rounds: nat, budget: nat)
    requires Sound(p, forked) && Possible(p, forked, Simulate(t)) && Paid(p, s, roster, rounds, budget)
    ensures Paid(SectorTick(root, p, t), s, roster, rounds + Rounds([Simulate(t)], s), budget)
  {
    SoundMeans(p, forked);
    TickCosts(root, p, t);
    RoundsOfTick(t, s);
    hide Sound, SectorTick, IndexExact, KeysAreIds, Weaker, Lost, Peaceful, Rounds, Paid;
    PaidOn(p, SectorTick(root, p, t), s, roster, rounds, Rounds([Simulate(t)], s), budget);
  }

  lemma RoundsOfTick(t: Tick, s: Id)
    ensures Rounds([Simulate(t)], s) == if t.sector == s && t.number % COMBAT_INTERVAL == 0 then 1 else 0
  {
    assert [Simulate(t)][..0] == [];
  }

  /** A round more is paid for by a point less. */
  lemma PaidOn(p: Playtest, q: Playtest, s: Id, roster: seq<Id>, rounds: nat, more: nat, budget: nat)
    requires Paid(p, s, roster, rounds, budget) && Weaker(p.world.ships, q.world.ships) && q.world.sectors.Keys == p.world.sectors.Keys
    requires more <= 1
    requires s in p.world.sectors && more == 1 && !Peaceful(p.world.ships, s) ==>
               exists id :: id in p.world.ships && p.world.ships[id].sectorId == s && Lost(p.world.ships, q.world.ships, id)
    ensures Paid(q, s, roster, rounds + more, budget)
  {
    var (before, after) := (InSector(p.world.ships, s), InSector(q.world.ships, s));
    WeakerInSector(p.world.ships, q.world.ships, s);
    hide Lost, Points;
    if !Peaceful(p.world.ships, s) {
      TotalFalls(before, after, roster);
      hide Total, Once;
      if more == 1 {
        var id :| id in p.world.ships && p.world.ships[id].sectorId == s && Lost(p.world.ships, q.world.ships, id);
        assert id in roster && Lost(before, after, id);
      }
    }
  }

  lemma RoundsSnoc(es: seq<Event>, e: Event, s: Id)
    ensures Rounds(es + [e], s) == Rounds(es, s) + Rounds([e], s)
    ensures e.Mutate? ==> Rounds([e], s) == 0
  {
    assert (es + [e])[..|es|] == es && [e][..0] == [];
  }

  lemma EventPaid(root: real -> real, p: Playtest, forked: set<Id>, e: Event, s: Id, roster: seq<Id>, rounds: nat, budget: nat)
    requires Sound(p, forked) && Possible(p, forked, e) && s != NIL && Paid(p, s, roster, rounds, budget)
    ensures Sound(Next(root, p, e), forked)
    ensures Paid(Next(root, p, e), s, Enlist(roster, e, s), rounds + Rounds([e], s), budget + EventGain(p.world, e, s))
  {
    hide Sound, SectorTick, Apply, Paid, Rounds, Gain;
    match e
    case Mutate(m, order, newId) =>
      ApplyKeepsSound(p, forked, m, order, newId);
      MutationPaid(p, forked, m, order, newId, s, roster, rounds, budget);
      RoundsSnoc([], e, s);
    case Simulate(t) =>
      TickKeepsSound(root, p, forked, t);
      TickPaid(root, p, forked, t, s, roster, rounds, budget);
  }

  lemma StartPaid(p: Playtest, forked: set<Id>, s: Id, roster: seq<Id>)
    requires Sound(p, forked) && s in p.world.sectors && Enumerates(roster, p.world.sectors[s].shipIds)
    ensures Paid(p, s, roster, Rounds([], s), SectorPoints(p.world.ships, s, roster))
  {
    hide KeysAreIds, SectorPoints, RecordExact;
    forall id | id in p.world.ships && p.world.ships[id].sectorId == s ensures id in roster {
      assert id in p.world.sectors[s].shipIds;
    }
  }

  lemma SectorsAreNotNil(p: Playtest, forked: set<Id>)
    requires Sound(p, forked)
    ensures NIL !in p.world.sectors
  {
  }

  /** Points left and rounds run together never exceed the points at the start and what mutations have
      brought in since, unless the sector is at peace. */
  lemma {:induction false} PointsPayForRounds(root: real -> real, forked: set<Id>, es: seq<Event>, ps: seq<Playtest>,
                                              s: Id, roster: seq<Id>, n: nat)
    requires Life(root, forked, es, ps) && Sound(ps[0], forked)
    requires s in ps[0].world.sectors && Enumerates(roster, ps[0].world.sectors[s].shipIds) && n <= |es|
    ensures Sound(ps[n], forked)
    ensures Paid(ps[n], s, Roster(roster, es[..n], s), Rounds(es[..n], s), SectorPoints(ps[0].world.ships, s, roster) + Gained(es, ps, s, n))
    decreases n
  {
    hide Life, Sound, Next, Paid, Rounds, EventGain, SectorPoints, Possible, Enumerates, Enlist;
    LifeLength(root, forked, es, ps);
    SectorsAreNotNil(ps[0], forked);
    if n == 0 {
      StartPaid(ps[0], forked, s, roster);
    } else {
      PointsPayForRounds(root, forked, es, ps, s, roster, n - 1);
      var (e, before) := (es[n - 1], es[..n - 1]);
      LifeStep(root, forked, es, ps, n - 1);
      assert es[..n][..n - 1] == before && es[..n] == before + [e];
      RoundsSnoc(before, e, s);
      EventPaid(root, ps[n - 1], forked, e, s, Roster(roster, before, s), Rounds(before, s),
                SectorPoints(ps[0].world.ships, s, roster) + Gained(es, ps, s, n - 1));
    }
  }

  /** Combat ends, whatever scripts do. A playtest may be mutated, run the ticks of its sectors in any order,
      iterate ships in any order and move ships between rounds: once a sector has had as many combat rounds
      as its ships had lives, plus one for each of them that was fighting, plus the lives that mutations have
      brought in, none of its ships fights. */
  lemma CombatEnds(root: real -> real, forked: set<Id>, es: seq<Event>, ps: seq<Playtest>, s: Id, roster: seq<Id>)
    requires Life(root, forked, es, ps) && Sound(ps[0], forked)
    requires s in ps[0].world.sectors && Enumerates(roster, ps[0].world.sectors[s].shipIds)
    requires Rounds(es, s) >= SectorPoints(ps[0].world.ships, s, roster) + Gained(es, ps, s, |es|)
    ensures Peaceful(ps[|es|].world.ships, s)
  {
    hide Life, Gained, Roster, Rounds, Sound, Paid, SectorPoints, Enumerates, Peaceful;
    LifeLength(root, forked, es, ps);
    PointsPayForRounds(root, forked, es, ps, s, roster, |es|);
    assert es[..|es|] == es;
    BudgetSpent(ps[|es|], s, Roster(roster, es, s), Rounds(es, s), SectorPoints(ps[0].world.ships, s, roster) + Gained(es, ps, s, |es|));
  }

  /** A fighter has points left. */
  lemma BudgetSpent(p: Playtest, s: Id, roster: seq<Id>, rounds: nat, budget: nat)
    requires Paid(p, s, roster, rounds, budget) && rounds >= budget
    ensures Peaceful(p.world.ships, s)
  {
    var ships := p.world.ships;
    if !Peaceful(ships, s) {
      hide Once;
      var id :| id in ships && ships[id].sectorId == s && ships[id].status.InCombat?;
      FighterHasPoints(InSector(ships, s), roster, id);
    }
  }

  /** Left to itself a playtest gains nothing: the points at the start are the bound. */
  lemma CombatEndsUndisturbed(root: real -> real, forked: set<Id>, es: seq<Event>, ps: seq<Playtest>, s: Id, roster: seq<Id>)
    requires Life(root, forked, es, ps) && Sound(ps[0], forked) && forall e | e in es :: e.Simulate?
    requires s in ps[0].world.sectors && Enumerates(roster, ps[0].world.sectors[s].shipIds)
    requires Rounds(es, s) >= SectorPoints(ps[0].world.ships, s, roster)
    ensures Peaceful(ps[|es|].world.ships, s)
  {
    NothingGained(es, ps, s, |es|);
    CombatEnds(root, forked, es, ps, s, roster);
    hide *;
  }

  lemma {:induction false} NothingGained(es: seq<Event>, ps: seq<Playtest>, s: Id, n: nat)
    requires n <= |es| && |ps| == |es| + 1 && forall e | e in es :: e.Simulate?
    ensures Gained(es, ps, s, n) == 0
    decreases n
  {
    if n > 0 {
      NothingGained(es, ps, s, n - 1);
      assert es[n - 1] in es;
    }
  }

  lemma {:induction false} FighterHasPoints(ships: map<Id, Ship>, roster: seq<Id>, id: Id)
    requires id in roster && id in ships
    ensures Total(ships, roster) >= Points(ships[id])
  {
    hide Points;
    if id != roster[|roster| - 1] {
      FighterHasPoints(ships, roster[..|roster| - 1], id);
    }
  }
}
