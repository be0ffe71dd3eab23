/** A playtest: its forked world, the record of created and deleted ships kept for promotion, and what a
    mutation (state_provider.rs) or a sector's tick (simulation.rs) does to them. */
module Playtest {
  import opened Prelude
  import opened Ships
  import opened Movement
  import opened World

  datatype Playtest = Playtest(world: World, created: set<Id>, deleted: set<Id>)

  /** One script mutation, with the bookkeeping that the live server does not do. */
  function Apply(p: Playtest, m: Mutation, order: seq<Id>, newId: Id): (Playtest, MutationResult) {
    var (w, r) := Step(p.world, m, order, newId);
    match m
    case SpawnShip(_) => (Playtest(w, p.created + {newId}, p.deleted), r)
    case DestroyEntity(id, ShipEntity) =>
      if id in p.world.ships then
        (Playtest(w, p.created - {id}, if id in p.created then p.deleted else p.deleted + {id}), r)
      else (p, r)
    case _ => (p.(world := w), r)
  }

  /** The bookkeeping changes nothing else. */
  lemma WorldOfApply(p: Playtest, m: Mutation, order: seq<Id>, newId: Id)
    ensures var (q, r) := Apply(p, m, order, newId); (q.world, r) == Step(p.world, m, order, newId)
  {
  }

  // ---------- movement ----------

  const FUEL_CRITICAL: real := 10.0

  /** What a ship can cover in a tick. */
  function DistancePerTick(ship: Ship, deltaTime: real): real {
    Times(Stats(ship.shipClass).speed * (if ship.fuel < FUEL_CRITICAL then 0.5 else 1.0), deltaTime)
  }

  /** A ship in transit moves, burns fuel and stops when it has arrived. */
  function Travel(root: real -> real, ship: Ship, deltaTime: real): Ship
    requires deltaTime >= 0.0
  {
    if ship.status.InTransit? then
      TwiceIsOnce(Stats(ship.shipClass).speed * (if ship.fuel < FUEL_CRITICAL then 0.5 else 1.0), deltaTime);
      var (position, arrived) :=
        MoveShipTowards(root, ship.position, ship.status.destination, DistancePerTick(ship, deltaTime), deltaTime);
      var fuel := ship.fuel - Times(Stats(ship.shipClass).fuelPerSector * 0.001, deltaTime);
      ship.(position := position, fuel := if fuel < 0.0 then 0.0 else fuel, status := if arrived then Idle else ship.status)
    else ship
  }

  function TravelAll(root: real -> real, ships: map<Id, Ship>, ids: set<Id>, deltaTime: real): map<Id, Ship>
    requires deltaTime >= 0.0
  {
    map id | id in ships :: if id in ids then Travel(root, ships[id], deltaTime) else ships[id]
  }

  /** Every ship in the sector's index travels. */
  function MovementPhase(root: real -> real, w: World, s: Id, deltaTime: real): World
    requires deltaTime >= 0.0
  {
    if s in w.sectors then w.(ships := TravelAll(root, w.ships, w.sectors[s].shipIds, deltaTime)) else w
  }

  // ---------- combat ----------

  datatype Action = Action(attacker: Id, target: Id, damage: real)

  predicate Fights(ships: map<Id, Ship>, id: Id) {
    id in ships && ships[id].status.InCombat?
  }

  /** The locked target exists and is in this sector. */
  predicate HasTarget(w: World, s: Id, ship: Ship) {
    s in w.sectors && ship.lockedTarget.Some? && ship.lockedTarget.value in w.ships
    && w.ships[ship.lockedTarget.value].sectorId == w.sectors[s].id
  }

  /** The fighters that have nothing to shoot at. */
  function Leavers(w: World, s: Id, order: seq<Id>): seq<Id> {
    if order == [] then []
    else
      var (front, id) := (Leavers(w, s, order[..|order| - 1]), order[|order| - 1]);
      if Fights(w.ships, id) && !HasTarget(w, s, w.ships[id]) then front + [id] else front
  }

  /** What the others will do, all decided before anything changes. */
  function Actions(w: World, s: Id, order: seq<Id>): seq<Action> {
    if order == [] then []
    else
      var (front, id) := (Actions(w, s, order[..|order| - 1]), order[|order| - 1]);
      if Fights(w.ships, id) && HasTarget(w, s, w.ships[id])
      then front + [Action(id, w.ships[id].lockedTarget.value, Stats(w.ships[id].shipClass).attack)]
      else front
  }

  function Disengage(ships: map<Id, Ship>, id: Id): map<Id, Ship> {
    if id in ships then ships[id := ships[id].(status := Idle, lockedTarget := None)] else ships
  }

  function DisengageAll(ships: map<Id, Ship>, ids: seq<Id>): map<Id, Ship> {
    if ids == [] then ships else Disengage(DisengageAll(ships, ids[..|ids| - 1]), ids[|ids| - 1])
  }

  /** Shields first, the rest into the hull. */
  function Hit(ship: Ship, damage: real): Ship {
    var absorbed := if damage < ship.shield then damage else ship.shield;
    ship.(shield := ship.shield - absorbed, hull := ship.hull - (damage - absorbed))
  }

  /** One action. A target that an earlier action destroyed is left alone; an attacker that was destroyed
      earlier in the round still fires. */
  function Strike(p: Playtest, s: Id, a: Action): Playtest {
    if a.target !in p.world.ships then p
    else
      var target := Hit(p.world.ships[a.target], a.damage);
      if target.hull > 0.0 then p.(world := p.world.(ships := p.world.ships[a.target := target]))
      else
        Playtest(p.world.(ships := Disengage(p.world.ships - {a.target}, a.attacker),
                          sectors := Unindex(p.world.sectors, s, a.target)),
                 p.created, if a.target in p.created then p.deleted else p.deleted + {a.target})
  }

  function Strikes(p: Playtest, s: Id, actions: seq<Action>): Playtest {
    if actions == [] then p else Strike(Strikes(p, s, actions[..|actions| - 1]), s, actions[|actions| - 1])
  }

  function CombatRound(p: Playtest, s: Id, order: seq<Id>): Playtest {
    Strikes(p.(world := p.world.(ships := DisengageAll(p.world.ships, Leavers(p.world, s, order)))),
            s, Actions(p.world, s, order))
  }

  // ---------- a sector's tick ----------

  const COMBAT_INTERVAL := 10

  /** `now` is the wall clock, which missions go by. */
  datatype Tick = Tick(sector: Id, number: nat, order: seq<Id>, deltaTime: real, now: int)

  predicate Overdue(m: Mission, now: int) {
    m.status == Available && m.expiresAt.Some? && now > m.expiresAt.value
  }

  function Expire(missions: map<Id, Mission>, now: int): map<Id, Mission> {
    map id | id in missions :: if Overdue(missions[id], now) then missions[id].(status := Expired) else missions[id]
  }

  /** Missions of the sector that nobody has taken in time. */
  function ExpiryPhase(w: World, s: Id, now: int): World {
    if s in w.sectors then w.(sectors := w.sectors[s := w.sectors[s].(missions := Expire(w.sectors[s].missions, now))]) else w
  }

  function SectorTick(root: real -> real, p: Playtest, t: Tick): Playtest
    requires t.deltaTime >= 0.0
  {
    if t.sector !in p.world.sectors then p
    else
      var moved := p.(world := MovementPhase(root, p.world, t.sector, t.deltaTime));
      var fought := if t.number % COMBAT_INTERVAL == 0 then CombatRound(moved, t.sector, t.order) else moved;
      fought.(world := ExpiryPhase(fought.world, t.sector, t.now))
  }

  // ---------- whole lives ----------

  datatype Event = Mutate(mutation: Mutation, order: seq<Id>, newId: Id) | Simulate(tick: Tick)

  /** Iterations visit what they iterate over, and a spawn draws an id that was never used. */
  ghost predicate Possible(p: Playtest, forked: set<Id>, e: Event) {
    match e
    case Mutate(_, order, newId) =>
      Enumerates(order, p.world.sectors.Keys) && newId !in p.world.ships.Keys + forked + p.created + p.deleted
    case Simulate(t) =>
      t.deltaTime >= 0.0 && (t.sector in p.world.sectors ==> Enumerates(t.order, p.world.sectors[t.sector].shipIds))
  }

  ghost function Next(root: real -> real, p: Playtest, e: Event): Playtest
    requires e.Simulate? ==> e.tick.deltaTime >= 0.0
  {
    match e
    case Mutate(m, order, newId) => Apply(p, m, order, newId).0
    case Simulate(t) => SectorTick(root, p, t)
  }

  /** The states a playtest goes through: mutations and sector ticks in any order. */
  ghost predicate Life(root: real -> real, forked: set<Id>, es: seq<Event>, ps: seq<Playtest>) {
    && |ps| == |es| + 1
    && forall i | 0 <= i < |es| :: Possible(ps[i], forked, es[i]) && ps[i + 1] == Next(root, ps[i], es[i])
  }
}
