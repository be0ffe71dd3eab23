/** Ships (ship.rs): classes and their stats, positions, the cargo hold and the upgrade slots.
    Percentages and coordinates are reals. */
module Ships {
  import opened Prelude

  type Id = int

  // ---------- positions ----------

  datatype Position = Position(x: real, y: real, z: real)

  /** Products are named so that proofs can reason about them by their laws. */
  function Times(a: real, b: real): real { a * b }

  function Square(a: real): real { Times(a, a) }

  function DistanceSquared(p: Position, q: Position): real {
    Square(p.x - q.x) + Square(p.y - q.y) + Square(p.z - q.z)
  }

  /** `root` takes square roots. */
  ghost predicate IsRoot(root: real -> real) {
    forall a: real :: a >= 0.0 ==> root(a) >= 0.0 && Square(root(a)) == a
  }

  function DistanceTo(root: real -> real, p: Position, q: Position): real {
    root(DistanceSquared(p, q))
  }

  function MoveTowards(root: real -> real, p: Position, target: Position, distance: real): Position
    requires distance >= 0.0
  {
    var current := DistanceTo(root, p, target);
    if current <= distance then target
    else
      var ratio := distance / current;
      Position(p.x + Times(target.x - p.x, ratio), p.y + Times(target.y - p.y, ratio), p.z + Times(target.z - p.z, ratio))
  }

  // ---------- classes ----------

  datatype ShipClass =
    | PatrolCorvette | Frigate | Destroyer | Cruiser | Carrier
    | Freighter | Transport | MiningVessel
    | PirateRaider | PirateFrigate | TerroristBomber
    | SeraSwarm | SeraHunter
    | DroneHarvester | DroneSwarm

  datatype BaseStats = BaseStats(
    attack: real, defense: real, speed: real, shieldCapacity: real,
    sensorRange: real, cargoCapacity: nat, fuelPerSector: real, ammoPerAttack: real)

  function Stats(c: ShipClass): BaseStats {
    match c
    case PatrolCorvette => BaseStats(30.0, 20.0, 80.0, 50.0, 100.0, 50, 5.0, 2.0)
    case Frigate => BaseStats(50.0, 40.0, 60.0, 80.0, 120.0, 100, 8.0, 3.0)
    case Destroyer => BaseStats(80.0, 60.0, 50.0, 100.0, 150.0, 150, 12.0, 5.0)
    case Cruiser => BaseStats(100.0, 80.0, 40.0, 150.0, 200.0, 300, 15.0, 8.0)
    case Carrier => BaseStats(40.0, 100.0, 30.0, 200.0, 300.0, 500, 20.0, 10.0)
    case Freighter => BaseStats(5.0, 15.0, 40.0, 20.0, 50.0, 1000, 10.0, 1.0)
    case Transport => BaseStats(10.0, 20.0, 50.0, 30.0, 60.0, 500, 8.0, 1.0)
    case MiningVessel => BaseStats(5.0, 25.0, 30.0, 40.0, 40.0, 800, 12.0, 1.0)
    case PirateRaider => BaseStats(40.0, 15.0, 90.0, 30.0, 80.0, 100, 4.0, 2.0)
    case PirateFrigate => BaseStats(60.0, 35.0, 55.0, 60.0, 100.0, 200, 7.0, 4.0)
    case TerroristBomber => BaseStats(150.0, 10.0, 70.0, 10.0, 50.0, 50, 3.0, 50.0)
    case SeraSwarm => BaseStats(20.0, 5.0, 100.0, 0.0, 150.0, 0, 1.0, 0.5)
    case SeraHunter => BaseStats(120.0, 70.0, 60.0, 50.0, 250.0, 0, 5.0, 5.0)
    case DroneHarvester => BaseStats(30.0, 50.0, 35.0, 30.0, 100.0, 2000, 2.0, 1.0)
    case DroneSwarm => BaseStats(15.0, 10.0, 80.0, 0.0, 80.0, 0, 0.5, 0.2)
  }

  // ---------- ships ----------

  /** The id of a cargo type; only equality matters. */
  type CargoType = int

  datatype CargoItem = CargoItem(cargoType: CargoType, quantity: nat, purchasePrice: int)
  datatype InstalledUpgrade = InstalledUpgrade(upgradeId: string, slot: string)

  datatype ShipStatus =
    | Idle
    | InTransit(destination: Position, targetId: Option<Id>)
    | InCombat(engagementId: Id)
    | Docked(stationId: Id)
    | Disabled
    | Destroyed

  datatype CombatStance = Aggressive | Balanced | Defensive | Evasive

  datatype Ship = Ship(
    id: Id, name: string, ownerId: Option<Id>, shipClass: ShipClass, sectorId: Id, position: Position,
    ammunition: real, fuel: real, morale: real, experience: int, hull: real, shield: real,
    status: ShipStatus, isPlayerShip: bool, factionId: Option<Id>, squadronId: Option<Id>,
    stance: CombatStance, lockedTarget: Option<Id>, cargo: seq<CargoItem>, upgrades: seq<InstalledUpgrade>)

  function NewNpcShip(id: Id, name: string, shipClass: ShipClass, sectorId: Id, position: Position, factionId: Option<Id>): Ship {
    Ship(id, name, None, shipClass, sectorId, position, 100.0, 100.0, 50.0, 0, 100.0, Stats(shipClass).shieldCapacity,
         Idle, false, factionId, None, Balanced, None, [], [])
  }

  // ---------- the cargo hold ----------

  function CargoUsed(hold: seq<CargoItem>): nat {
    if hold == [] then 0 else CargoUsed(hold[..|hold| - 1]) + hold[|hold| - 1].quantity
  }

  /** The first item of a type, or the length. */
  function Find(hold: seq<CargoItem>, cargoType: CargoType): (i: nat)
    ensures i <= |hold| && (i < |hold| ==> hold[i].cargoType == cargoType)
    ensures forall j | 0 <= j < i :: hold[j].cargoType != cargoType
  {
    if hold == [] then 0
    else
      var i := Find(hold[..|hold| - 1], cargoType);
      if i < |hold| - 1 then i
      else if hold[|hold| - 1].cargoType == cargoType then |hold| - 1
      else |hold|
  }

  /** Division as the program does it: towards zero. */
  function TruncatedDiv(a: int, b: int): int
    requires b > 0
  {
    if a >= 0 then a / b else -((-a) / b)
  }

  datatype AddOutcome = Added(hold: seq<CargoItem>) | NoRoom | DivisionByZero

  function AddCargo(hold: seq<CargoItem>, capacity: nat, cargoType: CargoType, quantity: nat, price: int): AddOutcome {
    var i := Find(hold, cargoType);
    if CargoUsed(hold) + quantity > capacity then NoRoom
    else if i == |hold| then Added(hold + [CargoItem(cargoType, quantity, price)])
    else if hold[i].quantity + quantity == 0 then DivisionByZero
    else
      var total := hold[i].purchasePrice * hold[i].quantity + price * quantity;
      var q := hold[i].quantity + quantity;
      Added(hold[i := CargoItem(cargoType, q, TruncatedDiv(total, q))])
  }

  function Without(hold: seq<CargoItem>, cargoType: CargoType): seq<CargoItem> {
    if hold == [] then []
    else
      Without(hold[..|hold| - 1], cargoType) + if hold[|hold| - 1].cargoType != cargoType then [hold[|hold| - 1]] else []
  }

  /** None when there is not enough. */
  function RemoveCargo(hold: seq<CargoItem>, cargoType: CargoType, quantity: nat): Option<seq<CargoItem>> {
    var i := Find(hold, cargoType);
    if i == |hold| || hold[i].quantity < quantity then None
    else
      var less := hold[i := hold[i].(quantity := hold[i].quantity - quantity)];
      Some(if hold[i].quantity == quantity then Without(less, cargoType) else less)
  }

  // ---------- upgrade slots ----------

  function SlotIndex(upgrades: seq<InstalledUpgrade>, slot: string): (i: nat)
    ensures i <= |upgrades|
  {
    if upgrades == [] then 0 else if upgrades[0].slot == slot then 0 else 1 + SlotIndex(upgrades[1..], slot)
  }

  function InstallUpgrade(upgrades: seq<InstalledUpgrade>, upgradeId: string, slot: string): seq<InstalledUpgrade> {
    if SlotIndex(upgrades, slot) < |upgrades| then upgrades else upgrades + [InstalledUpgrade(upgradeId, slot)]
  }

  function RemoveUpgrade(upgrades: seq<InstalledUpgrade>, slot: string): seq<InstalledUpgrade> {
    var i := SlotIndex(upgrades, slot);
    if i < |upgrades| then upgrades[..i] + upgrades[i + 1..] else upgrades
  }
}
