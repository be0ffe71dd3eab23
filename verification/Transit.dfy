/** A ship in transit through the movement phases of a playtest (simulation.rs): it slows down when fuel
    runs low, burns fuel on the way, and arrives all the same. */
module Transit {
  import opened Ships
  import opened Movement
  import opened World
  import opened Playtest
  import opened CombatOutcome

  /** The distance covered in a tick when fuel is critical, and when it is not. */
  function SlowStep(c: ShipClass, deltaTime: real): real { Times(Times(Stats(c).speed * 0.5, deltaTime), deltaTime) }
  function FullStep(c: ShipClass, deltaTime: real): real { Times(Times(Stats(c).speed, deltaTime), deltaTime) }

  lemma SpeedPositive(c: ShipClass)
    ensures Stats(c).speed > 0.0
  {
  }

  lemma StepsBetween(ship: Ship, deltaTime: real)
    requires deltaTime > 0.0
    ensures var step := Times(DistancePerTick(ship, deltaTime), deltaTime);
            && step == (if ship.fuel < FUEL_CRITICAL then SlowStep(ship.shipClass, deltaTime) else FullStep(ship.shipClass, deltaTime))
            && 0.0 < SlowStep(ship.shipClass, deltaTime) <= step <= FullStep(ship.shipClass, deltaTime)
  {
    var s := Stats(ship.shipClass).speed;
    SpeedPositive(ship.shipClass);
    hide Times, Stats;
    assert s * 1.0 == s && s * 0.5 < s;
    TimesPositive(s * 0.5, deltaTime);
    TimesPositive(Times(s * 0.5, deltaTime), deltaTime);
    TimesOrdered(s * 0.5, s, deltaTime);
    TimesOrdered(Times(s * 0.5, deltaTime), Times(s, deltaTime), deltaTime);
  }

  function ToGo(root: real -> real, ship: Ship): real
    requires ship.status.InTransit?
  {
    DistanceTo(root, ship.position, ship.status.destination)
  }

  /** Nothing but where it is, what fuel it has and what it does. */
  ghost predicate OnlyTravels(ship: Ship, t: Ship) {
    t == ship.(position := t.position, fuel := t.fuel, status := t.status)
  }

  /** What a tick burns, as long as there is some. */
  ghost predicate Burns(ship: Ship, t: Ship, deltaTime: real) {
    var rest := ship.fuel - Times(Stats(ship.shipClass).fuelPerSector * 0.001, deltaTime);
    (rest >= 0.0 ==> t.fuel == rest) && (rest <= 0.0 ==> t.fuel == 0.0)
  }

  /** The ship arrives when it can reach its destination, and otherwise gets closer by exactly its step, and
      that far from where it was. */
  ghost predicate Travelled(root: real -> real, ship: Ship, t: Ship, deltaTime: real)
    requires ship.status.InTransit?
  {
    var step := Times(DistancePerTick(ship, deltaTime), deltaTime);
    && Burns(ship, t, deltaTime)
    && if ToGo(root, ship) <= step then t.status == Idle && t.position == ship.status.destination
       else t.status == ship.status && ToGo(root, t) == ToGo(root, ship) - step && DistanceTo(root, ship.position, t.position) == step
  }

  /** One phase. */
  lemma TravelStep(root: real -> real, ship: Ship, deltaTime: real)
    requires IsRoot(root) && deltaTime > 0.0 && ship.status.InTransit?
    ensures var t := Travel(root, ship, deltaTime); OnlyTravels(ship, t) && Travelled(root, ship, t, deltaTime)
  {
    hide Times, Stats, DistanceTo, MoveTowards, IsRoot;
    StepsBetween(ship, deltaTime);
    var step := Times(DistancePerTick(ship, deltaTime), deltaTime);
    if ToGo(root, ship) > step {
      StepShortens(root, ship.position, ship.status.destination, step);
    }
  }

  function Travels(root: real -> real, ship: Ship, deltaTime: real, n: nat): Ship
    requires deltaTime >= 0.0
  {
    if n == 0 then ship else Travel(root, Travels(root, ship, deltaTime, n - 1), deltaTime)
  }

  /** Arrived, no sooner than at full speed, or still under way, no further than at slow speed. */
  lemma {:induction false} TransitBounds(root: real -> real, ship: Ship, deltaTime: real, n: nat)
    requires IsRoot(root) && deltaTime > 0.0 && ship.status.InTransit?
    ensures var t, d := Travels(root, ship, deltaTime, n), ToGo(root, ship);
            && t.shipClass == ship.shipClass
            && if t.status == ship.status then
                 && d - Steps(n, FullStep(ship.shipClass, deltaTime)) <= ToGo(root, t) <= d - Steps(n, SlowStep(ship.shipClass, deltaTime))
                 && (n > 0 ==> ToGo(root, t) > 0.0)
               else
                 && t.status == Idle && t.position == ship.status.destination
                 && d <= Steps(n, FullStep(ship.shipClass, deltaTime))
  {
    hide Travel, ToGo, IsRoot, SlowStep, FullStep;
    if n > 0 {
      TransitBounds(root, ship, deltaTime, n - 1);
      var t := Travels(root, ship, deltaTime, n - 1);
      StepsBetween(t, deltaTime);
      if t.status == ship.status {
        TravelStep(root, t, deltaTime);
      } else {
        StaysPut(root, t, deltaTime);
      }
    }
  }

  /** The ship is on the straight way from `p`: what it has covered and what is to go add up. */
  ghost predicate OnWay(root: real -> real, p: Position, ship: Ship)
    requires ship.status.InTransit? && DistanceTo(root, p, ship.status.destination) > 0.0
  {
    var d := DistanceTo(root, p, ship.status.destination);
    && ship.position == Along(p, ship.status.destination, (d - ToGo(root, ship)) / d)
    && DistanceTo(root, p, ship.position) == d - ToGo(root, ship)
  }

  lemma OnWayAtStart(root: real -> real, ship: Ship)
    requires IsRoot(root) && ship.status.InTransit? && ToGo(root, ship) > 0.0
    ensures OnWay(root, ship.position, ship)
  {
    AlongNothing(ship.position, ship.status.destination);
    AlongDistances(root, ship.position, ship.status.destination, 0.0);
    TimesZero(ToGo(root, ship));
    hide IsRoot, DistanceTo, Along, Times;
  }

  /** As long as it is under way a ship keeps to the straight way. */
  lemma {:induction false} TransitStraight(root: real -> real, ship: Ship, deltaTime: real, n: nat)
    requires IsRoot(root) && deltaTime > 0.0 && ship.status.InTransit? && ToGo(root, ship) > 0.0
    requires Travels(root, ship, deltaTime, n).status == ship.status
    ensures OnWay(root, ship.position, Travels(root, ship, deltaTime, n))
  {
    if n == 0 {
      OnWayAtStart(root, ship);
    } else {
      UnderWayBefore(root, ship, deltaTime, n - 1);
      StepsNotLonger(root, ship, deltaTime, n - 1);
      TransitStraight(root, ship, deltaTime, n - 1);
      hide OnWay, Travel, IsRoot;
      PhaseStraight(root, ship.position, Travels(root, ship, deltaTime, n - 1), deltaTime);
    }
  }

  lemma RestsOnceIdle(root: real -> real, ship: Ship, deltaTime: real)
    requires deltaTime >= 0.0
    ensures ship.status == Idle ==> Travel(root, ship, deltaTime).status == Idle
  {
  }

  lemma UnderWayBefore(root: real -> real, ship: Ship, deltaTime: real, n: nat)
    requires IsRoot(root) && deltaTime > 0.0 && ship.status.InTransit? && Travels(root, ship, deltaTime, n + 1).status == ship.status
    ensures Travels(root, ship, deltaTime, n).status == ship.status
  {
    TransitBounds(root, ship, deltaTime, n);
    var s := Travels(root, ship, deltaTime, n);
    RestsOnceIdle(root, s, deltaTime);
    hide Travel, IsRoot, DistanceTo, FullStep, SlowStep;
  }

  lemma StepsNotLonger(root: real -> real, ship: Ship, deltaTime: real, n: nat)
    requires IsRoot(root) && deltaTime > 0.0 && ship.status.InTransit? && ToGo(root, ship) > 0.0
    requires Travels(root, ship, deltaTime, n).status == ship.status
    ensures var t := Travels(root, ship, deltaTime, n); 0.0 < ToGo(root, t) <= ToGo(root, ship)
  {
    TransitBounds(root, ship, deltaTime, n);
    StepsBetween(ship, deltaTime);
    hide ToGo, IsRoot, SlowStep, FullStep;
    if n > 0 {
      StepsOrdered(0, n, SlowStep(ship.shipClass, deltaTime));
    }
  }

  /** One more phase on the straight way from `p`. */
  lemma PhaseStraight(root: real -> real, p: Position, s: Ship, deltaTime: real)
    requires IsRoot(root) && deltaTime > 0.0 && s.status.InTransit? && Travel(root, s, deltaTime).status == s.status
    requires 0.0 < ToGo(root, s) <= DistanceTo(root, p, s.status.destination) && OnWay(root, p, s)
    ensures OnWay(root, p, Travel(root, s, deltaTime))
  {
    var (t, target, step) := (Travel(root, s, deltaTime), s.status.destination, Times(DistancePerTick(s, deltaTime), deltaTime));
    var d := DistanceTo(root, p, target);
    StepsBetween(s, deltaTime);
    TravelStep(root, s, deltaTime);
    assert t.position == MoveTowards(root, s.position, target, step) by { TravelMoves(root, s, deltaTime); }
    hide IsRoot, DistanceTo, MoveTowards, Along, Travel, Times, DistancePerTick, OnlyTravels, Burns;
    StepOnWay(root, p, target, s.position, d - ToGo(root, s), step);
  }

  lemma TravelMoves(root: real -> real, s: Ship, deltaTime: real)
    requires deltaTime > 0.0 && s.status.InTransit? && Travel(root, s, deltaTime).status == s.status
    ensures var step := Times(DistancePerTick(s, deltaTime), deltaTime);
            step >= 0.0 && Travel(root, s, deltaTime).position == MoveTowards(root, s.position, s.status.destination, step)
  {
    StepsBetween(s, deltaTime);
    hide Times, Stats, DistanceTo, MoveTowards;
  }

  lemma TimesZero(d: real)
    ensures Times(d, 0.0) == 0.0
  {
  }

  /** Whatever fuel is left, a ship at distance D > 0 is at its destination after ceil(D / slow) phases, and
      is still under way after fewer than ceil(D / full). */
  lemma TransitArrives(root: real -> real, ship: Ship, deltaTime: real, n: nat)
    requires IsRoot(root) && deltaTime > 0.0 && ship.status.InTransit? && ToGo(root, ship) > 0.0
    ensures StepsBounds(ship, deltaTime)
    ensures var t, d := Travels(root, ship, deltaTime, n), ToGo(root, ship);
            && (n >= Ceiling(d / SlowStep(ship.shipClass, deltaTime)) ==> t.status == Idle && t.position == ship.status.destination)
            && (n < Ceiling(d / FullStep(ship.shipClass, deltaTime)) ==> t.status == ship.status && ToGo(root, t) > 0.0)
  {
    var d, slow, full := ToGo(root, ship), SlowStep(ship.shipClass, deltaTime), FullStep(ship.shipClass, deltaTime);
    StepsBetween(ship, deltaTime);
    TransitBounds(root, ship, deltaTime, n);
    CeilingBounds(d, slow);
    CeilingBounds(d, full);
    hide Ceiling, Travels, ToGo, IsRoot, SlowStep, FullStep;
    if n >= Ceiling(d / slow) {
      StepsOrdered(Ceiling(d / slow), n, slow);
    }
    if n < Ceiling(d / full) {
      StepsOrdered(n, Ceiling(d / full) - 1, full);
    }
  }

  predicate StepsBounds(ship: Ship, deltaTime: real) {
    SlowStep(ship.shipClass, deltaTime) > 0.0 && FullStep(ship.shipClass, deltaTime) > 0.0
  }

  // ---------- a sector's tick ----------

  /** In a tick of a sector exactly the ships that are under way in it travel, whatever else happens there:
      combat moves nobody, and no other ship anywhere moves or burns fuel. */
  lemma TickMoves(root: real -> real, p: Playtest, t: Tick, id: Id)
    requires IsRoot(root) && t.deltaTime > 0.0 && IndexExact(p.world) && t.sector in p.world.sectors
    requires id in SectorTick(root, p, t).world.ships
    ensures id in p.world.ships
    ensures var (ship, after) := (p.world.ships[id], SectorTick(root, p, t).world.ships[id]);
            if ship.sectorId == t.sector && ship.status.InTransit? then Travelled(root, ship, after, t.deltaTime)
            else after.position == ship.position && after.fuel == ship.fuel
  {
    var moved := p.(world := MovementPhase(root, p.world, t.sector, t.deltaTime));
    assert moved.world.ships.Keys == p.world.ships.Keys;
    assert id in p.world.sectors[t.sector].shipIds <==> id in p.world.ships && p.world.ships[id].sectorId == t.sector;
    hide Travel, CombatRound, IndexExact;
    if t.number % COMBAT_INTERVAL == 0 {
      RoundStands(moved, t.sector, t.order, id);
    }
    var (ship, between) := (p.world.ships[id], moved.world.ships[id]);
    if ship.sectorId == t.sector && ship.status.InTransit? {
      TravelStep(root, ship, t.deltaTime);
      assert Travelled(root, ship, between, t.deltaTime) && !between.status.InCombat?;
      hide Travelled, BringsDown;
      NoFighterNoChange(moved.world, t.sector, t.order, id);
      SameTravel(root, ship, between, SectorTick(root, p, t).world.ships[id], t.deltaTime);
    } else if !ship.status.InTransit? {
      StaysPut(root, ship, t.deltaTime);
    }
  }

  lemma NoFighterNoChange(w: World, s: Id, order: seq<Id>, id: Id)
    requires id in w.ships && !w.ships[id].status.InCombat?
    ensures !BroughtDown(w, s, order, |order|, id)
  {
  }

  lemma SameTravel(root: real -> real, ship: Ship, a: Ship, b: Ship, deltaTime: real)
    requires ship.status.InTransit? && Travelled(root, ship, a, deltaTime)
    requires b.position == a.position && b.fuel == a.fuel && b.status == a.status
    ensures Travelled(root, ship, b, deltaTime)
  {
  }

  lemma StaysPut(root: real -> real, ship: Ship, deltaTime: real)
    requires deltaTime >= 0.0 && !ship.status.InTransit?
    ensures Travel(root, ship, deltaTime) == ship
  {
  }
}
