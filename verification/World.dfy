/** The mutable game state that scripts act on, and what one script mutation does to it. The live
    server (state.rs) and a playtest (state_provider.rs) each interpret mutations on their own copy. */
module World {
  import opened Prelude
  import opened Ships
  import CargoHold

  /** The nil id, which is no sector. */
  const NIL: Id := 0

  datatype Player = Player(id: Id, reputation: int, fame: int, credits: int, squadronId: Option<Id>)
  datatype Location = Location(id: Id, name: string)

  datatype MissionStatus = Available | InProgress | Completed(success: bool) | Expired | Abandoned
  datatype Mission = Mission(title: string, status: MissionStatus, expiresAt: Option<int>)

  /** A sector with its ship index. */
  datatype Sector = Sector(id: Id, locations: seq<Location>, shipIds: set<Id>, missions: map<Id, Mission>)

  datatype World = World(ships: map<Id, Ship>, players: map<Id, Player>, sectors: map<Id, Sector>)

  // ---------- mutations ----------

  datatype StatusChange = BecomeIdle | StartTransit(destination: Position, targetId: Option<Id>) | BecomeDisabled

  /** The scripting function for a load passes its quantity on as it is, zero included. */
  datatype CargoChange = CargoChange(cargoType: CargoType, quantity: nat, price: int)

  datatype ShipChanges = ShipChanges(
    hull: Option<real>, shields: Option<real>, ammunition: Option<real>, fuel: Option<real>, morale: Option<real>,
    experience: Option<int>, position: Option<Position>, status: Option<StatusChange>, stance: Option<string>,
    lockedTarget: Option<Option<Id>>, addCargo: Option<CargoChange>, removeCargo: Option<CargoChange>,
    installUpgrade: Option<InstalledUpgrade>, removeUpgradeSlot: Option<string>)

  datatype PlayerChanges = PlayerChanges(
    reputation: Option<int>, fame: Option<int>, reputationDelta: Option<int>, fameDelta: Option<int>,
    credits: Option<int>, creditsDelta: Option<int>)

  datatype SpawnConfig = SpawnConfig(name: string, shipClass: ShipClass, sectorId: Id, position: Position, factionId: Option<Id>)

  datatype EntityType = ShipEntity | MissionEntity | StationEntity | SectorEntity

  /** `Announce` stands for events, notifications, choices and broadcasts: they change no state. */
  datatype Mutation =
    | ModifyShip(shipId: Id, changes: ShipChanges)
    | ModifyPlayer(playerId: Id, playerChanges: PlayerChanges)
    | SpawnShip(config: SpawnConfig)
    | DestroyEntity(entityId: Id, entityType: EntityType)
    | Announce

  /** A panic is no result that the program returns: it ends the call, and the list that the mutation is in. */
  datatype MutationResult = Done(created: Option<Id>) | Refused(error: string) | Panicked

  // ---------- changes to one ship or player ----------

  function Clamp(x: real, lo: real, hi: real): real {
    if x < lo then lo else if x > hi then hi else x
  }

  function Percent(change: Option<real>, current: real): real {
    match change
    case Some(x) => Clamp(x, 0.0, 100.0)
    case None => current
  }

  function ToLower(s: string): string {
    seq(|s|, i requires 0 <= i < |s| => if 'A' <= s[i] <= 'Z' then s[i] - 'A' + 'a' else s[i])
  }

  function StanceOf(s: string): CombatStance {
    var t := ToLower(s);
    if t == "aggressive" then Aggressive
    else if t == "defensive" then Defensive
    else if t == "evasive" then Evasive
    else Balanced
  }

  function StatusOf(c: StatusChange): ShipStatus {
    match c
    case BecomeIdle => Idle
    case StartTransit(destination, targetId) => InTransit(destination, targetId)
    case BecomeDisabled => Disabled
  }

  function Load(s: Ship, c: CargoChange): AddOutcome {
    AddCargo(s.cargo, Stats(s.shipClass).cargoCapacity, c.cargoType, c.quantity, c.price)
  }

  /** The load divides by zero. */
  predicate Panics(s: Ship, c: ShipChanges) {
    c.addCargo.Some? && Load(s, c.addCargo.value).DivisionByZero?
  }

  /** What scripts cannot change about a ship. */
  ghost predicate SameIdentity(s: Ship, t: Ship) {
    && t.id == s.id && t.sectorId == s.sectorId && t.ownerId == s.ownerId && t.isPlayerShip == s.isPlayerShip
    && t.shipClass == s.shipClass && t.name == s.name
  }

  function ChangeValues(s: Ship, c: ShipChanges): (t: Ship)
    ensures SameIdentity(s, t) && t.cargo == s.cargo && t.upgrades == s.upgrades
  {
    s.(hull := Percent(c.hull, s.hull), shield := Percent(c.shields, s.shield),
       ammunition := Percent(c.ammunition, s.ammunition), fuel := Percent(c.fuel, s.fuel),
       morale := Percent(c.morale, s.morale), experience := c.experience.GetOr(s.experience),
       position := c.position.GetOr(s.position),
       status := if c.status.Some? then StatusOf(c.status.value) else s.status,
       stance := if c.stance.Some? then StanceOf(c.stance.value) else s.stance,
       lockedTarget := c.lockedTarget.GetOr(s.lockedTarget))
  }

  function Loaded(s: Ship, c: ShipChanges): seq<CargoItem>
    requires !Panics(s, c)
  {
    if c.addCargo.Some? && Load(s, c.addCargo.value).Added? then Load(s, c.addCargo.value).hold else s.cargo
  }

  function Unloaded(hold: seq<CargoItem>, c: ShipChanges): seq<CargoItem> {
    if c.removeCargo.Some? then RemoveCargo(hold, c.removeCargo.value.cargoType, c.removeCargo.value.quantity).GetOr(hold) else hold
  }

  function ChangeHold(s: Ship, c: ShipChanges): (t: Ship)
    requires !Panics(s, c)
    ensures SameIdentity(s, t) && t.upgrades == s.upgrades
  {
    s.(cargo := Unloaded(Loaded(s, c), c))
  }

  function ChangeSlots(s: Ship, c: ShipChanges): (t: Ship)
    ensures SameIdentity(s, t)
  {
    var s := if c.installUpgrade.Some?
             then s.(upgrades := InstallUpgrade(s.upgrades, c.installUpgrade.value.upgradeId, c.installUpgrade.value.slot))
             else s;
    if c.removeUpgradeSlot.Some? then s.(upgrades := RemoveUpgrade(s.upgrades, c.removeUpgradeSlot.value)) else s
  }

  /** All changes asked for, in the order in which the interpreters look at them. The values are written
      before the hold is looked at, and stay when that panics. */
  function ChangeShip(s: Ship, c: ShipChanges): (t: Ship)
    ensures SameIdentity(s, t)
  {
    var values := ChangeValues(s, c);
    if Panics(values, c) then values else ChangeSlots(ChangeHold(values, c), c)
  }

  function AtLeastZero(x: int): int { if x < 0 then 0 else x }

  /** Rounding to the nearest integer, halves away from zero. */
  function Round(x: real): int {
    if x >= 0.0 then (x + 0.5).Floor else -((-x + 0.5).Floor)
  }

  function FameMultiplier(fame: int): real {
    1.0 + Clamp(fame as real * 0.01, -0.5, 2.0)
  }

  /** Reputation changes are multiplied by fame. */
  function Modified(fame: int, delta: int): int {
    Round(Times(delta as real, FameMultiplier(fame)))
  }

  function ReputationAfter(reputation: int, fame: int, delta: int): int {
    AtLeastZero(reputation + Modified(fame, delta))
  }

  function ChangePlayer(p: Player, c: PlayerChanges): Player {
    var reputation := c.reputation.GetOr(p.reputation);
    var fame := c.fame.GetOr(p.fame);
    var credits := if c.credits.Some? then AtLeastZero(c.credits.value) else p.credits;
    p.(reputation := if c.reputationDelta.Some? then ReputationAfter(reputation, fame, c.reputationDelta.value) else reputation,
       fame := if c.fameDelta.Some? then AtLeastZero(fame + c.fameDelta.value) else fame,
       credits := if c.creditsDelta.Some? then AtLeastZero(credits + c.creditsDelta.value) else credits)
  }

  /** The word, in capitals or not. */
  predicate Spells(s: string, word: string) {
    |s| == |word| && forall i | 0 <= i < |s| :: s[i] == word[i] || ('A' <= s[i] <= 'Z' && s[i] - 'A' + 'a' == word[i])
  }

  /** A stance by its name; every other name is balanced. */
  ghost predicate Spelled(s: string, stance: CombatStance) {
    && (stance == Aggressive <==> Spells(s, "aggressive"))
    && (stance == Defensive <==> Spells(s, "defensive"))
    && (stance == Evasive <==> Spells(s, "evasive"))
  }

  lemma LowerSpells(s: string, word: string)
    requires forall i | 0 <= i < |word| :: 'a' <= word[i] <= 'z'
    ensures ToLower(s) == word <==> Spells(s, word)
  {
    if Spells(s, word) {
      assert forall i | 0 <= i < |s| :: ToLower(s)[i] == word[i];
    } else if |s| == |word| {
      var i :| 0 <= i < |s| && s[i] != word[i] && !('A' <= s[i] <= 'Z' && s[i] - 'A' + 'a' == word[i]);
      assert ToLower(s)[i] != word[i];
    }
  }

  lemma StanceSpelled(s: string)
    ensures Spelled(s, StanceOf(s))
  {
    LowerSpells(s, "aggressive");
    LowerSpells(s, "defensive");
    LowerSpells(s, "evasive");
    assert "defensive"[0] != "evasive"[0];
    hide ToLower, Spells;
  }

  /** What a script may expect of a percentage it set, or did not set. */
  ghost predicate Asked(change: Option<real>, before: real, after: real) {
    match change
    case None => after == before
    case Some(x) => if x < 0.0 then after == 0.0 else if x > 100.0 then after == 100.0 else after == x
  }

  /** Values read back as they were asked for, clamped to 0..100 where they are percentages. */
  ghost predicate ValuesReadBack(s: Ship, c: ShipChanges, t: Ship) {
    && Asked(c.hull, s.hull, t.hull) && Asked(c.shields, s.shield, t.shield)
    && Asked(c.ammunition, s.ammunition, t.ammunition) && Asked(c.fuel, s.fuel, t.fuel)
    && Asked(c.morale, s.morale, t.morale)
    && t.experience == c.experience.GetOr(s.experience) && t.position == c.position.GetOr(s.position)
    && t.lockedTarget == c.lockedTarget.GetOr(s.lockedTarget)
    && (match c.status
        case Some(BecomeIdle) => t.status == Idle
        case Some(StartTransit(destination, targetId)) => t.status == InTransit(destination, targetId)
        case Some(BecomeDisabled) => t.status == Disabled
        case None => t.status == s.status)
    && (match c.stance case Some(asked) => Spelled(asked, t.stance) case None => t.stance == s.stance)
  }

  /** What is held of a type after a load, which is refused as a whole when it does not fit. */
  function AfterLoad(s: Ship, c: Option<CargoChange>, t: CargoType): Option<nat> {
    if c.Some? && c.value.cargoType == t && CargoUsed(s.cargo) + c.value.quantity <= Stats(s.shipClass).cargoCapacity
    then Some(CargoHold.Amount(s.cargo, t) + c.value.quantity)
    else CargoHold.Held(s.cargo, t)
  }

  /** What is left of it after a removal, which is refused as a whole when there is not enough. */
  function AfterUnload(held: Option<nat>, c: Option<CargoChange>, t: CargoType): Option<nat> {
    if c.Some? && c.value.cargoType == t && held.Some? && c.value.quantity <= held.value
    then if c.value.quantity == held.value then None else Some(held.value - c.value.quantity)
    else held
  }

  ghost predicate HoldReadsBack(s: Ship, c: ShipChanges, t: Ship) {
    var capacity := Stats(s.shipClass).cargoCapacity;
    && (c.addCargo.None? && c.removeCargo.None? ==> t.cargo == s.cargo)
    && (CargoHold.Loose(s.cargo, capacity) ==>
          && CargoHold.Loose(t.cargo, capacity)
          && forall k: CargoType :: CargoHold.Held(t.cargo, k) == AfterUnload(AfterLoad(s, c.addCargo, k), c.removeCargo, k))
  }

  /** What is installed in a slot. */
  function InSlot(upgrades: seq<InstalledUpgrade>, slot: string): Option<string> {
    var i := SlotIndex(upgrades, slot);
    if i < |upgrades| then Some(upgrades[i].upgradeId) else None
  }

  ghost predicate SlotsUnique(upgrades: seq<InstalledUpgrade>) {
    forall i, j | 0 <= i < j < |upgrades| :: upgrades[i].slot != upgrades[j].slot
  }

  /** An upgrade goes into a slot that is free, and then a slot may be emptied. */
  ghost predicate SlotsReadBack(s: Ship, c: ShipChanges, t: Ship) {
    && (c.installUpgrade.None? && c.removeUpgradeSlot.None? ==> t.upgrades == s.upgrades)
    && (SlotsUnique(s.upgrades) ==>
          && SlotsUnique(t.upgrades)
          && forall slot: string :: InSlot(t.upgrades, slot) ==
               if c.removeUpgradeSlot == Some(slot) then None
               else if c.installUpgrade.Some? && c.installUpgrade.value.slot == slot && InSlot(s.upgrades, slot).None?
               then Some(c.installUpgrade.value.upgradeId)
               else InSlot(s.upgrades, slot))
  }

  lemma ValuesChanged(s: Ship, c: ShipChanges)
    ensures ValuesReadBack(s, c, ChangeValues(s, c))
  {
    if c.stance.Some? {
      StanceSpelled(c.stance.value);
    }
    hide StanceOf, Spelled;
  }

  lemma CargoLoaded(s: Ship, c: ShipChanges)
    requires CargoHold.Loose(s.cargo, Stats(s.shipClass).cargoCapacity) && !Panics(s, c)
    ensures CargoHold.Loose(Loaded(s, c), Stats(s.shipClass).cargoCapacity)
    ensures forall k: CargoType :: CargoHold.Held(Loaded(s, c), k) == AfterLoad(s, c.addCargo, k)
  {
    hide Stats, CargoUsed, AddCargo, CargoHold.Held, CargoHold.Amount, CargoHold.Loose;
    if c.addCargo.Some? {
      var load := c.addCargo.value;
      CargoHold.AddKeepsLoose(s.cargo, Stats(s.shipClass).cargoCapacity, load.cargoType, load.quantity, load.price);
    }
  }

  lemma CargoUnloaded(hold: seq<CargoItem>, capacity: nat, c: ShipChanges)
    requires CargoHold.Loose(hold, capacity)
    ensures CargoHold.Loose(Unloaded(hold, c), capacity)
    ensures forall k: CargoType :: CargoHold.Held(Unloaded(hold, c), k) == AfterUnload(CargoHold.Held(hold, k), c.removeCargo, k)
  {
    hide CargoUsed, RemoveCargo, CargoHold.Held, CargoHold.Loose;
    if c.removeCargo.Some? {
      CargoHold.RemoveKeepsLoose(hold, capacity, c.removeCargo.value.cargoType, c.removeCargo.value.quantity);
    }
  }

  lemma HoldChanged(s: Ship, c: ShipChanges)
    requires !Panics(s, c)
    ensures HoldReadsBack(s, c, ChangeHold(s, c))
  {
    var capacity := Stats(s.shipClass).cargoCapacity;
    if CargoHold.Loose(s.cargo, capacity) {
      hide Stats, Loaded, Unloaded, CargoHold.Held, CargoHold.Loose, AfterLoad, AfterUnload;
      CargoLoaded(s, c);
      CargoUnloaded(Loaded(s, c), capacity, c);
    }
  }

  /** A change panics exactly when it loads nothing of a type that is held in an empty item. */
  lemma PanicsExactly(s: Ship, c: ShipChanges)
    requires CargoHold.Loose(s.cargo, Stats(s.shipClass).cargoCapacity)
    ensures Panics(s, c) <==> c.addCargo.Some? && c.addCargo.value.quantity == 0 && CargoHold.Held(s.cargo, c.addCargo.value.cargoType) == Some(0)
  {
    if c.addCargo.Some? {
      var load := c.addCargo.value;
      CargoHold.AddKeepsLoose(s.cargo, Stats(s.shipClass).cargoCapacity, load.cargoType, load.quantity, load.price);
    }
    hide Stats, AddCargo, CargoHold.Held;
  }

  lemma {:induction false} SlotFound(upgrades: seq<InstalledUpgrade>, slot: string)
    ensures var i := SlotIndex(upgrades, slot);
            && (i < |upgrades| ==> upgrades[i].slot == slot)
            && forall j | 0 <= j < i :: upgrades[j].slot != slot
  {
    if upgrades != [] {
      SlotFound(upgrades[1..], slot);
    }
  }

  /** Where slots are unique, an installed upgrade is the one in its slot. */
  lemma SlotHolds(upgrades: seq<InstalledUpgrade>, i: nat)
    requires SlotsUnique(upgrades) && i < |upgrades|
    ensures InSlot(upgrades, upgrades[i].slot) == Some(upgrades[i].upgradeId)
  {
    SlotFound(upgrades, upgrades[i].slot);
  }

  lemma Installed(upgrades: seq<InstalledUpgrade>, u: InstalledUpgrade)
    requires SlotsUnique(upgrades)
    ensures var after := InstallUpgrade(upgrades, u.upgradeId, u.slot);
            && SlotsUnique(after)
            && forall slot: string :: InSlot(after, slot) ==
                 if slot == u.slot && InSlot(upgrades, slot).None? then Some(u.upgradeId) else InSlot(upgrades, slot)
  {
    hide SlotIndex;
    var after := InstallUpgrade(upgrades, u.upgradeId, u.slot);
    SlotFound(upgrades, u.slot);
    forall slot: string ensures InSlot(after, slot) ==
      if slot == u.slot && InSlot(upgrades, slot).None? then Some(u.upgradeId) else InSlot(upgrades, slot)
    {
      SlotFound(upgrades, slot);
      SlotFound(after, slot);
      var k := SlotIndex(upgrades, slot);
      if k < |upgrades| {
        assert after[k] == upgrades[k];
        SlotHolds(after, k);
      } else if slot == u.slot {
        SlotHolds(after, |upgrades|);
      }
    }
  }

  lemma Removed(upgrades: seq<InstalledUpgrade>, gone: string)
    requires SlotsUnique(upgrades)
    ensures var after := RemoveUpgrade(upgrades, gone);
            && SlotsUnique(after)
            && forall slot: string :: InSlot(after, slot) == if slot == gone then None else InSlot(upgrades, slot)
  {
    hide SlotIndex;
    var (i, after) := (SlotIndex(upgrades, gone), RemoveUpgrade(upgrades, gone));
    SlotFound(upgrades, gone);
    forall slot: string ensures InSlot(after, slot) == if slot == gone then None else InSlot(upgrades, slot) {
      SlotFound(upgrades, slot);
      SlotFound(after, slot);
      var k := SlotIndex(upgrades, slot);
      if k < |upgrades| && slot != gone && i < |upgrades| {
        var n := if k < i then k else k - 1;
        assert after[n] == upgrades[k];
        SlotHolds(after, n);
      }
    }
  }

  lemma SlotsChanged(s: Ship, c: ShipChanges)
    ensures SlotsReadBack(s, c, ChangeSlots(s, c))
  {
    if SlotsUnique(s.upgrades) {
      hide InstallUpgrade, RemoveUpgrade, InSlot, SlotsUnique;
      var installed := if c.installUpgrade.Some?
                       then InstallUpgrade(s.upgrades, c.installUpgrade.value.upgradeId, c.installUpgrade.value.slot) else s.upgrades;
      if c.installUpgrade.Some? {
        Installed(s.upgrades, c.installUpgrade.value);
      }
      if c.removeUpgradeSlot.Some? {
        Removed(installed, c.removeUpgradeSlot.value);
      }
    }
  }

  lemma ValuesDoNotPanic(s: Ship, c: ShipChanges)
    ensures Panics(ChangeValues(s, c), c) == Panics(s, c)
  {
    hide ChangeValues;
  }

  /** A modified ship reads back everything that was asked for, and keeps the rest. When the change panics,
      hold and slots are as before. */
  lemma ModifyReadsBack(s: Ship, c: ShipChanges)
    ensures var t := ChangeShip(s, c);
            && ValuesReadBack(s, c, t)
            && if Panics(s, c) then t.cargo == s.cargo && t.upgrades == s.upgrades
               else HoldReadsBack(s, c, t) && SlotsReadBack(s, c, t)
  {
    var values := ChangeValues(s, c);
    ValuesChanged(s, c);
    assert Panics(values, c) == Panics(s, c) by { ValuesDoNotPanic(s, c); }
    if !Panics(s, c) {
      var hold := ChangeHold(values, c);
      HoldChanged(values, c);
      SlotsChanged(hold, c);
      LaterChangesKeep(s, c);
      hide ChangeValues, ChangeHold, ChangeSlots, Panics, Asked, StatusOf, StanceOf, CargoHold.Loose, CargoHold.Held, CargoHold.Amount,
           SlotsUnique, InSlot, CargoUsed, Stats;
    }
  }

  /** Hold and slots are changed after the values, and apart from each other. */
  lemma LaterChangesKeep(s: Ship, c: ShipChanges)
    requires !Panics(ChangeValues(s, c), c)
    ensures var (values, t) := (ChangeValues(s, c), ChangeShip(s, c));
            && t == values.(cargo := t.cargo, upgrades := t.upgrades)
            && t.cargo == ChangeHold(values, c).cargo && ChangeHold(values, c).upgrades == s.upgrades
  {
    hide ChangeValues, Loaded, Unloaded, InstallUpgrade, RemoveUpgrade, Stats;
  }

  /** A value that is changed by a delta, if one is asked for, and kept from falling below zero then. */
  ghost predicate Adjusted(base: int, delta: Option<int>, after: int) {
    match delta
    case None => after == base
    case Some(d) => if base + d >= 0 then after == base + d else after == 0
  }

  /** What fame makes of a change of reputation, in hundredths. */
  function Hundredths(fame: int): int {
    if fame < -50 then 50 else if fame > 200 then 300 else 100 + fame
  }

  /** `x` is the integer closest to `change` hundredths, and of two the one further from zero. */
  ghost predicate Nearest(x: int, change: int) {
    && -50 <= 100 * x - change <= 50
    && (100 * x - change == 50 ==> x > 0) && (100 * x - change == -50 ==> x < 0)
  }

  lemma MultiplierInHundredths(fame: int)
    ensures FameMultiplier(fame) * 100.0 == Hundredths(fame) as real
    ensures 0.5 <= FameMultiplier(fame) <= 3.0
  {
  }

  lemma ProductAsReal(a: int, b: nat)
    ensures (a * b) as real == a as real * b as real
  {
    if b > 0 {
      ProductAsReal(a, b - 1);
      assert a * b == a * (b - 1) + a;
      assert a as real * b as real == a as real * (b - 1) as real + a as real;
    }
  }

  lemma RoundIsNearest(y: real, change: int)
    requires y * 100.0 == change as real
    ensures Nearest(Round(y), change)
  {
    var x := Round(y);
    if y >= 0.0 {
      assert x as real <= y + 0.5 < x as real + 1.0;
      assert -50.0 < 100.0 * x as real - 100.0 * y <= 50.0;
    } else {
      assert -x as real <= -y + 0.5 < -x as real + 1.0;
      assert -50.0 <= 100.0 * x as real - 100.0 * y < 50.0;
    }
    assert 100.0 * x as real - 100.0 * y == (100 * x - change) as real;
  }

  /** The change is the delta times one and a hundredth per point of fame, but no less than half and no more
      than three times the delta, rounded. */
  lemma ModifiedIs(fame: int, delta: int)
    ensures Nearest(Modified(fame, delta), Scaled(delta, Hundredths(fame)))
  {
    var y := Times(delta as real, FameMultiplier(fame));
    MultiplierInHundredths(fame);
    ProductAsReal(delta, Hundredths(fame));
    assert y * 100.0 == delta as real * (FameMultiplier(fame) * 100.0);
    hide FameMultiplier, Hundredths, Round, Times, Nearest;
    RoundIsNearest(y, delta * Hundredths(fame));
  }

  function Scaled(delta: int, hundredths: int): int { delta * hundredths }

  lemma ScaledOrdered(a: int, b: int, h: int, k: int)
    requires a <= b && 0 <= h <= k
    ensures Scaled(a, h) <= Scaled(b, h)
    ensures a >= 0 ==> Scaled(a, h) <= Scaled(a, k)
    ensures a <= 0 ==> Scaled(a, k) <= Scaled(a, h)
    ensures Scaled(a, 50) == 50 * a && Scaled(a, 100) == 100 * a && Scaled(a, 300) == 300 * a
  {
    assert (b - a) * h >= 0;
    if a >= 0 { assert a * (k - h) >= 0; }
    if a <= 0 { assert -a * (k - h) >= 0; }
  }

  lemma NearestOrdered(x: int, y: int, a: int, b: int)
    requires Nearest(x, a) && Nearest(y, b) && a <= b
    ensures x <= y
  {
  }

  /** What a script may rely on: without fame a change is what it asks for, and a larger one never leaves less. */
  lemma ReputationOrdered(fame: int, delta: int, more: int)
    requires delta <= more
    ensures Modified(0, delta) == delta
    ensures Modified(fame, delta) <= Modified(fame, more)
  {
    ModifiedIs(0, delta);
    ModifiedIs(fame, delta);
    ModifiedIs(fame, more);
    var h := Hundredths(fame);
    assert 50 <= h && Hundredths(0) == 100;
    hide Modified, Hundredths, Scaled;
    ScaledOrdered(delta, more, h, h);
    NearestOrdered(Modified(fame, delta), Modified(fame, more), Scaled(delta, h), Scaled(more, h));
  }

  lemma GainWithin(x: int, change: int, delta: int)
    requires Nearest(x, change) && delta >= 0 && 50 * delta <= change <= 300 * delta
    ensures delta <= 2 * x <= 6 * delta
  {
    assert 50 * (2 * x - delta) >= -50 && 2 * x - delta >= -1;
    assert 100 * (x - 3 * delta) <= 50 && x - 3 * delta <= 0;
  }

  lemma NearestNegated(x: int, change: int)
    requires Nearest(x, change)
    ensures Nearest(-x, -change)
  {
  }

  /** Fame makes gains larger and losses worse. */
  lemma FameAmplifies(fame: int, famous: int, delta: int)
    requires fame <= famous
    ensures if delta >= 0 then Modified(fame, delta) <= Modified(famous, delta) else Modified(famous, delta) <= Modified(fame, delta)
  {
    ModifiedIs(fame, delta);
    ModifiedIs(famous, delta);
    var (h, k) := (Hundredths(fame), Hundredths(famous));
    assert 0 <= h <= k;
    hide Modified, Hundredths, Scaled;
    ScaledOrdered(delta, delta, h, k);
    hide Nearest;
    if delta >= 0 {
      NearestOrdered(Modified(fame, delta), Modified(famous, delta), Scaled(delta, h), Scaled(delta, k));
    } else {
      NearestOrdered(Modified(famous, delta), Modified(fame, delta), Scaled(delta, k), Scaled(delta, h));
    }
  }

  /** But to no less than half and no more than three times what was asked for. */
  lemma FameWithin(fame: int, delta: int)
    ensures if delta >= 0 then delta <= 2 * Modified(fame, delta) <= 6 * delta else 6 * delta <= 2 * Modified(fame, delta) <= delta
  {
    ModifiedIs(fame, delta);
    var h := Hundredths(fame);
    assert 50 <= h <= 300;
    hide Modified, Hundredths, Scaled, Nearest;
    ScaledOrdered(delta, delta, 50, h);
    ScaledOrdered(delta, delta, h, 300);
    if delta >= 0 {
      GainWithin(Modified(fame, delta), Scaled(delta, h), delta);
    } else {
      NearestNegated(Modified(fame, delta), Scaled(delta, h));
      GainWithin(-Modified(fame, delta), -Scaled(delta, h), -delta);
    }
  }

  /** A modified player reads back what was asked for: values are set first and changed by their deltas then,
      and nothing else changes. Scripts cannot put a player into debt. */
  lemma PlayerReadsBack(p: Player, c: PlayerChanges)
    ensures var q := ChangePlayer(p, c);
            var fame := c.fame.GetOr(p.fame);
            && q == p.(reputation := q.reputation, fame := q.fame, credits := q.credits)
            && Adjusted(fame, c.fameDelta, q.fame)
            && Adjusted(match c.credits case None => p.credits case Some(v) => if v >= 0 then v else 0, c.creditsDelta, q.credits)
            && (match c.reputationDelta
                case None => q.reputation == c.reputation.GetOr(p.reputation)
                case Some(d) => exists x :: Nearest(x, Scaled(d, Hundredths(fame))) && Adjusted(c.reputation.GetOr(p.reputation), Some(x), q.reputation))
            && (p.credits >= 0 || c.credits.Some? || c.creditsDelta.Some? ==> q.credits >= 0)
  {
    var fame := c.fame.GetOr(p.fame);
    if c.reputationDelta.Some? {
      ModifiedIs(fame, c.reputationDelta.value);
    }
    hide Modified, Hundredths, Nearest;
  }

  // ---------- one mutation ----------

  /** The first sector of an iteration that has the mission. */
  function SectorWithMission(sectors: map<Id, Sector>, order: seq<Id>, mission: Id): Option<Id> {
    if order == [] then None
    else if order[0] in sectors && mission in sectors[order[0]].missions then Some(order[0])
    else SectorWithMission(sectors, order[1..], mission)
  }

  predicate Lists(locations: seq<Location>, location: Id) {
    exists i :: 0 <= i < |locations| && locations[i].id == location
  }

  predicate HasLocation(s: Sector, location: Id) {
    Lists(s.locations, location)
  }

  function SectorWithLocation(sectors: map<Id, Sector>, order: seq<Id>, location: Id): Option<Id> {
    if order == [] then None
    else if order[0] in sectors && HasLocation(sectors[order[0]], location) then Some(order[0])
    else SectorWithLocation(sectors, order[1..], location)
  }

  function WithoutLocation(locations: seq<Location>, location: Id): seq<Location> {
    if locations == [] then []
    else
      var rest := WithoutLocation(locations[..|locations| - 1], location);
      if locations[|locations| - 1].id != location then rest + [locations[|locations| - 1]] else rest
  }

  function Unindex(sectors: map<Id, Sector>, sector: Id, ship: Id): map<Id, Sector> {
    if sector in sectors then sectors[sector := sectors[sector].(shipIds := sectors[sector].shipIds - {ship})] else sectors
  }

  function Index(sectors: map<Id, Sector>, sector: Id, ship: Id): map<Id, Sector> {
    if sector in sectors then sectors[sector := sectors[sector].(shipIds := sectors[sector].shipIds + {ship})] else sectors
  }

  /** Ships whose sector disappears end up in no sector. */
  function Strand(ships: map<Id, Ship>, ids: set<Id>): map<Id, Ship> {
    map id | id in ships :: if id in ids then ships[id].(sectorId := NIL) else ships[id]
  }

  /** One mutation. `order` is the order in which the sectors are iterated, `newId` the id a spawn draws. */
  function Step(w: World, m: Mutation, order: seq<Id>, newId: Id): (World, MutationResult) {
    match m
    case ModifyShip(id, changes) =>
      if id in w.ships then
        (w.(ships := w.ships[id := ChangeShip(w.ships[id], changes)]), if Panics(w.ships[id], changes) then Panicked else Done(None))
      else (w, Refused("Ship not found"))
    case ModifyPlayer(id, changes) =>
      if id in w.players then (w.(players := w.players[id := ChangePlayer(w.players[id], changes)]), Done(None))
      else (w, Refused("Player not found"))
    case SpawnShip(c) =>
      var ship := NewNpcShip(newId, c.name, c.shipClass, c.sectorId, c.position, c.factionId);
      (w.(ships := w.ships[newId := ship], sectors := Index(w.sectors, c.sectorId, newId)), Done(Some(newId)))
    case DestroyEntity(id, ShipEntity) =>
      if id in w.ships then
        (w.(ships := w.ships - {id}, sectors := Unindex(w.sectors, w.ships[id].sectorId, id)), Done(None))
      else (w, Refused("Ship not found"))
    case DestroyEntity(id, MissionEntity) =>
      (match SectorWithMission(w.sectors, order, id)
       case Some(s) =>
         if s in w.sectors then
           (w.(sectors := w.sectors[s := w.sectors[s].(missions := w.sectors[s].missions - {id})]), Done(None))
         else (w, Refused("Mission not found"))
       case None => (w, Refused("Mission not found")))
    case DestroyEntity(id, StationEntity) =>
      (match SectorWithLocation(w.sectors, order, id)
       case Some(s) =>
         if s in w.sectors then
           (w.(sectors := w.sectors[s := w.sectors[s].(locations := WithoutLocation(w.sectors[s].locations, id))]), Done(None))
         else (w, Refused("Station not found"))
       case None => (w, Refused("Station not found")))
    case DestroyEntity(id, SectorEntity) =>
      if id in w.sectors then
        (w.(ships := Strand(w.ships, w.sectors[id].shipIds), sectors := w.sectors - {id}), Done(None))
      else (w, Refused("Sector not found"))
    case Announce => (w, Done(None))
  }

  lemma ListsSnoc(front: seq<Location>, last: Location, x: Id)
    ensures Lists(front + [last], x) <==> Lists(front, x) || last.id == x
  {
    var all := front + [last];
    if i :| 0 <= i < |front| && front[i].id == x {
      assert all[i].id == x;
    }
    assert all[|front|] == last;
  }

  /** Filtering drops the location and nothing else, and shortens the list exactly when it was there. */
  lemma {:induction false} WithoutLocationDrops(locations: seq<Location>, x: Id)
    ensures var kept := WithoutLocation(locations, x);
            && (forall y :: Lists(kept, y) <==> y != x && Lists(locations, y))
            && (if Lists(locations, x) then |kept| < |locations| else kept == locations)
  {
    hide Lists;
    if locations == [] {
      assert forall y :: !Lists([], y) by { NothingListed(); }
    } else {
      var (front, last) := (locations[..|locations| - 1], locations[|locations| - 1]);
      WithoutLocationDrops(front, x);
      assert locations == front + [last];
      forall y: Id ensures Lists(WithoutLocation(locations, x), y) <==> y != x && Lists(locations, y) {
        ListsSnoc(front, last, y);
        ListsSnoc(WithoutLocation(front, x), last, y);
      }
      ListsSnoc(front, last, x);
    }
  }

  // ---------- what a mutation leaves as it was ----------

  /** Only one sector changes, and in it what is said. */
  ghost predicate OnlySector(w: World, after: World, s: Id, changed: Sector) {
    s in w.sectors && after == w.(sectors := after.sectors) && after.sectors.Keys == w.sectors.Keys
    && after.sectors[s] == changed && forall k | k in w.sectors && k != s :: after.sectors[k] == w.sectors[k]
  }

  ghost predicate HasMission(w: World, s: Id, x: Id) {
    s in w.sectors && x in w.sectors[s].missions
  }

  ghost predicate LosesMission(w: World, after: World, s: Id, x: Id) {
    && HasMission(w, s, x)
    && OnlySector(w, after, s, w.sectors[s].(missions := map k | k in w.sectors[s].missions && k != x :: w.sectors[s].missions[k]))
  }

  /** A location leaves a sector, and no other of its locations does. */
  ghost predicate LosesLocation(w: World, after: World, s: Id, x: Id) {
    && s in w.sectors && HasLocation(w.sectors[s], x) && s in after.sectors
    && OnlySector(w, after, s, w.sectors[s].(locations := after.sectors[s].locations))
    && forall y :: HasLocation(after.sectors[s], y) <==> y != x && HasLocation(w.sectors[s], y)
  }

  /** A refused mutation changes nothing, and only a spawn reports an id. */
  lemma RefusedChangesNothing(w: World, m: Mutation, order: seq<Id>, newId: Id)
    ensures var (after, r) := Step(w, m, order, newId);
            && (r.Refused? ==> after == w)
            && (r.Done? ==> r.created == if m.SpawnShip? then Some(newId) else None)
  {
    hide ChangeShip, ChangePlayer, NewNpcShip, Panics, Strand, WithoutLocation, SectorWithMission, SectorWithLocation;
  }

  /** Modifying a ship or a player is refused exactly when there is none, and changes no other. */
  lemma ModifyTouchesOne(w: World, m: Mutation, order: seq<Id>, newId: Id)
    ensures var (after, r) := Step(w, m, order, newId);
            && (m.ModifyShip? ==>
                  && after == w.(ships := after.ships) && after.ships.Keys == w.ships.Keys
                  && (forall k | k in w.ships && k != m.shipId :: after.ships[k] == w.ships[k])
                  && if m.shipId !in w.ships then r.Refused?
                     else after.ships[m.shipId] == ChangeShip(w.ships[m.shipId], m.changes)
                          && r == if Panics(w.ships[m.shipId], m.changes) then Panicked else Done(None))
            && (m.ModifyPlayer? ==>
                  && after == w.(players := after.players) && after.players.Keys == w.players.Keys
                  && (forall k | k in w.players && k != m.playerId :: after.players[k] == w.players[k])
                  && if m.playerId !in w.players then r.Refused?
                     else r == Done(None) && after.players[m.playerId] == ChangePlayer(w.players[m.playerId], m.playerChanges))
  {
    hide ChangeShip, ChangePlayer, Panics, NewNpcShip;
  }

  /** Removing a mission or a station is refused exactly when no sector has it, and otherwise takes it out of
      one sector that has it. */
  lemma RemovalTakesOne(w: World, m: Mutation, order: seq<Id>, newId: Id)
    requires m.DestroyEntity? && Enumerates(order, w.sectors.Keys)
    ensures var (after, r) := Step(w, m, order, newId);
            && (m.entityType == MissionEntity ==>
                  if r.Done? then exists s :: LosesMission(w, after, s, m.entityId)
                  else r.Refused? && forall s :: !HasMission(w, s, m.entityId))
            && (m.entityType == StationEntity ==>
                  if r.Done? then exists s :: LosesLocation(w, after, s, m.entityId)
                  else r.Refused? && forall s | s in w.sectors :: !HasLocation(w.sectors[s], m.entityId))
  {
    hide Strand, WithoutLocation, Lists, SectorWithMission, SectorWithLocation;
    var (after, id) := (Step(w, m, order, newId).0, m.entityId);
    match m.entityType
    case MissionEntity =>
      SectorWithMissionFound(w.sectors, order, id);
      var found := SectorWithMission(w.sectors, order, id);
      if found.Some? {
        assert LosesMission(w, after, found.value, id);
      }
    case StationEntity =>
      SectorWithLocationFound(w.sectors, order, id);
      var found := SectorWithLocation(w.sectors, order, id);
      if found.Some? {
        WithoutLocationDrops(w.sectors[found.value].locations, id);
        assert LosesLocation(w, after, found.value, id);
      }
    case _ =>
  }

  /** Removing a sector is refused exactly when there is none; otherwise the ships that were in it are in no
      sector, and nothing else about them, and no other ship or sector, changes. Removing a ship takes it out
      of the map and of its sector's index, and changes nothing else. */
  lemma RemovalOfPlaces(w: World, m: Mutation, order: seq<Id>, newId: Id)
    requires m.DestroyEntity? && IndexExact(w)
    ensures var (after, r, id) := (Step(w, m, order, newId).0, Step(w, m, order, newId).1, m.entityId);
            && (m.entityType == SectorEntity ==>
                  && (if id in w.sectors then r == Done(None) else r.Refused?)
                  && after.players == w.players && after.sectors == (map k | k in w.sectors && k != id :: w.sectors[k])
                  && after.ships.Keys == w.ships.Keys
                  && forall k | k in w.ships ::
                       after.ships[k] == if id in w.sectors && w.ships[k].sectorId == id then w.ships[k].(sectorId := NIL) else w.ships[k])
            && (m.entityType == ShipEntity ==>
                  && (if id in w.ships then r == Done(None) else r.Refused?)
                  && after.players == w.players && after.ships == (map k | k in w.ships && k != id :: w.ships[k])
                  && after.sectors.Keys == w.sectors.Keys
                  && forall k | k in w.sectors :: after.sectors[k] == w.sectors[k].(shipIds := w.sectors[k].shipIds - {id}))
  {
    hide WithoutLocation, Lists, SectorWithMission, SectorWithLocation;
    var (after, id) := (Step(w, m, order, newId).0, m.entityId);
    match m.entityType
    case SectorEntity =>
      assert id in w.sectors ==> forall k: Id :: k in w.sectors[id].shipIds <==> k in w.ships && w.ships[k].sectorId == id;
    case ShipEntity =>
      forall k | k in w.sectors ensures after.sectors[k] == w.sectors[k].(shipIds := w.sectors[k].shipIds - {id}) {
        assert id in w.sectors[k].shipIds <==> id in w.ships && w.ships[id].sectorId == k;
        if id !in w.sectors[k].shipIds {
          assert w.sectors[k].shipIds - {id} == w.sectors[k].shipIds;
        }
      }
    case _ =>
  }

  /** A spawned ship is new, at rest, whole, nobody's and empty, where it was asked for; nothing else changes
      but the index of its sector. */
  lemma SpawnAdds(w: World, c: SpawnConfig, order: seq<Id>, newId: Id)
    ensures var after := Step(w, SpawnShip(c), order, newId).0;
            && after.players == w.players && after.ships.Keys == w.ships.Keys + {newId}
            && (forall k | k in w.ships && k != newId :: after.ships[k] == w.ships[k])
            && Fresh(after.ships[newId], newId, c)
            && after.sectors.Keys == w.sectors.Keys
            && forall k | k in w.sectors ::
                 after.sectors[k] == w.sectors[k].(shipIds := w.sectors[k].shipIds + if k == c.sectorId then {newId} else {})
  {
    hide Stats;
    var after := Step(w, SpawnShip(c), order, newId).0;
    forall k | k in w.sectors
      ensures after.sectors[k] == w.sectors[k].(shipIds := w.sectors[k].shipIds + if k == c.sectorId then {newId} else {})
    {
      assert w.sectors[k].shipIds + {} == w.sectors[k].shipIds;
    }
  }

  ghost predicate Fresh(ship: Ship, id: Id, c: SpawnConfig) {
    && ship.id == id && ship.name == c.name && ship.shipClass == c.shipClass && ship.sectorId == c.sectorId
    && ship.position == c.position && ship.factionId == c.factionId
    && ship.hull == 100.0 && ship.shield == Stats(c.shipClass).shieldCapacity && ship.fuel == 100.0 && ship.ammunition == 100.0
    && ship.status == Idle && ship.lockedTarget == None && ship.ownerId == None && !ship.isPlayerShip
    && ship.cargo == [] && ship.upgrades == []
  }

  lemma NothingListed()
    ensures forall y :: !Lists([], y)
  {
  }

  // ---------- the sector index ----------

  /** A sector's index holds exactly the ships that are in it. */
  ghost predicate IndexExact(w: World) {
    forall s, id: Id :: s in w.sectors ==>
      (id in w.sectors[s].shipIds <==> id in w.ships && w.ships[id].sectorId == s)
  }

  ghost predicate KeysAreIds(w: World) {
    && NIL !in w.sectors
    && (forall s | s in w.sectors :: w.sectors[s].id == s)
    && (forall id | id in w.ships :: w.ships[id].id == id)
  }

  lemma {:induction false} SectorWithMissionFound(sectors: map<Id, Sector>, order: seq<Id>, mission: Id)
    ensures match SectorWithMission(sectors, order, mission)
            case Some(s) => s in order && s in sectors && mission in sectors[s].missions
            case None => forall s | s in order && s in sectors :: mission !in sectors[s].missions
  {
    if order != [] {
      SectorWithMissionFound(sectors, order[1..], mission);
      assert order == [order[0]] + order[1..];
    }
  }

  lemma {:induction false} SectorWithLocationFound(sectors: map<Id, Sector>, order: seq<Id>, location: Id)
    ensures match SectorWithLocation(sectors, order, location)
            case Some(s) => s in order && s in sectors && HasLocation(sectors[s], location)
            case None => forall s | s in order && s in sectors :: !HasLocation(sectors[s], location)
  {
    if order != [] {
      SectorWithLocationFound(sectors, order[1..], location);
      assert order == [order[0]] + order[1..];
    }
  }

  /** Every mutation keeps the index exact, given that spawned ids are new. */
  lemma StepKeepsIndex(w: World, m: Mutation, order: seq<Id>, newId: Id)
    requires IndexExact(w) && KeysAreIds(w) && newId !in w.ships
    ensures var w' := Step(w, m, order, newId).0; IndexExact(w') && KeysAreIds(w')
  {
    hide ChangeShip, ChangePlayer, NewNpcShip, WithoutLocation;
    match m
    case DestroyEntity(id, MissionEntity) => SectorWithMissionFound(w.sectors, order, id);
    case DestroyEntity(id, StationEntity) => SectorWithLocationFound(w.sectors, order, id);
    case ModifyShip(id, changes) => if id in w.ships { assert SameIdentity(w.ships[id], ChangeShip(w.ships[id], changes)); }
    case SpawnShip(c) => NewShipIsWhereAsked(newId, c);
    case _ =>
  }

  ghost predicate TidyShip(s: Ship) {
    CargoHold.Loose(s.cargo, Stats(s.shipClass).cargoCapacity) && SlotsUnique(s.upgrades)
  }

  /** Nobody is in debt, no hold is overloaded or has a type twice, and no slot holds two upgrades. */
  ghost predicate Tidy(w: World) {
    (forall p | p in w.players :: w.players[p].credits >= 0) && (forall id | id in w.ships :: TidyShip(w.ships[id]))
  }

  ghost predicate DecentShip(s: Ship) {
    CargoHold.Sound(s.cargo, Stats(s.shipClass).cargoCapacity) && SlotsUnique(s.upgrades)
  }

  /** And no item is empty. */
  ghost predicate Decent(w: World) {
    (forall p | p in w.players :: w.players[p].credits >= 0) && (forall id | id in w.ships :: DecentShip(w.ships[id]))
  }

  /** A load of nothing, of a type that is not aboard, unless the same change takes the empty item out again. */
  predicate LeavesEmpty(s: Ship, c: ShipChanges) {
    && c.addCargo.Some? && c.addCargo.value.quantity == 0 && CargoHold.Amount(s.cargo, c.addCargo.value.cargoType) == 0
    && !(c.removeCargo.Some? && c.removeCargo.value.cargoType == c.addCargo.value.cargoType && c.removeCargo.value.quantity == 0)
  }

  lemma ModifyKeepsTidy(s: Ship, c: ShipChanges)
    requires TidyShip(s)
    ensures TidyShip(ChangeShip(s, c))
  {
    ModifyReadsBack(s, c);
    hide ChangeShip, Stats, CargoHold.Loose, SlotsUnique, ValuesReadBack;
  }

  /** The amounts after a change, from a hold without empty items: one is zero exactly when the change says so. */
  lemma EmptyAfter(s: Ship, c: ShipChanges)
    requires CargoUsed(s.cargo) <= Stats(s.shipClass).cargoCapacity && forall k: CargoType :: CargoHold.Held(s.cargo, k) != Some(0)
    ensures (exists k: CargoType :: AfterUnload(AfterLoad(s, c.addCargo, k), c.removeCargo, k) == Some(0)) <==> LeavesEmpty(s, c)
  {
    hide Stats, CargoUsed, CargoHold.Held, CargoHold.Amount;
    if c.addCargo.Some? {
      var k := c.addCargo.value.cargoType;
      CargoHold.AmountIsHeld(s.cargo, k);
      assert LeavesEmpty(s, c) ==> AfterUnload(AfterLoad(s, c.addCargo, k), c.removeCargo, k) == Some(0);
    }
  }

  /** A change of a decent ship does not panic, and leaves it decent exactly unless it leaves an empty item. */
  lemma ModifyKeepsDecent(s: Ship, c: ShipChanges)
    requires DecentShip(s)
    ensures !Panics(s, c) && (DecentShip(ChangeShip(s, c)) <==> !LeavesEmpty(s, c))
  {
    var (t, capacity) := (ChangeShip(s, c), Stats(s.shipClass).cargoCapacity);
    CargoHold.SoundHoldsNothingEmpty(s.cargo, capacity);
    CargoHold.SoundHoldsNothingEmpty(t.cargo, capacity);
    PanicsExactly(s, c);
    ModifyReadsBack(s, c);
    EmptyAfter(s, c);
    hide ChangeShip, Panics, Stats, CargoUsed, CargoHold.Sound, CargoHold.Held, SlotsUnique, ValuesReadBack, LeavesEmpty, AfterLoad, AfterUnload;
  }

  /** What the scripting function for a load asks for. */
  function LoadOnly(cargoType: CargoType, quantity: nat, price: int): ShipChanges {
    ShipChanges(None, None, None, None, None, None, None, None, None, None, Some(CargoChange(cargoType, quantity, price)), None, None, None)
  }

  /** Loading nothing of a type that is not aboard leaves an empty item, and doing so again panics. */
  lemma NothingTwice(s: Ship, cargoType: CargoType, price: int)
    requires TidyShip(s) && CargoHold.Held(s.cargo, cargoType) == None
    ensures var (c, t) := (LoadOnly(cargoType, 0, price), ChangeShip(s, LoadOnly(cargoType, 0, price)));
            !Panics(s, c) && !DecentShip(t) && Panics(t, c)
  {
    var (c, t, capacity) := (LoadOnly(cargoType, 0, price), ChangeShip(s, LoadOnly(cargoType, 0, price)), Stats(s.shipClass).cargoCapacity);
    PanicsExactly(s, c);
    ModifyReadsBack(s, c);
    PanicsExactly(t, c);
    CargoHold.SoundHoldsNothingEmpty(t.cargo, capacity);
    CargoHold.AmountIsHeld(s.cargo, cargoType);
    hide ChangeShip, Panics, Stats, CargoUsed, CargoHold.Sound, CargoHold.Held, SlotsUnique, ValuesReadBack, CargoHold.Amount;
    assert CargoUsed(s.cargo) <= capacity;
    assert CargoHold.Held(t.cargo, cargoType) == AfterUnload(AfterLoad(s, c.addCargo, cargoType), None, cargoType) == Some(0);
  }

  lemma NewShipIsDecent(id: Id, c: SpawnConfig)
    ensures var s := NewNpcShip(id, c.name, c.shipClass, c.sectorId, c.position, c.factionId); DecentShip(s) && TidyShip(s)
  {
    hide Stats;
  }

  /** No mutation spoils a tidy world, whatever it asks for. */
  lemma StepKeepsTidy(w: World, m: Mutation, order: seq<Id>, newId: Id)
    requires Tidy(w)
    ensures Tidy(Step(w, m, order, newId).0)
  {
    hide ChangeShip, ChangePlayer, NewNpcShip, Panics, WithoutLocation, SectorWithMission, SectorWithLocation, CargoHold.Loose, SlotsUnique, Stats;
    match m
    case ModifyShip(id, changes) => if id in w.ships { ModifyKeepsTidy(w.ships[id], changes); }
    case ModifyPlayer(id, changes) => if id in w.players { PlayerReadsBack(w.players[id], changes); }
    case SpawnShip(c) => NewShipIsDecent(newId, c);
    case _ =>
  }

  /** The mutation leaves an empty item in a hold. */
  predicate Empties(w: World, m: Mutation) {
    m.ModifyShip? && m.shipId in w.ships && LeavesEmpty(w.ships[m.shipId], m.changes)
  }

  /** In a decent world nothing panics, and it stays decent exactly unless a load leaves an empty item. */
  lemma StepKeepsDecent(w: World, m: Mutation, order: seq<Id>, newId: Id)
    requires Decent(w)
    ensures var (w', r) := Step(w, m, order, newId); !r.Panicked? && (Decent(w') <==> !Empties(w, m))
  {
    hide ChangeShip, ChangePlayer, NewNpcShip, Panics, LeavesEmpty, WithoutLocation, SectorWithMission, SectorWithLocation,
         CargoHold.Sound, SlotsUnique, Stats;
    match m
    case ModifyShip(id, changes) =>
      if id in w.ships {
        ModifyKeepsDecent(w.ships[id], changes);
        var after := Step(w, m, order, newId).0.ships;
        assert after[id] == ChangeShip(w.ships[id], changes);
      }
    case ModifyPlayer(id, changes) => if id in w.players { PlayerReadsBack(w.players[id], changes); }
    case SpawnShip(c) => NewShipIsDecent(newId, c);
    case _ =>
  }

  lemma NewShipIsWhereAsked(id: Id, c: SpawnConfig)
    ensures var s := NewNpcShip(id, c.name, c.shipClass, c.sectorId, c.position, c.factionId); s.id == id && s.sectorId == c.sectorId
  {
  }

  /** The queries of a playtest, which go through the index. */
  function ShipsInSector(w: World, s: Id): set<Ship> {
    if s in w.sectors then set id | id in w.sectors[s].shipIds && id in w.ships :: w.ships[id] else {}
  }

  function ShipsInRange(w: World, root: real -> real, s: Id, p: Position, range: real): set<Ship> {
    if s in w.sectors then
      set id | id in w.sectors[s].shipIds && id in w.ships && DistanceTo(root, w.ships[id].position, p) <= range :: w.ships[id]
    else {}
  }

  function Scan(w: World, s: Id): set<Ship> {
    set id | id in w.ships && w.ships[id].sectorId == s :: w.ships[id]
  }

  /** With an exact index the queries return what filtering the whole ship map returns, for every sector
      there is, and for an unknown sector as long as no ship claims to be in it. */
  lemma QueriesAreScans(w: World, root: real -> real, s: Id, p: Position, range: real)
    requires IndexExact(w)
    ensures ShipsInSector(w, s) == Scan(w, s) <==> s in w.sectors || forall id | id in w.ships :: w.ships[id].sectorId != s
    ensures s in w.sectors ==>
              ShipsInRange(w, root, s, p, range) == set ship | ship in Scan(w, s) && DistanceTo(root, ship.position, p) <= range
  {
    if s in w.sectors {
      forall id: Id ensures id in w.sectors[s].shipIds <==> id in w.ships && w.ships[id].sectorId == s {
      }
      assert ShipsInSector(w, s) == Scan(w, s);
      var near := set ship | ship in Scan(w, s) && DistanceTo(root, ship.position, p) <= range;
      forall ship: Ship ensures ship in ShipsInRange(w, root, s, p, range) <==> ship in near {
        if ship in near {
          var id :| id in w.ships && w.ships[id].sectorId == s && ship == w.ships[id];
          assert id in w.sectors[s].shipIds;
        }
      }
    } else if id :| id in w.ships && w.ships[id].sectorId == s {
      assert w.ships[id] in Scan(w, s);
    }
  }
}
