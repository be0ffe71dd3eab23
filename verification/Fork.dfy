/** Forking the live state into a playtest (state.rs), and the proof that a full fork simulates it: the
    same mutations give the same results and the same ships and sectors in both. */
module Fork {
  import opened Prelude
  import opened Ships
  import opened World
  import CargoHold

  datatype ForkConfig = ForkConfig(
    sectors: seq<Id>, includeShips: bool, specificShips: seq<Id>, includeMissions: bool,
    includeNpcs: bool, includeOtherPlayers: bool)

  /** The sectors to fork: those asked for, or all. */
  ghost predicate Wanted(live: World, config: ForkConfig, s: Id) {
    if config.sectors == [] then exists k :: k in live.sectors && live.sectors[k].id == s else s in config.sectors
  }

  ghost predicate Included(live: World, config: ForkConfig, owner: Id, ship: Ship) {
    && Wanted(live, config, ship.sectorId)
    && if config.specificShips != [] then ship.id in config.specificShips
       else
         && config.includeShips
         && (config.includeNpcs || ship.isPlayerShip)
         && (config.includeOtherPlayers || !ship.isPlayerShip || ship.ownerId == Some(owner))
  }

  ghost function ForkShips(live: World, config: ForkConfig, owner: Id): map<Id, Ship> {
    map id | id in live.ships && Included(live, config, owner, live.ships[id]) :: live.ships[id]
  }

  ghost predicate OwnsOne(ships: map<Id, Ship>, player: Id) {
    exists id :: id in ships && ships[id].isPlayerShip && ships[id].ownerId == Some(player)
  }

  ghost function ForkPlayers(live: World, ships: map<Id, Ship>): map<Id, Player> {
    map p | p in live.players && OwnsOne(ships, p) :: live.players[p]
  }

  /** The copies of the sectors, before any ship is in them. */
  function Bare(s: Sector, config: ForkConfig): Sector {
    Sector(s.id, s.locations, {}, if config.includeMissions then s.missions else map[])
  }

  ghost function BareSectors(live: World, config: ForkConfig): map<Id, Sector> {
    map s | s in live.sectors && Wanted(live, config, s) :: Bare(live.sectors[s], config)
  }

  /** Sectors whose index holds these ships. */
  ghost function Indexed(sectors: map<Id, Sector>, ships: map<Id, Ship>): map<Id, Sector> {
    map s | s in sectors :: sectors[s].(shipIds := (set id | id in ships && ships[id].sectorId == s))
  }

  ghost function Forked(live: World, config: ForkConfig, owner: Id): World {
    var ships := ForkShips(live, config, owner);
    World(ships, ForkPlayers(live, ships), Indexed(BareSectors(live, config), ships))
  }

  /** Whatever is forked, the playtest starts with an exact index. */
  lemma ForkIndexExact(live: World, config: ForkConfig, owner: Id)
    requires KeysAreIds(live)
    ensures IndexExact(Forked(live, config, owner)) && KeysAreIds(Forked(live, config, owner))
  {
  }

  // ---------- what a fork selects ----------

  ghost predicate InWantedSector(live: World, config: ForkConfig, s: Id) {
    if config.sectors == [] then s in live.sectors else s in config.sectors
  }

  /** Which ships of the wanted sectors are forked: those listed, if any are; otherwise none, or the owner's
      own in any case, those of nobody as asked for, and those of other players as asked for. */
  ghost predicate Selects(config: ForkConfig, owner: Id, ship: Ship, selected: bool) {
    if config.specificShips != [] then selected <==> ship.id in config.specificShips
    else
      && (!config.includeShips ==> !selected)
      && (config.includeShips && !ship.isPlayerShip ==> (selected <==> config.includeNpcs))
      && (config.includeShips && ship.isPlayerShip ==> (selected <==> ship.ownerId == Some(owner) || config.includeOtherPlayers))
  }

  /** A fork has the wanted sectors there are, with their locations, with their missions if asked for, and with
      an index of the forked ships in them; copies of exactly the selected ships of wanted sectors; and copies of
      exactly the players that own one of these. */
  lemma ForkSelects(live: World, config: ForkConfig, owner: Id)
    requires KeysAreIds(live)
    ensures var f := Forked(live, config, owner);
            && (forall s :: s in f.sectors <==> s in live.sectors && InWantedSector(live, config, s))
            && (forall s | s in f.sectors ::
                  && f.sectors[s].id == s && f.sectors[s].locations == live.sectors[s].locations
                  && f.sectors[s].missions == (if config.includeMissions then live.sectors[s].missions else map[])
                  && forall id :: id in f.sectors[s].shipIds <==> id in f.ships && f.ships[id].sectorId == s)
            && (forall id | id in f.ships :: id in live.ships && f.ships[id] == live.ships[id])
            && (forall id | id in live.ships ::
                  if InWantedSector(live, config, live.ships[id].sectorId) then Selects(config, owner, live.ships[id], id in f.ships)
                  else id !in f.ships)
            && (forall p | p in f.players :: p in live.players && f.players[p] == live.players[p])
            && (forall p | p in live.players ::
                  p in f.players <==> exists id :: id in f.ships && f.ships[id].isPlayerShip && f.ships[id].ownerId == Some(p))
  {
    forall s ensures Wanted(live, config, s) <==> InWantedSector(live, config, s) {
    }
    hide Wanted, InWantedSector;
  }

  // ---------- a full fork ----------

  ghost predicate IsFull(config: ForkConfig) {
    && config.sectors == [] && config.specificShips == []
    && config.includeShips && config.includeMissions && config.includeNpcs && config.includeOtherPlayers
  }

  /** The playtest has the same ships and sectors, and agrees on the players it has. */
  ghost predicate Simulates(live: World, test: World) {
    && test.ships == live.ships
    && test.sectors == live.sectors
    && forall p | p in test.players :: p in live.players && test.players[p] == live.players[p]
  }

  lemma FullForkWantsAll(live: World, config: ForkConfig, s: Id)
    requires IsFull(config) && KeysAreIds(live)
    ensures Wanted(live, config, s) <==> s in live.sectors
  {
  }

  lemma FullForkSectors(live: World, config: ForkConfig)
    requires IsFull(config) && KeysAreIds(live) && IndexExact(live)
    ensures Indexed(BareSectors(live, config), live.ships) == live.sectors
  {
    hide Wanted;
    var sectors := Indexed(BareSectors(live, config), live.ships);
    forall s: Id ensures s in sectors <==> s in live.sectors {
      FullForkWantsAll(live, config, s);
    }
    forall s | s in live.sectors ensures sectors[s] == live.sectors[s] {
      assert forall id: Id :: id in live.sectors[s].shipIds <==> id in live.ships && live.ships[id].sectorId == s;
      assert sectors[s].shipIds == live.sectors[s].shipIds;
    }
  }

  lemma FullForkSimulates(live: World, config: ForkConfig, owner: Id)
    requires IsFull(config) && KeysAreIds(live) && IndexExact(live)
    ensures Simulates(live, Forked(live, config, owner)) <==> forall id | id in live.ships :: live.ships[id].sectorId in live.sectors
  {
    hide Wanted, Indexed, IndexExact;
    var ships := ForkShips(live, config, owner);
    forall id | id in live.ships ensures id in ships <==> live.ships[id].sectorId in live.sectors {
      FullForkWantsAll(live, config, live.ships[id].sectorId);
    }
    if forall id | id in live.ships :: live.ships[id].sectorId in live.sectors {
      assert ships == live.ships;
      FullForkSectors(live, config);
    }
  }

  // ---------- running mutations in both ----------

  /** An iteration visits every sector. */
  ghost predicate Visits(order: seq<Id>, w: World) {
    Enumerates(order, w.sectors.Keys)
  }

  /** No mission and no location is in two sectors. */
  ghost predicate Unshared(w: World) {
    && (forall s, t, x: Id | s in w.sectors && t in w.sectors && x in w.sectors[s].missions && x in w.sectors[t].missions :: s == t)
    && (forall s, t, x: Id | s in w.sectors && t in w.sectors && HasLocation(w.sectors[s], x) && HasLocation(w.sectors[t], x) :: s == t)
  }

  /** A player mutation that both sides treat alike: its target was forked, or exists in neither. */
  predicate Reaches(live: World, test: World, m: Mutation) {
    m.ModifyPlayer? ==> (m.playerId in test.players || m.playerId !in live.players)
  }

  /** Where nothing is shared, the sector found does not depend on the order of iteration. */
  lemma OrderIrrelevant(w: World, x: Id, a: seq<Id>, b: seq<Id>)
    requires Unshared(w) && Visits(a, w) && Visits(b, w)
    ensures SectorWithMission(w.sectors, a, x) == SectorWithMission(w.sectors, b, x)
    ensures SectorWithLocation(w.sectors, a, x) == SectorWithLocation(w.sectors, b, x)
  {
    SectorWithMissionFound(w.sectors, a, x);
    SectorWithMissionFound(w.sectors, b, x);
    SectorWithLocationFound(w.sectors, a, x);
    SectorWithLocationFound(w.sectors, b, x);
  }

  lemma StepKeepsUnshared(w: World, m: Mutation, order: seq<Id>, newId: Id)
    requires Unshared(w)
    ensures Unshared(Step(w, m, order, newId).0)
  {
    StepShrinks(w, m, order, newId);
    hide Step, HasLocation;
  }

  /** No mutation adds a sector, a mission or a location. */
  ghost predicate Shrinks(before: map<Id, Sector>, after: map<Id, Sector>) {
    forall s | s in after ::
      && s in before && after[s].missions.Keys <= before[s].missions.Keys
      && forall x: Id | HasLocation(after[s], x) :: HasLocation(before[s], x)
  }

  lemma StepShrinks(w: World, m: Mutation, order: seq<Id>, newId: Id)
    ensures Shrinks(w.sectors, Step(w, m, order, newId).0.sectors)
  {
    hide ChangeShip, ChangePlayer, NewNpcShip, Panics, Strand, WithoutLocation, Lists, SectorWithMission, SectorWithLocation;
    if m.DestroyEntity? && m.entityType == StationEntity {
      forall s | s in w.sectors {
        WithoutLocationDrops(w.sectors[s].locations, m.entityId);
      }
    }
  }

  /** Only a player mutation looks at the players, or touches them. */
  lemma StepIgnoresPlayers(w: World, players: map<Id, Player>, m: Mutation, order: seq<Id>, newId: Id)
    requires !m.ModifyPlayer?
    ensures var (after, r) := Step(w, m, order, newId);
            after.players == w.players && Step(w.(players := players), m, order, newId) == (after.(players := players), r)
  {
    hide ChangeShip, NewNpcShip, WithoutLocation, Strand, SectorWithLocation, SectorWithMission;
  }

  lemma StepIgnoresOrder(w: World, m: Mutation, a: seq<Id>, b: seq<Id>, newId: Id)
    requires Unshared(w) && Visits(a, w) && Visits(b, w)
    ensures Step(w, m, a, newId) == Step(w, m, b, newId)
  {
    hide ChangeShip, ChangePlayer, NewNpcShip, WithoutLocation, Strand, Unshared, Visits, SectorWithLocation, SectorWithMission;
    if m.DestroyEntity? {
      OrderIrrelevant(w, m.entityId, a, b);
    }
  }

  /** One mutation, with different iteration orders: the relation is kept, and the results agree exactly
      when a player mutation reaches a forked player. */
  lemma StepSimulates(live: World, test: World, m: Mutation, a: seq<Id>, b: seq<Id>, newId: Id)
    requires Simulates(live, test) && Unshared(live) && Visits(a, live) && Visits(b, test)
    ensures var (l, t) := (Step(live, m, a, newId), Step(test, m, b, newId));
            && Simulates(l.0, t.0)
            && l.0.players.Keys == live.players.Keys && t.0.players.Keys == test.players.Keys
            && (l.1.Panicked? <==> t.1.Panicked?)
            && (l.1 == t.1 <==> Reaches(live, test, m))
  {
    hide Unshared;
    if m.ModifyPlayer? {
      hide ChangePlayer;
    } else {
      assert Visits(b, live) && test == live.(players := test.players);
      StepIgnoresOrder(live, m, a, b, newId);
      StepIgnoresPlayers(live, test.players, m, b, newId);
      hide Step;
    }
  }

  // ---------- whole lists ----------

  /** The worlds and results of a list of mutations. The iteration orders may be different at every step;
      spawned ids are drawn from `ids`. A panic ends the list. */
  ghost predicate Execution(ms: seq<Mutation>, ids: seq<Id>, orders: seq<seq<Id>>, ws: seq<World>, rs: seq<MutationResult>) {
    && |rs| <= |ms| == |ids| && |orders| == |rs| && |ws| == |rs| + 1
    && (forall i | 0 <= i < |rs| :: Visits(orders[i], ws[i]) && Step(ws[i], ms[i], orders[i], ids[i]) == (ws[i + 1], rs[i]))
    && (forall i | 0 <= i < |rs| :: rs[i].Panicked? ==> i == |rs| - 1)
    && (|rs| < |ms| ==> rs != [] && rs[|rs| - 1].Panicked?)
  }

  /** The relation holds before and after every mutation that both get to. */
  lemma {:induction false} ExecutionSimulates(ms: seq<Mutation>, ids: seq<Id>, a: seq<seq<Id>>, b: seq<seq<Id>>,
                                              ls: seq<World>, rs: seq<MutationResult>, ts: seq<World>, qs: seq<MutationResult>, n: nat)
    requires Execution(ms, ids, a, ls, rs) && Execution(ms, ids, b, ts, qs)
    requires Simulates(ls[0], ts[0]) && Unshared(ls[0]) && n <= |rs| && n <= |qs|
    ensures Simulates(ls[n], ts[n]) && Unshared(ls[n])
    ensures ls[n].players.Keys == ls[0].players.Keys && ts[n].players.Keys == ts[0].players.Keys
    ensures n < |rs| && n < |qs| ==>
              (rs[n] == qs[n] <==> Reaches(ls[0], ts[0], ms[n])) && (rs[n].Panicked? <==> qs[n].Panicked?)
    decreases n
  {
    hide Step, Simulates, Unshared, Visits;
    if n > 0 {
      ExecutionSimulates(ms, ids, a, b, ls, rs, ts, qs, n - 1);
      assert Step(ls[n - 1], ms[n - 1], a[n - 1], ids[n - 1]) == (ls[n - 1 + 1], rs[n - 1]);
      assert Step(ts[n - 1], ms[n - 1], b[n - 1], ids[n - 1]) == (ts[n - 1 + 1], qs[n - 1]);
      StepKeepsUnshared(ls[n - 1], ms[n - 1], a[n - 1], ids[n - 1]);
      StepSimulates(ls[n - 1], ts[n - 1], ms[n - 1], a[n - 1], b[n - 1], ids[n - 1]);
    }
    if n < |rs| && n < |qs| {
      assert Step(ls[n], ms[n], a[n], ids[n]) == (ls[n + 1], rs[n]);
      assert Step(ts[n], ms[n], b[n], ids[n]) == (ts[n + 1], qs[n]);
      StepSimulates(ls[n], ts[n], ms[n], a[n], b[n], ids[n]);
    }
  }

  /** Both panic at the same mutation, or neither does. */
  lemma PanicTogether(ms: seq<Mutation>, ids: seq<Id>, a: seq<seq<Id>>, b: seq<seq<Id>>,
                      ls: seq<World>, rs: seq<MutationResult>, ts: seq<World>, qs: seq<MutationResult>)
    requires Execution(ms, ids, a, ls, rs) && Execution(ms, ids, b, ts, qs)
    requires Simulates(ls[0], ts[0]) && Unshared(ls[0])
    ensures |rs| == |qs|
  {
    hide Step, Simulates, Unshared, Visits, Reaches;
    var n := if |rs| < |qs| then |rs| else |qs|;
    if n > 0 {
      ExecutionSimulates(ms, ids, a, b, ls, rs, ts, qs, n - 1);
    }
  }

  /** Fork simulates live: after a full fork of a state whose ships are all in existing sectors, any list
      of mutations gets equally far and leaves the same ships and sectors in both, agrees on every forked
      player, and gives the same results if and only if every player mutation that is reached targets a
      forked player or nobody. */
  lemma ForkSimulatesLive(live: World, config: ForkConfig, owner: Id, ms: seq<Mutation>, ids: seq<Id>,
                          a: seq<seq<Id>>, b: seq<seq<Id>>, ls: seq<World>, rs: seq<MutationResult>,
                          ts: seq<World>, qs: seq<MutationResult>)
    requires IsFull(config) && KeysAreIds(live) && IndexExact(live) && Unshared(live)
    requires forall id | id in live.ships :: live.ships[id].sectorId in live.sectors
    requires Execution(ms, ids, a, ls, rs) && ls[0] == live
    requires Execution(ms, ids, b, ts, qs) && ts[0] == Forked(live, config, owner)
    ensures |rs| == |qs| && forall n | 0 <= n <= |rs| :: Simulates(ls[n], ts[n])
    ensures rs == qs <==> forall i | 0 <= i < |rs| :: Reaches(live, ts[0], ms[i])
  {
    FullForkSimulates(live, config, owner);
    PanicTogether(ms, ids, a, b, ls, rs, ts, qs);
    hide Step, Simulates, Unshared, Forked;
    forall n | 0 <= n <= |rs|
      ensures Simulates(ls[n], ts[n])
      ensures n < |rs| ==> (rs[n] == qs[n] <==> Reaches(live, ts[0], ms[n]))
    {
      ExecutionSimulates(ms, ids, a, b, ls, rs, ts, qs, n);
    }
  }

  /** The index of a playtest stays exact over any list of mutations, given that spawned ids are new. */
  lemma {:induction false} ExecutionKeepsIndex(ms: seq<Mutation>, ids: seq<Id>, orders: seq<seq<Id>>,
                                               ws: seq<World>, rs: seq<MutationResult>, n: nat)
    requires Execution(ms, ids, orders, ws, rs) && IndexExact(ws[0]) && KeysAreIds(ws[0]) && n <= |rs|
    requires forall i | 0 <= i < |rs| :: ids[i] !in ws[i].ships
    ensures IndexExact(ws[n]) && KeysAreIds(ws[n])
    decreases n
  {
    hide Step, IndexExact, KeysAreIds;
    if n > 0 {
      ExecutionKeepsIndex(ms, ids, orders, ws, rs, n - 1);
      assert Step(ws[n - 1], ms[n - 1], orders[n - 1], ids[n - 1]) == (ws[n - 1 + 1], rs[n - 1]);
      StepKeepsIndex(ws[n - 1], ms[n - 1], orders[n - 1], ids[n - 1]);
    }
  }

  /** No list of mutations, in the live state or in a playtest, puts a player into debt, overloads a hold,
      leaves a type twice in one, or puts two upgrades into one slot. */
  lemma {:induction false} ExecutionKeepsTidy(ms: seq<Mutation>, ids: seq<Id>, orders: seq<seq<Id>>,
                                              ws: seq<World>, rs: seq<MutationResult>, n: nat)
    requires Execution(ms, ids, orders, ws, rs) && Tidy(ws[0]) && n <= |rs|
    ensures Tidy(ws[n])
    decreases n
  {
    hide Step, Tidy;
    if n > 0 {
      ExecutionKeepsTidy(ms, ids, orders, ws, rs, n - 1);
      assert Step(ws[n - 1], ms[n - 1], orders[n - 1], ids[n - 1]) == (ws[n - 1 + 1], rs[n - 1]);
      StepKeepsTidy(ws[n - 1], ms[n - 1], orders[n - 1], ids[n - 1]);
    }
  }

  /** And no hold has an empty item, exactly as long as no mutation loads nothing of a type that is not
      aboard. Until then nothing panics. */
  lemma {:induction false} ExecutionKeepsDecent(ms: seq<Mutation>, ids: seq<Id>, orders: seq<seq<Id>>,
                                                ws: seq<World>, rs: seq<MutationResult>, n: nat)
    requires Execution(ms, ids, orders, ws, rs) && Decent(ws[0]) && n <= |rs|
    ensures (forall k | 0 <= k <= n :: Decent(ws[k])) <==> (forall k | 0 <= k < n :: !Empties(ws[k], ms[k]))
    ensures (forall k | 0 <= k < n :: !Empties(ws[k], ms[k])) ==> n < |ms| ==> n < |rs| && !rs[n].Panicked?
    decreases n
  {
    hide Step, Decent, Visits, Empties;
    if n > 0 {
      ExecutionKeepsDecent(ms, ids, orders, ws, rs, n - 1);
      assert Step(ws[n - 1], ms[n - 1], orders[n - 1], ids[n - 1]) == (ws[n - 1 + 1], rs[n - 1]);
      if Decent(ws[n - 1]) {
        StepKeepsDecent(ws[n - 1], ms[n - 1], orders[n - 1], ids[n - 1]);
      }
    }
    if n < |rs| && Decent(ws[n]) {
      assert Step(ws[n], ms[n], orders[n], ids[n]) == (ws[n + 1], rs[n]);
      StepKeepsDecent(ws[n], ms[n], orders[n], ids[n]);
    }
  }

  /** A script that loads nothing of a type, twice, onto a ship without it: the first time leaves an empty
      item, and the second time the interpreter panics, so that the rest of its list is not applied. */
  lemma LoadingNothingTwice(ms: seq<Mutation>, ids: seq<Id>, orders: seq<seq<Id>>, ws: seq<World>, rs: seq<MutationResult>,
                            id: Id, cargoType: CargoType, price: int)
    requires Execution(ms, ids, orders, ws, rs) && Tidy(ws[0]) && id in ws[0].ships
    requires CargoHold.Held(ws[0].ships[id].cargo, cargoType) == None
    requires |ms| >= 2 && ms[0] == ms[1] == ModifyShip(id, LoadOnly(cargoType, 0, price))
    ensures rs == [Done(None), Panicked] && !Decent(ws[1])
  {
    NothingTwice(ws[0].ships[id], cargoType, price);
    hide ChangeShip, Panics, TidyShip, DecentShip, Visits, CargoHold.Held, LoadOnly;
    assert Step(ws[0], ms[0], orders[0], ids[0]) == (ws[0 + 1], rs[0]);
    assert |rs| > 1 && Step(ws[1], ms[1], orders[1], ids[1]) == (ws[1 + 1], rs[1]);
  }
}
