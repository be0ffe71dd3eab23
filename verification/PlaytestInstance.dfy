/** The objects whose maps are changed in place: a playtest instance (state_provider.rs, simulation.rs)
    and the live game state (state.rs). Each interprets mutations on its own maps; both are proved
    against the same specification. */
module PlaytestInstance {
  import opened Prelude
  import opened Ships
  import opened World
  import opened Fork
  import opened Playtest

  /** The rest of an iteration cannot matter once the sector has been found. */
  lemma {:induction false} FoundAt(sectors: map<Id, Sector>, order: seq<Id>, n: nat, x: Id)
    requires n <= |order|
    requires forall i | 0 <= i < n :: order[i] in sectors ==> x !in sectors[order[i]].missions
    ensures SectorWithMission(sectors, order, x) == SectorWithMission(sectors, order[n..], x)
    decreases n
  {
    if n == 0 {
      assert order[0..] == order;
    } else {
      FoundAt(sectors, order[1..], n - 1, x);
      assert order[1..][n - 1..] == order[n..];
    }
  }

  lemma {:induction false} LocatedAt(sectors: map<Id, Sector>, order: seq<Id>, n: nat, x: Id)
    requires n <= |order|
    requires forall i | 0 <= i < n :: order[i] in sectors ==> !HasLocation(sectors[order[i]], x)
    ensures SectorWithLocation(sectors, order, x) == SectorWithLocation(sectors, order[n..], x)
    decreases n
  {
    if n == 0 {
      assert order[0..] == order;
    } else {
      LocatedAt(sectors, order[1..], n - 1, x);
      assert order[1..][n - 1..] == order[n..];
    }
  }

  /** Removes a mission from the first sector of the iteration that has it. */
  method RemoveMission(w: World, order: seq<Id>, id: Id) returns (sectors: map<Id, Sector>, r: MutationResult)
    requires Enumerates(order, w.sectors.Keys)
    ensures (w.(sectors := sectors), r) == Step(w, DestroyEntity(id, MissionEntity), order, NIL)
  {
    sectors := w.sectors;
    for i := 0 to |order|
      invariant sectors == w.sectors
      invariant forall k | 0 <= k < i :: id !in sectors[order[k]].missions
    {
      var s := order[i];
      if id in sectors[s].missions {
        FoundAt(sectors, order, i, id);
        sectors := sectors[s := sectors[s].(missions := sectors[s].missions - {id})];
        return sectors, Done(None);
      }
    }
    FoundAt(sectors, order, |order|, id);
    r := Refused("Mission not found");
  }

  /** Filters the locations of one sector after the other until a list gets shorter. */
  method RemoveStation(w: World, order: seq<Id>, id: Id) returns (sectors: map<Id, Sector>, r: MutationResult)
    requires Enumerates(order, w.sectors.Keys)
    ensures (w.(sectors := sectors), r) == Step(w, DestroyEntity(id, StationEntity), order, NIL)
  {
    hide WithoutLocation, Lists;
    sectors := w.sectors;
    for i := 0 to |order|
      invariant sectors == w.sectors
      invariant forall k | 0 <= k < i :: !HasLocation(sectors[order[k]], id)
    {
      var s := order[i];
      var initialLen := |sectors[s].locations|;
      WithoutLocationDrops(sectors[s].locations, id);
      LocatedAt(sectors, order, i, id);
      sectors := sectors[s := sectors[s].(locations := WithoutLocation(sectors[s].locations, id))];
      if |sectors[s].locations| < initialLen {
        return sectors, Done(None);
      }
      assert sectors == w.sectors;
    }
    LocatedAt(sectors, order, |order|, id);
    r := Refused("Station not found");
  }

  /** The ships of a removed sector are left behind in no sector. */
  method StrandShips(before: map<Id, Ship>, ids: set<Id>) returns (ships: map<Id, Ship>)
    ensures ships == Strand(before, ids)
  {
    ships := before;
    var left := ids;
    while left != {}
      invariant left <= ids && ships == Strand(before, ids - left)
    {
      var id := Pick(left);
      left := left - {id};
      if id in ships {
        ships := ships[id := ships[id].(sectorId := NIL)];
      }
    }
    assert ids - left == ids;
  }

  const MAX_PARTICIPANTS := 20

  /** The players connected to each sector, and the same without one of them. */
  type Connections = map<Id, set<Id>>

  function WithoutPlayer(connections: Connections, playerId: Id): Connections {
    map s | s in connections :: connections[s] - {playerId}
  }

  datatype Squadron = Squadron(id: Id, name: string, tag: string)

  /** The squadrons of the players. */
  ghost predicate HasMember(players: map<Id, Player>, squadron: Id) {
    exists p :: p in players && players[p].squadronId == Some(squadron)
  }

  ghost function SquadronsOf(squadrons: map<Id, Squadron>, players: map<Id, Player>): map<Id, Squadron> {
    map s | s in squadrons && HasMember(players, s) :: squadrons[s]
  }

  datatype Participant = Participant(isGm: bool, shipId: Id, sectorId: Id)
  datatype PlaytestError = AlreadyInPlaytest | NotInPlaytest | NotFound | LimitReached | ParticipantLimitReached

  class PlaytestInstance {
    const id: Id
    const ownerId: Id
    var participants: map<Id, Participant>
    var connections: Connections
    var squadrons: map<Id, Squadron>
    var ships: map<Id, Ship>
    var players: map<Id, Player>
    var sectors: map<Id, Sector>
    var created: set<Id>
    var deleted: set<Id>

    ghost function State(): Playtest
      reads this
    {
      Playtest(World(ships, players, sectors), created, deleted)
    }

    /** An empty instance, to be filled by a fork. */
    constructor (id: Id, ownerId: Id)
      ensures this.id == id && this.ownerId == ownerId && participants == map[] && connections == map[] && squadrons == map[]
      ensures State() == Playtest(World(map[], map[], map[]), {}, {})
    {
      this.id, this.ownerId, participants, connections, squadrons := id, ownerId, map[], map[], map[];
      ships, players, sectors, created, deleted := map[], map[], map[], {}, {};
    }

    method AddParticipant(playerId: Id, isGm: bool, shipId: Id, sectorId: Id) returns (r: Result<(), PlaytestError>)
      modifies this`participants
      ensures r == if playerId in old(participants) then Err(AlreadyInPlaytest)
                   else if |old(participants)| >= MAX_PARTICIPANTS then Err(ParticipantLimitReached)
                   else Ok(())
      ensures participants == if r.Ok? then old(participants)[playerId := Participant(isGm, shipId, sectorId)] else old(participants)
    {
      if playerId in participants {
        return Err(AlreadyInPlaytest);
      }
      if |participants| >= MAX_PARTICIPANTS {
        return Err(ParticipantLimitReached);
      }
      participants := participants[playerId := Participant(isGm, shipId, sectorId)];
      r := Ok(());
    }

    method RemoveParticipant(playerId: Id) returns (removed: Option<Participant>)
      modifies this`participants
      ensures removed == Get(old(participants), playerId) && participants == old(participants) - {playerId}
    {
      removed := Get(participants, playerId);
      participants := participants - {playerId};
    }

    /** Drops the player's connection to every sector. */
    method Disconnect(playerId: Id)
      modifies this`connections
      ensures connections == WithoutPlayer(old(connections), playerId)
    {
      var left := connections.Keys;
      while left != {}
        invariant left <= connections.Keys
        invariant connections == map s | s in old(connections) ::
            if s in left then old(connections)[s] else old(connections)[s] - {playerId}
      {
        var s := Pick(left);
        left := left - {s};
        connections := connections[s := connections[s] - {playerId}];
      }
      assert connections == WithoutPlayer(old(connections), playerId);
    }

    /** Applies one mutation; a spawn draws `newId`. The order of the iteration over the sectors is handed out. */
    method ApplyMutation(m: Mutation, newId: Id) returns (r: MutationResult, ghost order: seq<Id>)
      modifies this`ships, this`players, this`sectors, this`created, this`deleted
      ensures Enumerates(order, old(sectors).Keys)
      ensures (State(), r) == Apply(old(State()), m, order, newId)
    {
      hide ChangeValues, ChangeHold, ChangeSlots, Panics, ChangePlayer, NewNpcShip, WithoutLocation;
      var sectorOrder := Enumerate(sectors.Keys);
      order := sectorOrder;
      match m {
        case ModifyShip(id, changes) =>
          if id !in ships {
            return Refused("Ship not found"), order;
          }
          ValuesDoNotPanic(ships[id], changes);
          ships := ships[id := ChangeValues(ships[id], changes)];
          if Panics(ships[id], changes) {
            return Panicked, order;
          }
          ships := ships[id := ChangeHold(ships[id], changes)];
          ships := ships[id := ChangeSlots(ships[id], changes)];
          assert ships == old(ships)[id := ChangeShip(old(ships)[id], changes)];
          r := Done(None);
        case ModifyPlayer(id, changes) =>
          if id !in players {
            return Refused("Player not found"), order;
          }
          players := players[id := ChangePlayer(players[id], changes)];
          r := Done(None);
        case SpawnShip(c) =>
          ships := ships[newId := NewNpcShip(newId, c.name, c.shipClass, c.sectorId, c.position, c.factionId)];
          created := created + {newId};
          sectors := Index(sectors, c.sectorId, newId);
          r := Done(Some(newId));
        case DestroyEntity(id, ShipEntity) =>
          if id !in ships {
            return Refused("Ship not found"), order;
          }
          var ship := ships[id];
          ships := ships - {id};
          sectors := Unindex(sectors, ship.sectorId, id);
          if id !in created {
            deleted := deleted + {id};
          }
          created := created - {id};
          r := Done(None);
        case DestroyEntity(id, MissionEntity) =>
          sectors, r := RemoveMission(World(ships, players, sectors), sectorOrder, id);
        case DestroyEntity(id, StationEntity) =>
          sectors, r := RemoveStation(World(ships, players, sectors), sectorOrder, id);
        case DestroyEntity(id, SectorEntity) =>
          if id !in sectors {
            return Refused("Sector not found"), order;
          }
          ships := StrandShips(ships, sectors[id].shipIds);
          sectors := sectors - {id};
          r := Done(None);
        case Announce =>
          r := Done(None);
      }
    }

    /** Applies a list of mutations, or as many as there are up to a panic; spawns draw from `ids`. */
    method ApplyMutations(ms: seq<Mutation>, ids: seq<Id>)
      returns (rs: seq<MutationResult>, ghost orders: seq<seq<Id>>, ghost ws: seq<World>)
      requires |ids| == |ms|
      modifies this`ships, this`players, this`sectors, this`created, this`deleted
      ensures Execution(ms, ids, orders, ws, rs) && ws[0] == old(State().world) && ws[|rs|] == State().world
    {
      hide Step, Apply;
      rs, orders, ws := [], [], [State().world];
      for i := 0 to |ms|
        invariant |rs| == |orders| == i && |ws| == i + 1 && ws[0] == old(State().world) && ws[i] == State().world
        invariant forall k | 0 <= k < i :: Visits(orders[k], ws[k]) && Step(ws[k], ms[k], orders[k], ids[k]) == (ws[k + 1], rs[k])
        invariant forall k | 0 <= k < i :: !rs[k].Panicked?
      {
        ghost var before := State();
        var r, order := ApplyMutation(ms[i], ids[i]);
        WorldOfApply(before, ms[i], order, ids[i]);
        rs, orders, ws := rs + [r], orders + [order], ws + [State().world];
        if r.Panicked? {
          return;
        }
      }
    }

    /** One tick of one sector: movement, combat every tenth tick, and missions that run out. */
    method ProcessSectorTick(root: real -> real, s: Id, number: nat, deltaTime: real, now: int) returns (ghost order: seq<Id>)
      requires deltaTime >= 0.0
      modifies this`ships, this`players, this`sectors, this`created, this`deleted
      ensures s in old(sectors) ==> Enumerates(order, old(sectors)[s].shipIds)
      ensures State() == SectorTick(root, old(State()), Tick(s, number, order, deltaTime, now))
    {
      hide Travel, CombatRound, Expire;
      order := [];
      if s !in sectors {
        return;
      }
      var left := sectors[s].shipIds;
      while left != {}
        invariant sectors == old(sectors) && left <= sectors[s].shipIds
        invariant players == old(players) && created == old(created) && deleted == old(deleted)
        invariant ships == TravelAll(root, old(ships), sectors[s].shipIds - left, deltaTime)
      {
        var id := Pick(left);
        left := left - {id};
        if id in ships {
          ships := ships[id := Travel(root, ships[id], deltaTime)];
        }
      }
      assert sectors[s].shipIds - left == sectors[s].shipIds;
      var shipOrder := Enumerate(sectors[s].shipIds);
      order := shipOrder;
      if number % COMBAT_INTERVAL == 0 {
        ProcessCombats(s, shipOrder);
      }
      ExpireMissions(s, now);
    }

    /** First finds the missions that have expired, then marks them. */
    method ExpireMissions(s: Id, now: int)
      modifies this`sectors
      ensures State() == old(State()).(world := ExpiryPhase(old(State()).world, s, now))
    {
      if s !in sectors {
        return;
      }
      var missions := sectors[s].missions;
      var left := set id | id in missions && Overdue(missions[id], now);
      while left != {}
        invariant left <= missions.Keys && s in sectors && (forall id | id in left :: Overdue(missions[id], now))
        invariant sectors == old(sectors)[s := old(sectors)[s].(missions := sectors[s].missions)]
        invariant sectors[s].missions == map id | id in missions ::
            if Overdue(missions[id], now) && id !in left then missions[id].(status := Expired) else missions[id]
      {
        var id := Pick(left);
        left := left - {id};
        var sector := sectors[s];
        sectors := sectors[s := sector.(missions := sector.missions[id := sector.missions[id].(status := Expired)])];
      }
      assert sectors[s].missions == Expire(missions, now);
    }

    /** A combat round: everything is decided in a first phase that only reads. */
    method ProcessCombats(s: Id, order: seq<Id>)
      requires s in sectors
      modifies this`ships, this`players, this`sectors, this`created, this`deleted
      ensures State() == CombatRound(old(State()), s, order)
    {
      hide Disengage, Strike;
      var leavers: seq<Id>, actions: seq<Action> := [], [];
      for i := 0 to |order|
        invariant leavers == Leavers(State().world, s, order[..i]) && actions == Actions(State().world, s, order[..i])
      {
        var id := order[i];
        if id in ships && ships[id].status.InCombat? {
          var target := ships[id].lockedTarget;
          if target == None || target.value !in ships || ships[target.value].sectorId != sectors[s].id {
            leavers := leavers + [id];
          } else {
            actions := actions + [Action(id, target.value, Stats(ships[id].shipClass).attack)];
          }
        }
        assert order[..i + 1][..i] == order[..i];
      }
      assert order[..|order|] == order;
      for i := 0 to |leavers|
        invariant State() == old(State()).(world := old(State()).world.(ships := DisengageAll(old(ships), leavers[..i])))
      {
        ships := Disengage(ships, leavers[i]);
        assert leavers[..i + 1][..i] == leavers[..i];
      }
      assert leavers[..|leavers|] == leavers;
      ghost var start := State();
      for i := 0 to |actions|
        invariant State() == Strikes(start, s, actions[..i])
      {
        Execute(s, actions[i]);
        assert actions[..i + 1][..i] == actions[..i];
      }
      assert actions[..|actions|] == actions;
    }

    method Execute(s: Id, a: Action)
      modifies this`ships, this`players, this`sectors, this`created, this`deleted
      ensures State() == Strike(old(State()), s, a)
    {
      if a.target !in ships {
        return;
      }
      ships := ships[a.target := Hit(ships[a.target], a.damage)];
      if ships[a.target].hull <= 0.0 {
        ships := ships - {a.target};
        assert ships == old(ships) - {a.target};
        sectors := Unindex(sectors, s, a.target);
        if a.target !in created {
          deleted := deleted + {a.target};
        }
        ships := Disengage(ships, a.attacker);
      }
    }
  }

  lemma BareHoldNothing(live: World, config: ForkConfig)
    ensures Indexed(BareSectors(live, config), map[]) == BareSectors(live, config)
  {
    var (bare, none) := (BareSectors(live, config), map[]);
    hide Wanted;
    forall s | s in bare ensures Indexed(bare, none)[s] == bare[s] {
      assert Indexed(bare, none)[s].shipIds == {};
    }
  }

  /** Adding a ship to its sector's index is indexing one ship more. */
  lemma IndexedInsert(sectors: map<Id, Sector>, ships: map<Id, Ship>, id: Id, ship: Ship)
    requires id !in ships
    ensures Index(Indexed(sectors, ships), ship.sectorId, id) == Indexed(sectors, ships[id := ship])
  {
    var (a, b) := (Index(Indexed(sectors, ships), ship.sectorId, id), Indexed(sectors, ships[id := ship]));
    forall s | s in sectors ensures a[s].shipIds == b[s].shipIds {
    }
  }

  class GameState {
    var ships: map<Id, Ship>
    var players: map<Id, Player>
    var sectors: map<Id, Sector>
    var squadrons: map<Id, Squadron>
    var deletes: seq<Id>  // the ships whose deletion has been sent to the persistence worker

    ghost function State(): World
      reads this
    {
      World(ships, players, sectors)
    }

    /** Applies one mutation to the live state. A destroyed player ship is deleted from the database too. */
    method ApplyMutation(m: Mutation, newId: Id) returns (r: MutationResult, ghost order: seq<Id>)
      modifies this`ships, this`players, this`sectors, this`deletes
      ensures Enumerates(order, old(sectors).Keys)
      ensures (State(), r) == Step(old(State()), m, order, newId)
      ensures deletes == old(deletes) + if m.DestroyEntity? && m.entityType == ShipEntity && m.entityId in old(ships)
                                           && old(ships)[m.entityId].isPlayerShip then [m.entityId] else []
    {
      hide ChangeValues, ChangeHold, ChangeSlots, Panics, ChangePlayer, NewNpcShip, WithoutLocation;
      var sectorOrder := Enumerate(sectors.Keys);
      order := sectorOrder;
      match m {
        case ModifyShip(id, changes) =>
          if id !in ships {
            return Refused("Ship not found"), order;
          }
          ValuesDoNotPanic(ships[id], changes);
          ships := ships[id := ChangeValues(ships[id], changes)];
          if Panics(ships[id], changes) {
            return Panicked, order;
          }
          ships := ships[id := ChangeHold(ships[id], changes)];
          ships := ships[id := ChangeSlots(ships[id], changes)];
          assert ships == old(ships)[id := ChangeShip(old(ships)[id], changes)];
          r := Done(None);
        case ModifyPlayer(id, changes) =>
          if id !in players {
            return Refused("Player not found"), order;
          }
          players := players[id := ChangePlayer(players[id], changes)];
          r := Done(None);
        case SpawnShip(c) =>
          ships := ships[newId := NewNpcShip(newId, c.name, c.shipClass, c.sectorId, c.position, c.factionId)];
          sectors := Index(sectors, c.sectorId, newId);
          r := Done(Some(newId));
        case DestroyEntity(id, ShipEntity) =>
          if id !in ships {
            return Refused("Ship not found"), order;
          }
          var ship := ships[id];
          ships := ships - {id};
          sectors := Unindex(sectors, ship.sectorId, id);
          if ship.isPlayerShip {
            deletes := deletes + [id];
          }
          r := Done(None);
        case DestroyEntity(id, MissionEntity) =>
          sectors, r := RemoveMission(World(ships, players, sectors), sectorOrder, id);
        case DestroyEntity(id, StationEntity) =>
          sectors, r := RemoveStation(World(ships, players, sectors), sectorOrder, id);
        case DestroyEntity(id, SectorEntity) =>
          if id !in sectors {
            return Refused("Sector not found"), order;
          }
          ships := StrandShips(ships, sectors[id].shipIds);
          sectors := sectors - {id};
          r := Done(None);
        case Announce =>
          r := Done(None);
      }
    }

    /** Applies a list of mutations, or as many as there are up to a panic; spawns draw from `ids`. */
    method ApplyMutations(ms: seq<Mutation>, ids: seq<Id>)
      returns (rs: seq<MutationResult>, ghost orders: seq<seq<Id>>, ghost ws: seq<World>)
      requires |ids| == |ms|
      modifies this`ships, this`players, this`sectors, this`deletes
      ensures Execution(ms, ids, orders, ws, rs) && ws[0] == old(State()) && ws[|rs|] == State()
    {
      hide Step;
      rs, orders, ws := [], [], [State()];
      for i := 0 to |ms|
        invariant |rs| == |orders| == i && |ws| == i + 1 && ws[0] == old(State()) && ws[i] == State()
        invariant forall k | 0 <= k < i :: Visits(orders[k], ws[k]) && Step(ws[k], ms[k], orders[k], ids[k]) == (ws[k + 1], rs[k])
        invariant forall k | 0 <= k < i :: !rs[k].Panicked?
      {
        var r, order := ApplyMutation(ms[i], ids[i]);
        rs, orders, ws := rs + [r], orders + [order], ws + [State()];
        if r.Panicked? {
          return;
        }
      }
    }

    /** Fills an empty playtest with copies. */
    method ForkToPlaytest(playtest: PlaytestInstance, config: ForkConfig)
      requires KeysAreIds(State()) && playtest.State() == Playtest(World(map[], map[], map[]), {}, {}) && playtest.squadrons == map[]
      modifies playtest`ships, playtest`players, playtest`sectors, playtest`squadrons
      ensures playtest.State() == Playtest(Forked(State(), config, playtest.ownerId), {}, {})
      ensures playtest.squadrons == SquadronsOf(squadrons, playtest.players)
    {
      var sectorIds := config.sectors;
      if config.sectors == [] {
        var order := Enumerate(sectors.Keys);
        sectorIds := [];
        for i := 0 to |order|
          invariant |sectorIds| == i && forall k | 0 <= k < i :: sectorIds[k] == sectors[order[k]].id
        {
          sectorIds := sectorIds + [sectors[order[i]].id];
        }
        ghost var live := State();
        forall k | 0 <= k < |order| ensures sectorIds[k] == order[k] {
          assert order[k] in live.sectors;
        }
        assert sectorIds == order;
      }
      assert forall s: Id :: s in sectorIds <==> Wanted(State(), config, s);
      ForkSectorsTo(playtest, config, sectorIds);
      ForkShipsTo(playtest, config, sectorIds);
      ForkPlayersTo(playtest);
      ForkSquadronsTo(playtest);
    }

    method ForkSectorsTo(playtest: PlaytestInstance, config: ForkConfig, sectorIds: seq<Id>)
      requires forall s: Id :: s in sectorIds <==> Wanted(State(), config, s)
      requires playtest.sectors == map[]
      modifies playtest`sectors
      ensures playtest.sectors == BareSectors(State(), config)
    {
      hide Wanted;
      ghost var live := State();
      for i := 0 to |sectorIds|
        invariant State() == live
        invariant forall s | s in playtest.sectors ::
            s in sectors && s in sectorIds && playtest.sectors[s] == Bare(sectors[s], config)
        invariant forall k | 0 <= k < i && sectorIds[k] in sectors :: sectorIds[k] in playtest.sectors
      {
        var s := sectorIds[i];
        if s in sectors {
          playtest.sectors := playtest.sectors[s := Bare(sectors[s], config)];
        }
      }
      ghost var wanted := BareSectors(live, config);
      forall s: Id ensures s in playtest.sectors <==> s in wanted {
        assert s in sectorIds <==> Wanted(live, config, s);
        if s in wanted {
          var k :| 0 <= k < |sectorIds| && sectorIds[k] == s;
        }
      }
      assert playtest.sectors == wanted;
    }

    method ForkShipsTo(playtest: PlaytestInstance, config: ForkConfig, sectorIds: seq<Id>)
      requires KeysAreIds(State()) && forall s: Id :: s in sectorIds <==> Wanted(State(), config, s)
      requires playtest.sectors == BareSectors(State(), config) && playtest.ships == map[]
      modifies playtest`sectors, playtest`ships
      ensures playtest.ships == ForkShips(State(), config, playtest.ownerId)
      ensures playtest.sectors == Indexed(BareSectors(State(), config), playtest.ships)
    {
      ghost var bare := BareSectors(State(), config);
      BareHoldNothing(State(), config);
      hide Wanted, BareSectors, Indexed, Index;
      var left := ships.Keys;
      while left != {}
        invariant left <= ships.Keys
        invariant playtest.ships == map id | id in ships && id !in left && Included(State(), config, playtest.ownerId, ships[id]) :: ships[id]
        invariant playtest.sectors == Indexed(bare, playtest.ships)
      {
        var id := Pick(left);
        left := left - {id};
        var ship := ships[id];
        if ship.sectorId in sectorIds {
          if if config.specificShips != [] then ship.id in config.specificShips
             else config.includeShips && (config.includeNpcs || ship.isPlayerShip)
                  && (config.includeOtherPlayers || !ship.isPlayerShip || ship.ownerId == Some(playtest.ownerId)) {
            IndexedInsert(bare, playtest.ships, id, ship);
            playtest.ships := playtest.ships[ship.id := ship];
            playtest.sectors := Index(playtest.sectors, ship.sectorId, ship.id);
          }
        }
      }
    }

    /** The players that own a forked ship. */
    method ForkPlayersTo(playtest: PlaytestInstance)
      requires playtest.players == map[]
      modifies playtest`players
      ensures playtest.players == ForkPlayers(State(), playtest.ships)
    {
      ghost var live := State();
      var left := playtest.ships.Keys;
      while left != {}
        invariant left <= playtest.ships.Keys && State() == live
        invariant forall p | p in playtest.players :: p in players && OwnsOne(playtest.ships, p) && playtest.players[p] == players[p]
        invariant forall id | id in playtest.ships && id !in left && playtest.ships[id].isPlayerShip
                              && playtest.ships[id].ownerId.Some? && playtest.ships[id].ownerId.value in players ::
                    playtest.ships[id].ownerId.value in playtest.players
      {
        var id := Pick(left);
        left := left - {id};
        var ship := playtest.ships[id];
        if ship.isPlayerShip && ship.ownerId.Some? && ship.ownerId.value !in playtest.players && ship.ownerId.value in players {
          playtest.players := playtest.players[ship.ownerId.value := players[ship.ownerId.value]];
        }
      }
      ghost var wanted := ForkPlayers(live, playtest.ships);
      forall p: Id ensures p in playtest.players <==> p in wanted {
        if p in wanted {
          var id :| id in playtest.ships && playtest.ships[id].isPlayerShip && playtest.ships[id].ownerId == Some(p);
        }
      }
      assert playtest.players == wanted;
    }

    /** The squadrons that have a member among the players of the playtest. */
    method ForkSquadronsTo(playtest: PlaytestInstance)
      requires playtest.squadrons == map[]
      modifies playtest`squadrons
      ensures playtest.squadrons == SquadronsOf(squadrons, playtest.players)
    {
      var ids: set<Id> := set p | p in playtest.players && playtest.players[p].squadronId.Some? :: playtest.players[p].squadronId.value;
      assert forall s: Id :: s in ids <==> HasMember(playtest.players, s);
      var left := ids;
      while left != {}
        invariant left <= ids
        invariant playtest.squadrons == map s | s in squadrons && s in ids - left :: squadrons[s]
      {
        var s := Pick(left);
        left := left - {s};
        if s in squadrons {
          playtest.squadrons := playtest.squadrons[s := squadrons[s]];
        }
      }
    }
  }
}
