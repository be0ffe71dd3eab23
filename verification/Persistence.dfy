/** Write-behind persistence (worker.rs): the commands, the rows, and what one command or one pending
    write does to one row. Timestamps that the worker takes from the clock are not columns here. */
module Persistence {
  import opened Prelude

  type Id = int
  type Columns = map<Column, string>

  /** The columns of the four tables. */
  datatype Column =
    Reputation | Fame | FactionStandings | Stats | SquadronId | SquadronRank | ActiveShipId | FactionId
    | PatrolSectorId | IsOnline | LastSeen | OfflineAttacksRemaining | MissionsCompleted | MissionsFailed
    | Credits | GameMode | OwnedShips | OwnerId | Name | ShipClass | SectorId | PositionX | PositionY
    | PositionZ | HullIntegrity | ShieldStrength | Ammunition | Fuel | Morale | Experience | Weapons | Status
    | StatusData | IsPlayerShip | CombatStance | LockedTarget | Cargo | Upgrades | Tag | Motto | Description
    | LeaderId | Officers | Members | PatrolSectors | OwnedStations | Treasury | ReputationBonus | FameBonus
    | AlliedSquadrons | HostileSquadrons | WargamesEnabled | PrivateeringEnabled | Settings | CurrentState
    | Data | TargetPositionX | TargetPositionY | TargetPositionZ | TargetId | AssignedTo | Availability
    | AvailabilityData | Progress | IsHighProfile | Username | PasswordHash | CreatedAt | FoundedAt
    | MissionType | Title | ScriptPath | ReputationReward | ReputationPenalty | FameReward | CreditsReward
    | Priority | ExpiresAt

  datatype Kind = Players | Ships | Squadrons | Missions
  datatype Key = Key(kind: Kind, id: Id)
  type Tables = map<Key, Columns>

  /** A model as it is serialised: its id and its columns. */
  datatype PersistCmd =
    | UpsertPlayer(id: Id, cols: Columns, hash: string)
    | UpdatePlayer(id: Id, cols: Columns)
    | UpsertShip(id: Id, cols: Columns)
    | DeleteShip(id: Id)
    | UpsertSquadron(id: Id, cols: Columns)
    | UpdateMission(id: Id, cols: Columns)
    | Flush
    | Shutdown

  // ---------- the column lists of the upsert functions ----------

  /** The columns overwritten when the row exists already. */
  function Updated(kind: Kind): set<Column> {
    match kind
    case Players =>
      {Reputation, Fame, FactionStandings, Stats, SquadronId, SquadronRank, ActiveShipId,
       FactionId, PatrolSectorId, IsOnline, LastSeen, OfflineAttacksRemaining,
       MissionsCompleted, MissionsFailed, Credits, GameMode, OwnedShips}
    case Ships =>
      {OwnerId, Name, ShipClass, SectorId, PositionX, PositionY, PositionZ, HullIntegrity,
       ShieldStrength, Ammunition, Fuel, Morale, Experience, Weapons, Status, StatusData,
       IsPlayerShip, FactionId, SquadronId, CombatStance, LockedTarget, Cargo, Upgrades}
    case Squadrons =>
      {Name, Tag, Motto, Description, LeaderId, Officers, Members, PatrolSectors,
       OwnedStations, OwnedShips, Treasury, ReputationBonus, FameBonus, AlliedSquadrons,
       HostileSquadrons, WargamesEnabled, PrivateeringEnabled, Settings, Stats}
    case Missions =>
      {CurrentState, Data, TargetPositionX, TargetPositionY, TargetPositionZ, TargetId,
       AssignedTo, Availability, AvailabilityData, Status, Progress, IsHighProfile}
  }

  /** The columns written only when the row is inserted. */
  function InsertOnly(kind: Kind): set<Column> {
    match kind
    case Players => {Username, PasswordHash, CreatedAt}
    case Ships => {}
    case Squadrons => {FoundedAt}
    case Missions =>
      {MissionType, Title, Description, ScriptPath, SectorId, ReputationReward,
       ReputationPenalty, FameReward, CreditsReward, Priority, ExpiresAt, CreatedAt}
  }

  function AllColumns(kind: Kind): set<Column> { Updated(kind) + InsertOnly(kind) }

  function Restrict(cols: Columns, names: set<Column>): Columns {
    map c | c in cols && c in names :: cols[c]
  }

  // ---------- one row ----------

  datatype Write =
    | Upsert(cols: Columns)      // INSERT ... ON CONFLICT (id) DO UPDATE
    | UpdateOnly(cols: Columns)  // UPDATE ... WHERE id = ..., an error when there is no row
    | Remove

  function Exec(kind: Kind, row: Option<Columns>, w: Write): Option<Columns> {
    match w
    case Upsert(cols) => if row.None? then Some(cols) else Some(row.value + Restrict(cols, Updated(kind)))
    case UpdateOnly(cols) => if row.None? then None else Some(row.value + cols)
    case Remove => None
  }

  function Target(c: PersistCmd): Option<Key> {
    match c
    case UpsertPlayer(id, _, _) => Some(Key(Players, id))
    case UpdatePlayer(id, _) => Some(Key(Players, id))
    case UpsertShip(id, _) => Some(Key(Ships, id))
    case DeleteShip(id) => Some(Key(Ships, id))
    case UpsertSquadron(id, _) => Some(Key(Squadrons, id))
    case UpdateMission(id, _) => Some(Key(Missions, id))
    case _ => None
  }

  /** The columns a command carries, and the hash of a player upsert. */
  function ColsOf(c: PersistCmd): Columns {
    match c
    case UpsertPlayer(_, cols, _) => cols
    case UpdatePlayer(_, cols) => cols
    case UpsertShip(_, cols) => cols
    case UpsertSquadron(_, cols) => cols
    case UpdateMission(_, cols) => cols
    case _ => map[]
  }

  function HashOf(c: PersistCmd): Option<string> {
    if c.UpsertPlayer? then Some(c.hash) else None
  }

  function PlayerWrite(cols: Columns, hash: Option<string>): Write {
    match hash
    case Some(h) => Upsert(cols[PasswordHash := h])
    case None => UpdateOnly(cols - {CreatedAt})
  }

  /** The write a command stands for when it is run at once. */
  function WriteOf(c: PersistCmd): Write
    requires Target(c).Some?
  {
    match c
    case UpsertPlayer(_, cols, hash) => PlayerWrite(cols, Some(hash))
    case UpdatePlayer(_, cols) => PlayerWrite(cols, None)
    case UpsertShip(_, cols) => Upsert(cols)
    case DeleteShip(_) => Remove
    case UpsertSquadron(_, cols) => Upsert(cols)
    case UpdateMission(_, cols) => Upsert(cols)
  }

  // ---------- pending writes ----------

  /** At most one write per entity: the last model, and for a player the last hash seen. */
  datatype Batch = Batch(
    players: map<Id, (Columns, Option<string>)>,
    ships: map<Id, Option<Columns>>,
    squadrons: map<Id, Columns>,
    missions: map<Id, Columns>)

  const EMPTY_BATCH := Batch(map[], map[], map[], map[])

  function Enqueue(b: Batch, c: PersistCmd): Batch {
    match c
    case UpsertPlayer(id, cols, hash) => b.(players := b.players[id := (cols, Some(hash))])
    case UpdatePlayer(id, cols) =>
      b.(players := b.players[id := (cols, if id in b.players then b.players[id].1 else None)])
    case UpsertShip(id, cols) => b.(ships := b.ships[id := Some(cols)])
    case DeleteShip(id) => b.(ships := b.ships[id := None])
    case UpsertSquadron(id, cols) => b.(squadrons := b.squadrons[id := cols])
    case UpdateMission(id, cols) => b.(missions := b.missions[id := cols])
    case _ => b
  }

  /** The write that a flush will send for `k`. */
  function Pending(b: Batch, k: Key): Option<Write> {
    match k.kind
    case Players => if k.id in b.players then Some(PlayerWrite(b.players[k.id].0, b.players[k.id].1)) else None
    case Ships => if k.id in b.ships then Some(if b.ships[k.id].Some? then Upsert(b.ships[k.id].value) else Remove) else None
    case Squadrons => if k.id in b.squadrons then Some(Upsert(b.squadrons[k.id])) else None
    case Missions => if k.id in b.missions then Some(Upsert(b.missions[k.id])) else None
  }

  /** A flush executes every pending write once; entities are disjoint, so their order is irrelevant. */
  ghost predicate Flushed(before: Tables, b: Batch, after: Tables) {
    forall k: Key :: Get(after, k) == if Pending(b, k).None? then Get(before, k)
                                      else Exec(k.kind, Get(before, k), Pending(b, k).value)
  }

  // ---------- command lists ----------

  function Put(t: Tables, k: Key, row: Option<Columns>): Tables {
    match row
    case Some(r) => t[k := r]
    case None => t - {k}
  }

  /** The simple form: every command runs against the tables at once. */
  function Immediately(t: Tables, cmds: seq<PersistCmd>): Tables {
    if cmds == [] then t
    else
      var t' := Immediately(t, cmds[..|cmds| - 1]);
      var c := cmds[|cmds| - 1];
      match Target(c)
      case None => t'
      case Some(k) => Put(t', k, Exec(k.kind, Get(t', k), WriteOf(c)))
  }

  function Enqueued(cmds: seq<PersistCmd>): Batch {
    if cmds == [] then EMPTY_BATCH else Enqueue(Enqueued(cmds[..|cmds| - 1]), cmds[|cmds| - 1])
  }

  /** What the worker may do on an event: what arrives waits, or everything that waits is written out. */
  ghost predicate Handled(t: Tables, since: seq<PersistCmd>, arrived: seq<PersistCmd>, after: Tables, held: seq<PersistCmd>) {
    || (after == t && held == since + arrived)
    || (held == [] && Flushed(t, Enqueued(since + arrived), after))
  }

  /** The commands for one entity, in order. */
  function Only(k: Key, cmds: seq<PersistCmd>): (ops: seq<PersistCmd>)
    ensures forall i | 0 <= i < |ops| :: Target(ops[i]) == Some(k)
    ensures forall i | 0 <= i < |ops| :: ops[i] in cmds
  {
    if cmds == [] then []
    else
      var c := cmds[|cmds| - 1];
      Only(k, cmds[..|cmds| - 1]) + if Target(c) == Some(k) then [c] else []
  }

  /** Serialisation always produces all columns; only the hash is not part of the player. */
  predicate WellFormedCmd(c: PersistCmd) {
    match c
    case UpsertPlayer(_, cols, _) => cols.Keys == AllColumns(Players) - {PasswordHash}
    case UpdatePlayer(_, cols) => cols.Keys == AllColumns(Players) - {PasswordHash}
    case UpsertShip(_, cols) => cols.Keys == AllColumns(Ships)
    case UpsertSquadron(_, cols) => cols.Keys == AllColumns(Squadrons)
    case UpdateMission(_, cols) => cols.Keys == AllColumns(Missions)
    case _ => true
  }

  predicate WellFormedRow(kind: Kind, row: Option<Columns>) {
    row.Some? ==> row.value.Keys == AllColumns(kind)
  }

  ghost predicate WellFormedTables(t: Tables) {
    forall k | k in t :: WellFormedRow(k.kind, Get(t, k))
  }
}
