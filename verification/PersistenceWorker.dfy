/** The persistence worker (worker.rs): it collects commands in four maps and writes them out when told
    to, when the maps hold fifty entries, when a deadline passes and before it stops. */
module PersistenceWorker {
  import opened Prelude
  import opened Persistence
  import opened Coalescing

  class Database {
    var tables: Tables

    constructor (tables: Tables)
      ensures this.tables == tables
    {
      this.tables := tables;
    }

    method Execute(k: Key, w: Write)
      modifies this
      ensures tables == Put(old(tables), k, Exec(k.kind, Get(old(tables), k), w))
    {
      match Exec(k.kind, Get(tables, k), w)
      case Some(row) => tables := tables[k := row];
      case None => tables := tables - {k};
    }
  }

  const MAX_BATCH_SIZE := 50

  /** What the worker's loop wakes up for. The end of the list is the closing of the channel. */
  datatype Event = Command(cmd: PersistCmd) | Deadline

  class Worker {
    const db: Database
    var players: map<Id, (Columns, Option<string>)>
    var ships: map<Id, Option<Columns>>
    var squadrons: map<Id, Columns>
    var missions: map<Id, Columns>

    ghost var since: seq<PersistCmd>         // commands since the last flush
    ghost var flushed: seq<seq<PersistCmd>>  // commands between earlier flushes
    ghost var tablesAt: seq<Tables>          // the tables at the start and after each flush

    ghost function Contents(): Batch
      reads this
    {
      Batch(players, ships, squadrons, missions)
    }

    ghost predicate Valid()
      reads this, db
    {
      && Contents() == Enqueued(since)
      && |tablesAt| == |flushed| + 1 && FlushHistory(flushed, tablesAt)
      && db.tables == tablesAt[|flushed|]
    }

    /** Every command taken from the channel, in order. */
    ghost function Received(): seq<PersistCmd>
      reads this
    {
      Flatten(flushed) + since
    }

    constructor (db: Database)
      ensures this.db == db && Valid() && Received() == [] && tablesAt == [db.tables] && Contents() == EMPTY_BATCH
    {
      this.db := db;
      players, ships, squadrons, missions := map[], map[], map[], map[];
      since, flushed, tablesAt := [], [], [db.tables];
    }

    function Len(): nat
      reads this
    {
      |players| + |ships| + |squadrons| + |missions|
    }

    /** Takes one command from the channel into the batch. */
    method Receive(cmd: PersistCmd)
      requires Valid()
      modifies this
      ensures Valid() && since == old(since) + [cmd]
      ensures flushed == old(flushed) && tablesAt == old(tablesAt)
      ensures Received() == old(Received()) + [cmd]
    {
      hide FlushHistory, Enqueue, Enqueued, Flatten;
      EnqueuedSnoc(since, cmd);
      ApplyCommand(cmd);
      since := since + [cmd];
    }

    method ApplyCommand(cmd: PersistCmd)
      modifies this`players, this`ships, this`squadrons, this`missions
      ensures Contents() == Enqueue(old(Contents()), cmd)
    {
      match cmd {
        case UpsertPlayer(id, cols, hash) => players := players[id := (cols, Some(hash))];
        case UpdatePlayer(id, cols) =>
          var hash := if id in players then players[id].1 else None;
          players := players[id := (cols, hash)];
        case UpsertShip(id, cols) => ships := ships[id := Some(cols)];
        case DeleteShip(id) => ships := ships[id := None];
        case UpsertSquadron(id, cols) => squadrons := squadrons[id := cols];
        case UpdateMission(id, cols) => missions := missions[id := cols];
        case Flush =>
        case Shutdown =>
      }
    }

    /** Writes out and empties the batch, draining each map in whatever order it comes. */
    method FlushBatch()
      requires Valid()
      modifies this, db
      ensures Valid() && since == [] && Len() == 0
      ensures flushed == old(flushed) + [old(since)]
      ensures tablesAt == old(tablesAt) + [db.tables]
    {
      assert Enqueued([]) == EMPTY_BATCH;
      hide Enqueued, FlushHistory, Exec, Flushed;
      DrainMaps();
      Extended(flushed, tablesAt, since, db.tables);
      flushed, tablesAt, since := flushed + [since], tablesAt + [db.tables], [];
    }

    method DrainMaps()
      modifies this`players, this`ships, this`squadrons, this`missions, db
      ensures Contents() == EMPTY_BATCH
      ensures Flushed(old(db.tables), old(Contents()), db.tables)
    {
      hide Exec, PlayerWrite, Drained, Flushed, Pending;
      ghost var (b, t) := (Contents(), db.tables);
      DrainPlayers();
      ghost var t1 := db.tables;
      DrainedAlike(Ships, Contents(), b, t1);
      DrainShips();
      ghost var t2 := db.tables;
      DrainedAlike(Squadrons, Contents(), b, t2);
      DrainSquadrons();
      ghost var t3 := db.tables;
      DrainedAlike(Missions, Contents(), b, t3);
      DrainMissions();
      FlushedAfterAll(b, t, t1, t2, t3, db.tables);
    }

    method DrainPlayers()
      modifies this`players, db
      ensures players == map[]
      ensures forall k: Key :: Get(db.tables, k) == Drained(Players, old(Contents()), old(db.tables), k)
    {
      var todo := players.Keys;
      while todo != {}
        invariant todo <= players.Keys && players == old(players)
        invariant forall k: Key :: Get(db.tables, k) ==
                    if k.kind == Players && k.id in todo then Get(old(db.tables), k)
                    else Drained(Players, old(Contents()), old(db.tables), k)
      {
        var id := Pick(todo);
        var (cols, hash) := players[id];
        db.Execute(Key(Players, id), PlayerWrite(cols, hash));
        todo := todo - {id};
      }
      players := map[];
    }

    method DrainShips()
      modifies this`ships, db
      ensures ships == map[]
      ensures forall k: Key :: Get(db.tables, k) == Drained(Ships, old(Contents()), old(db.tables), k)
    {
      var todo := ships.Keys;
      while todo != {}
        invariant todo <= ships.Keys && ships == old(ships)
        invariant forall k: Key :: Get(db.tables, k) ==
                    if k.kind == Ships && k.id in todo then Get(old(db.tables), k)
                    else Drained(Ships, old(Contents()), old(db.tables), k)
      {
        var id := Pick(todo);
        match ships[id] {
          case Some(cols) => db.Execute(Key(Ships, id), Upsert(cols));
          case None => db.Execute(Key(Ships, id), Remove);
        }
        todo := todo - {id};
      }
      ships := map[];
    }

    method DrainSquadrons()
      modifies this`squadrons, db
      ensures squadrons == map[]
      ensures forall k: Key :: Get(db.tables, k) == Drained(Squadrons, old(Contents()), old(db.tables), k)
    {
      var todo := squadrons.Keys;
      while todo != {}
        invariant todo <= squadrons.Keys && squadrons == old(squadrons)
        invariant forall k: Key :: Get(db.tables, k) ==
                    if k.kind == Squadrons && k.id in todo then Get(old(db.tables), k)
                    else Drained(Squadrons, old(Contents()), old(db.tables), k)
      {
        var id := Pick(todo);
        db.Execute(Key(Squadrons, id), Upsert(squadrons[id]));
        todo := todo - {id};
      }
      squadrons := map[];
    }

    method DrainMissions()
      modifies this`missions, db
      ensures missions == map[]
      ensures forall k: Key :: Get(db.tables, k) == Drained(Missions, old(Contents()), old(db.tables), k)
    {
      var todo := missions.Keys;
      while todo != {}
        invariant todo <= missions.Keys && missions == old(missions)
        invariant forall k: Key :: Get(db.tables, k) ==
                    if k.kind == Missions && k.id in todo then Get(old(db.tables), k)
                    else Drained(Missions, old(Contents()), old(db.tables), k)
      {
        var id := Pick(todo);
        db.Execute(Key(Missions, id), Upsert(missions[id]));
        todo := todo - {id};
      }
      missions := map[];
    }

    /** The worker's loop. Nothing received is lost, whenever the flushes happen: on return every command
        before the first Shutdown has been written out, in one of the flushed batches. */
    method Run(events: seq<Event>)
      requires Valid() && since == [] && Len() == 0
      modifies this, db
      ensures Valid() && since == []
      ensures tablesAt[0] == old(tablesAt[0])
      ensures Received() == old(Received()) + Arriving(events)
      ensures AllMergeable(flushed, tablesAt) ==> db.tables == Immediately(tablesAt[0], Received())
    {
      hide FlushHistory, Enqueued, Flatten, Arriving, Arrived, AllMergeable, Handled;
      var i := 0;
      assert events[0..] == events;
      while i < |events| && events[i] != Command(Shutdown)
        invariant 0 <= i <= |events|
        invariant Ready() && tablesAt[0] == old(tablesAt[0])
        invariant Received() + Arriving(events[i..]) == old(Received()) + Arriving(events)
      {
        ghost var before := Received();
        ArrivingNext(events, i);
        Handle(events[i]);
        assert before + (Arrived(events[i]) + Arriving(events[i + 1..])) == Received() + Arriving(events[i + 1..]);
        i := i + 1;
      }
      ArrivingNext(events, i);
      FlushUnlessEmpty();
      RunEnds(flushed, tablesAt);
    }

    ghost predicate OnlyWrites()
      reads this
    {
      forall i | 0 <= i < |since| :: Target(since[i]).Some?
    }

    /** Between two events: the batch is not full, and holds nothing but writes. */
    ghost predicate Ready()
      reads this, db
    {
      Valid() && Len() < MAX_BATCH_SIZE && OnlyWrites()
    }

    /** One event of the loop: flushes on order, on the deadline and when the batch is full. */
    method Handle(event: Event)
      requires Ready() && event != Command(Shutdown)
      modifies this, db
      ensures Ready()
      ensures Received() == old(Received()) + Arrived(event) && tablesAt[0] == old(tablesAt[0])
      ensures Handled(old(db.tables), old(since), Arrived(event), db.tables, since)
      ensures event == Deadline || event == Command(Flush) ==> since == []
    {
      hide FlushHistory, Enqueued, Flatten, Flushed;
      match event {
        case Command(cmd) =>
          if cmd == Flush {
            FlushUnlessEmpty();
          } else {
            Receive(cmd);
            if Len() >= MAX_BATCH_SIZE {
              FlushAll();
            }
          }
        case Deadline =>
          FlushUnlessEmpty();
      }
    }

    method FlushAll()
      requires Valid()
      modifies this, db
      ensures Valid() && Len() == 0 && since == []
      ensures Received() == old(Received()) && tablesAt[0] == old(tablesAt[0])
      ensures Flushed(old(db.tables), Enqueued(old(since)), db.tables)
    {
      FlushBatch();
      assert flushed[..|flushed| - 1] == old(flushed);
      assert Flushed(tablesAt[|flushed| - 1], Enqueued(flushed[|flushed| - 1]), tablesAt[|flushed| - 1 + 1]);
    }

    method FlushUnlessEmpty()
      requires Valid() && OnlyWrites()
      modifies this, db
      ensures Valid() && Len() == 0 && since == []
      ensures Received() == old(Received()) && tablesAt[0] == old(tablesAt[0])
      ensures Handled(old(db.tables), old(since), [], db.tables, [])
    {
      assert since + [] == since;
      if players != map[] || ships != map[] || squadrons != map[] || missions != map[] {
        FlushAll();
      } else if since != [] {
        assert Target(since[|since| - 1]).Some?;
        EnqueueNotEmpty(Enqueued(since[..|since| - 1]), since[|since| - 1]);
        assert false;
      }
    }
  }

  /** The commands that reach the batch: Flush is an order, and Shutdown ends the run. */
  function Arriving(events: seq<Event>): seq<PersistCmd> {
    if events == [] || events[0] == Command(Shutdown) then []
    else Arrived(events[0]) + Arriving(events[1..])
  }

  function Arrived(event: Event): seq<PersistCmd> {
    if event.Command? && event.cmd != Flush && event.cmd != Shutdown then [event.cmd] else []
  }

  lemma ArrivingNext(events: seq<Event>, i: nat)
    requires i <= |events|
    ensures Arriving(events[i..]) ==
            if i == |events| || events[i] == Command(Shutdown) then []
            else Arrived(events[i]) + Arriving(events[i + 1..])
  {
    if i < |events| {
      assert events[i..][1..] == events[i + 1..];
    }
  }

  /** Every flushed batch could be merged on the tables it found. */
  ghost predicate AllMergeable(batches: seq<seq<PersistCmd>>, ts: seq<Tables>)
    requires |ts| == |batches| + 1
  {
    && WellFormedTables(ts[0])
    && (forall b, c | b in batches && c in b :: WellFormedCmd(c))
    && forall i | 0 <= i < |batches| :: BatchMergeable(ts[i], batches[i])
  }

  lemma RunEnds(batches: seq<seq<PersistCmd>>, ts: seq<Tables>)
    requires |ts| == |batches| + 1 && FlushHistory(batches, ts)
    ensures AllMergeable(batches, ts) ==> ts[|batches|] == Immediately(ts[0], Flatten(batches) + [])
  {
    if AllMergeable(batches, ts) {
      FinalTables(batches, ts);
      assert Flatten(batches) + [] == Flatten(batches);
    }
  }

  /** What draining one of the four maps does to a row. */
  ghost function Drained(kind: Kind, b: Batch, t: Tables, k: Key): Option<Columns> {
    if k.kind == kind && Pending(b, k).Some? then Exec(kind, Get(t, k), Pending(b, k).value) else Get(t, k)
  }

  /** Only the map of its own kind matters. */
  lemma DrainedAlike(kind: Kind, b: Batch, c: Batch, t: Tables)
    requires match kind
             case Players => b.players == c.players
             case Ships => b.ships == c.ships
             case Squadrons => b.squadrons == c.squadrons
             case Missions => b.missions == c.missions
    ensures forall k: Key :: Drained(kind, b, t, k) == Drained(kind, c, t, k)
  {
    hide Exec, PlayerWrite;
  }

  /** Draining the four maps one after the other is a flush. */
  lemma FlushedAfterAll(b: Batch, t: Tables, t1: Tables, t2: Tables, t3: Tables, t4: Tables)
    requires forall k: Key :: Get(t1, k) == Drained(Players, b, t, k)
    requires forall k: Key :: Get(t2, k) == Drained(Ships, b, t1, k)
    requires forall k: Key :: Get(t3, k) == Drained(Squadrons, b, t2, k)
    requires forall k: Key :: Get(t4, k) == Drained(Missions, b, t3, k)
    ensures Flushed(t, b, t4)
  {
    hide Exec, Pending;
  }

  lemma EnqueueNotEmpty(b: Batch, c: PersistCmd)
    requires Target(c).Some?
    ensures Enqueue(b, c) != EMPTY_BATCH
  {
    match c
    case UpsertPlayer(id, _, _) => assert id in Enqueue(b, c).players;
    case UpdatePlayer(id, _) => assert id in Enqueue(b, c).players;
    case UpsertShip(id, _) => assert id in Enqueue(b, c).ships;
    case DeleteShip(id) => assert id in Enqueue(b, c).ships;
    case UpsertSquadron(id, _) => assert id in Enqueue(b, c).squadrons;
    case UpdateMission(id, _) => assert id in Enqueue(b, c).missions;
  }

  lemma EnqueuedSnoc(cmds: seq<PersistCmd>, c: PersistCmd)
    ensures Enqueued(cmds + [c]) == Enqueue(Enqueued(cmds), c)
  {
    assert (cmds + [c])[..|cmds|] == cmds;
  }

  lemma Extended(flushed: seq<seq<PersistCmd>>, ts: seq<Tables>, since: seq<PersistCmd>, t: Tables)
    requires FlushHistory(flushed, ts) && Flushed(ts[|flushed|], Enqueued(since), t)
    ensures FlushHistory(flushed + [since], ts + [t])
  {
    hide Flushed, Enqueued;
    var bs, us := flushed + [since], ts + [t];
    forall i | 0 <= i < |bs| ensures Flushed(us[i], Enqueued(bs[i]), us[i + 1]) {
      if i < |flushed| {
        assert Flushed(ts[i], Enqueued(flushed[i]), ts[i + 1]);
      }
    }
  }
}
