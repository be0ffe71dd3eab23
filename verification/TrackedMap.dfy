/** The map that knows which of its entries changed (tracked.rs), and one tick's persisting of what did,
    with the worker flushing whenever it likes. Mirror says what happens when others come in between. */
module TrackedMap {
  import opened Prelude
  import opened Persistence
  import opened Coalescing
  import opened PersistenceWorker
  import opened Mirror

  /** Changes are noticed by comparing hashes, so a change that keeps the hash is missed. */
  class TrackedDashMap<V(==)> {
    const hash: V -> int
    var inner: map<Id, V>
    var dirty: set<Id>

    constructor (hash: V -> int)
      ensures this.hash == hash && inner == map[] && dirty == {}
    {
      this.hash := hash;
      inner, dirty := map[], {};
    }

    method Insert(key: Id, value: V) returns (prior: Option<V>)
      modifies this
      ensures prior == Get(old(inner), key)
      ensures inner == old(inner)[key := value] && dirty == old(dirty) + {key}
    {
      dirty := dirty + {key};
      prior := Get(inner, key);
      inner := inner[key := value];
    }

    method Remove(key: Id) returns (prior: Option<V>)
      modifies this
      ensures prior == Get(old(inner), key)
      ensures inner == old(inner) - {key} && dirty == old(dirty) - {key}
    {
      dirty := dirty - {key};
      prior := Get(inner, key);
      inner := inner - {key};
    }

    /** The life of one mutable reference: the hash is taken when it is handed out, `values` are written
        through it in turn, and the hash is compared when it is dropped. */
    method GetMutAndDrop(key: Id, values: seq<V>) returns (found: bool)
      modifies this
      ensures found == (key in old(inner))
      ensures !found ==> inner == old(inner) && dirty == old(dirty)
      ensures found ==> var before := old(inner)[key];
                        var after := if values == [] then before else values[|values| - 1];
                        && inner == old(inner)[key := after]
                        && dirty == old(dirty) + if hash(after) != hash(before) then {key} else {}
    {
      if key !in inner {
        return false;
      }
      var originalHash := hash(inner[key]);
      for i := 0 to |values|
        invariant inner == old(inner)[key := if i == 0 then old(inner)[key] else values[i - 1]]
        invariant dirty == old(dirty)
      {
        inner := inner[key := values[i]];
      }
      if hash(inner[key]) != originalHash {
        dirty := dirty + {key};
      }
      found := true;
    }

    /** Hands out every dirty key once and forgets them. */
    method DrainDirty() returns (keys: seq<Id>)
      modifies this`dirty
      ensures Enumerates(keys, old(dirty)) && dirty == {}
    {
      keys := Enumerate(dirty);
      dirty := {};
    }
  }

  // ---------- one tick ----------

  /** Nothing here is about a ship. */
  ghost predicate NoShips(events: seq<Event>) {
    forall e | e in events :: e.Command? ==> e.cmd != Shutdown && !e.cmd.UpsertShip? && !e.cmd.DeleteShip? && WellFormedCmd(e.cmd)
  }

  /** An event about something else: the rows ahead stay, whether the worker flushes or not. */
  lemma OtherMirrors<V>(codec: Codec<V>, inner: map<Id, V>, except: set<Id>, t: Tables, since: seq<PersistCmd>,
                        event: Event, after: Tables, held: seq<PersistCmd>)
    requires SoundRows(t, since) && Mirrored(codec, inner, except, t, since)
    requires NoShips([event]) && Handled(t, since, Arrived(event), after, held)
    ensures SoundRows(after, held) && Mirrored(codec, inner, except, after, held)
  {
    hide RowAhead, WellFormedRow, WellFormedCmd, Handled;
    assert event in [event];
    var cmds := since + Arrived(event);
    assert cmds + [] == cmds && held + [] == held;
    if Arrived(event) == [] {
      assert cmds == since;
    } else {
      forall k: Id ensures RowAhead(t, cmds, k) == RowAhead(t, since, k) {
        RowAheadSnoc(t, since, event.cmd, k);
      }
    }
    HandledKeepsRows(t, since, Arrived(event), [], after, held);
  }

  /** Sending a ship takes it off the list of exceptions. */
  lemma UpsertMirrors<V(!new)>(codec: Codec<V>, inner: map<Id, V>, except: set<Id>, t: Tables, since: seq<PersistCmd>,
                               id: Id, after: Tables, held: seq<PersistCmd>)
    requires Serialises(codec) && SoundRows(t, since) && Mirrored(codec, inner, except, t, since) && id in inner
    requires Handled(t, since, [UpsertShip(id, codec.cols(inner[id]))], after, held)
    ensures SoundRows(after, held) && Mirrored(codec, inner, except - {id}, after, held)
  {
    hide RowAhead, WellFormedRow, Handled;
    var c := UpsertShip(id, codec.cols(inner[id]));
    var cmds := since + [c];
    assert cmds + [] == cmds && held + [] == held;
    forall k: Id ensures RowAhead(t, cmds, k) == RowAfter(RowAhead(t, since, k), c, k) {
      RowAheadSnoc(t, since, c, k);
    }
    HandledKeepsRows(t, since, [c], [], after, held);
  }

  /** Other commands and deadlines that the worker handles in between. */
  method Meanwhile<V>(codec: Codec<V>, ghost inner: map<Id, V>, ghost except: set<Id>, worker: Worker, events: seq<Event>)
    requires worker.Ready() && NoShips(events)
    requires SoundRows(worker.db.tables, worker.since) && Mirrored(codec, inner, except, worker.db.tables, worker.since)
    modifies worker, worker.db
    ensures worker.Ready()
    ensures SoundRows(worker.db.tables, worker.since) && Mirrored(codec, inner, except, worker.db.tables, worker.since)
  {
    hide SoundRows, Mirrored, Handled, Serialises, Arrived;
    for i := 0 to |events|
      invariant worker.Ready()
      invariant SoundRows(worker.db.tables, worker.since) && Mirrored(codec, inner, except, worker.db.tables, worker.since)
    {
      assert events[i] in events;
      ghost var (t, since) := (worker.db.tables, worker.since);
      worker.Handle(events[i]);
      OtherMirrors(codec, inner, except, t, since, events[i], worker.db.tables, worker.since);
    }
  }

  /** Sends a ship, if it is still there and a player's. */
  method PersistShip<V(==,!new)>(codec: Codec<V>, ships: TrackedDashMap<V>, worker: Worker, id: Id, ghost except: set<Id>)
    requires Serialises(codec) && worker.Ready()
    requires SoundRows(worker.db.tables, worker.since) && Mirrored(codec, ships.inner, except, worker.db.tables, worker.since)
    modifies worker, worker.db
    ensures worker.Ready()
    ensures SoundRows(worker.db.tables, worker.since) && Mirrored(codec, ships.inner, except - {id}, worker.db.tables, worker.since)
  {
    if id in ships.inner && codec.isPlayer(ships.inner[id]) {
      hide SoundRows, Mirrored, Handled, Serialises;
      ghost var (t, since) := (worker.db.tables, worker.since);
      worker.Handle(Command(UpsertShip(id, codec.cols(ships.inner[id]))));
      UpsertMirrors(codec, ships.inner, except, t, since, id, worker.db.tables, worker.since);
    }
  }

  /** One upsert per drained key that belongs to a player. Between two of them the worker may handle any
      other commands and deadlines, and it flushes when its batch is full. Every ship that was in the
      database or on its way there unless it was dirty then is so without exception. */
  method PersistDirtyShips<V(==,!new)>(codec: Codec<V>, ships: TrackedDashMap<V>, worker: Worker, others: nat -> seq<Event>)
    requires Serialises(codec) && worker.Ready() && forall i :: NoShips(others(i))
    requires SoundRows(worker.db.tables, worker.since)
    requires Mirrored(codec, ships.inner, ships.dirty, worker.db.tables, worker.since)
    modifies ships`dirty, worker, worker.db
    ensures worker.Ready() && ships.dirty == {} && SoundRows(worker.db.tables, worker.since)
    ensures Mirrored(codec, ships.inner, {}, worker.db.tables, worker.since)
  {
    hide SoundRows, RowAhead, Mirrored, Handled, Serialises, NoShips, Arrived;
    var keys := ships.DrainDirty();
    ghost var left := old(ships.dirty);
    for i := 0 to |keys|
      invariant ships.dirty == {} && worker.Ready() && SoundRows(worker.db.tables, worker.since)
      invariant forall k | k in left :: k in keys[i..]
      invariant Mirrored(codec, ships.inner, left, worker.db.tables, worker.since)
    {
      assert keys[i..] == [keys[i]] + keys[i + 1..];
      PersistShip(codec, ships, worker, keys[i], left);
      left := left - {keys[i]};
      Meanwhile(codec, ships.inner, left, worker, others(i));
    }
    if left != {} {
      var _ := Outsider(left, {});
    }
  }

  /** After one tick's persisting and a flush the row of every player ship in the map is that ship. */
  method PersistAndFlush<V(==,!new)>(codec: Codec<V>, ships: TrackedDashMap<V>, worker: Worker, others: nat -> seq<Event>)
    requires Serialises(codec) && worker.Ready() && forall i :: NoShips(others(i))
    requires SoundRows(worker.db.tables, worker.since)
    requires Mirrored(codec, ships.inner, ships.dirty, worker.db.tables, worker.since)
    modifies ships`dirty, worker, worker.db
    ensures worker.Ready() && ships.dirty == {} && worker.since == [] && SoundRows(worker.db.tables, [])
    ensures Mirrored(codec, ships.inner, {}, worker.db.tables, [])
    ensures forall id | id in ships.inner && codec.isPlayer(ships.inner[id]) ::
              Get(worker.db.tables, Key(Ships, id)) == Some(codec.cols(ships.inner[id]))
  {
    PersistDirtyShips(codec, ships, worker, others);
    hide SoundRows, RowAhead, Handled, Serialises, Fold;
    ghost var (t, since) := (worker.db.tables, worker.since);
    worker.Handle(Deadline);
    OtherMirrors(codec, ships.inner, {}, t, since, Deadline, worker.db.tables, worker.since);
  }
}
