/** The database mirrors the map of ships: what happens to the map (tracked.rs), to the channel and in the
    worker (worker.rs) interleaved in any way, and exactly which steps lose a ship. */
module Mirror {
  import opened Prelude
  import opened Persistence
  import opened Coalescing

  // ---------- the row a ship will have ----------

  /** How a ship is serialised, and whether it belongs to a player: only those are persisted. */
  datatype Codec<!V> = Codec(isPlayer: V -> bool, cols: V -> Columns)

  ghost predicate Serialises<V(!new)>(codec: Codec<V>) {
    forall v: V :: codec.cols(v).Keys == AllColumns(Ships)
  }

  /** The row a ship will have once all these commands have been written. */
  ghost function RowAhead(t: Tables, cmds: seq<PersistCmd>, id: Id): Option<Columns> {
    Fold(Ships, Get(t, Key(Ships, id)), Only(Key(Ships, id), cmds))
  }

  ghost predicate SoundRows(t: Tables, cmds: seq<PersistCmd>) {
    && (forall c | c in cmds :: WellFormedCmd(c))
    && forall id: Id :: WellFormedRow(Ships, Get(t, Key(Ships, id)))
  }

  lemma RowAheadWellFormed(t: Tables, cmds: seq<PersistCmd>, id: Id)
    requires SoundRows(t, cmds)
    ensures WellFormedRow(Ships, RowAhead(t, cmds, id))
  {
    var k := Key(Ships, id);
    if Only(k, cmds) != [] {
      ShipsMerge(k, Get(t, k), Only(k, cmds));
    }
  }

  /** The row after one more command. */
  function RowAfter(row: Option<Columns>, c: PersistCmd, id: Id): Option<Columns> {
    match c
    case UpsertShip(i, cols) => if i == id then Some(cols) else row
    case DeleteShip(i) => if i == id then None else row
    case _ => row
  }

  lemma RowAheadSnoc(t: Tables, cmds: seq<PersistCmd>, c: PersistCmd, id: Id)
    requires SoundRows(t, cmds) && WellFormedCmd(c)
    ensures RowAhead(t, cmds + [c], id) == RowAfter(RowAhead(t, cmds, id), c, id)
  {
    hide Updated, InsertOnly, Only, Fold;
    var k := Key(Ships, id);
    OnlySnoc(k, cmds, c);
    if Target(c) == Some(k) {
      FoldSnoc(Ships, Get(t, k), Only(k, cmds), c);
      if c.UpsertShip? {
        RowAheadWellFormed(t, cmds, id);
        ShipOverwrites(RowAhead(t, cmds, id), c.cols);
      }
    } else {
      assert Only(k, cmds) + [] == Only(k, cmds);
    }
  }

  lemma OnlySnoc(k: Key, cmds: seq<PersistCmd>, c: PersistCmd)
    ensures Only(k, cmds + [c]) == Only(k, cmds) + if Target(c) == Some(k) then [c] else []
  {
    assert (cmds + [c])[..|cmds|] == cmds;
  }

  lemma FoldSnoc(kind: Kind, row: Option<Columns>, ops: seq<PersistCmd>, c: PersistCmd)
    requires Target(c).Some? && forall i | 0 <= i < |ops| :: Target(ops[i]).Some?
    ensures Fold(kind, row, ops + [c]) == Exec(kind, Fold(kind, row, ops), WriteOf(c))
  {
    assert (ops + [c])[..|ops|] == ops;
  }

  /** A flush makes the rows ahead the rows. */
  lemma FlushReaches(t: Tables, cmds: seq<PersistCmd>, after: Tables, id: Id)
    requires SoundRows(t, cmds) && Flushed(t, Enqueued(cmds), after)
    ensures Get(after, Key(Ships, id)) == RowAhead(t, cmds, id) == RowAhead(after, [], id)
  {
    var k := Key(Ships, id);
    PendingByEntity(cmds, k);
    if Only(k, cmds) != [] {
      MergedLast(k, Only(k, cmds));
      ShipsMerge(k, Get(t, k), Only(k, cmds));
    }
    assert Only(k, []) == [];
  }

  /** Whatever the worker does on an event, the rows ahead stay. */
  lemma {:induction false} HandledKeepsRows(t: Tables, since: seq<PersistCmd>, arrived: seq<PersistCmd>, rest: seq<PersistCmd>,
                                            t': Tables, since': seq<PersistCmd>)
    requires SoundRows(t, since + arrived + rest) && Handled(t, since, arrived, t', since')
    ensures SoundRows(t', since' + rest)
    ensures forall id: Id :: RowAhead(t', since' + rest, id) == RowAhead(t, since + arrived + rest, id)
    decreases |rest|
  {
    hide RowAhead, WellFormedCmd, WellFormedRow, Flushed;
    if rest == [] {
      assert since + arrived + rest == since + arrived && since' + rest == since';
      if Flushed(t, Enqueued(since + arrived), t') && since' == [] {
        forall id: Id
          ensures WellFormedRow(Ships, Get(t', Key(Ships, id))) && RowAhead(t', since', id) == RowAhead(t, since + arrived, id)
        {
          FlushReaches(t, since + arrived, t', id);
          RowAheadWellFormed(t, since + arrived, id);
        }
      }
    } else {
      var (front, last) := (rest[..|rest| - 1], rest[|rest| - 1]);
      var (before, after) := (since + arrived + front, since' + front);
      assert since + arrived + rest == before + [last] && since' + rest == after + [last];
      HandledKeepsRows(t, since, arrived, front, t', since');
      forall id: Id ensures RowAhead(t', after + [last], id) == RowAhead(t, before + [last], id) {
        RowAheadSnoc(t, before, last, id);
        RowAheadSnoc(t', after, last, id);
      }
    }
  }

  // ---------- map, channel and worker ----------

  /** The ships, the keys marked dirty, those that a drain has collected and the loop has not looked up yet,
      those that are being removed, the commands in the channel, those the worker holds, and the tables. */
  datatype State<V> = State(
    inner: map<Id, V>, dirty: set<Id>, collected: set<Id>, leaving: set<Id>,
    channel: seq<PersistCmd>, since: seq<PersistCmd>, tables: Tables)

  /** What can happen between two points at which another thread may come in. An insertion marks its key
      and then stores the value; a removal drops the mark and then the value; a drain collects the keys one
      by one and then clears them one by one. A mutable reference keeps the others out until it is dropped,
      with the mark set, and so does the reference through which the loop reads and sends. */
  datatype Action<V> =
    | InsertMarks(key: Id)
    | InsertStores(key: Id, value: V)
    | Change(key: Id, value: V)
    | RemoveUnmarks(key: Id)
    | RemoveDiscards(key: Id)
    | DrainCollects(key: Id)
    | DrainClears(key: Id)
    | LoopSends(key: Id)
    | Tell(cmd: PersistCmd)
    | WorkerTakes(after: Tables, held: seq<PersistCmd>)
    | WorkerWakes(after: Tables, held: seq<PersistCmd>)

  /** Flush and Shutdown are orders: nothing of them gets into a batch. */
  function Taken(c: PersistCmd): seq<PersistCmd> {
    if c == Flush || c == Shutdown then [] else [c]
  }

  ghost predicate Possible<V>(s: State<V>, a: Action<V>) {
    match a
    case Change(k, _) => k in s.inner
    case DrainCollects(k) => k in s.dirty
    case LoopSends(k) => k in s.collected
    case Tell(c) => WellFormedCmd(c)
    case WorkerTakes(after, held) => s.channel != [] && Handled(s.tables, s.since, Taken(s.channel[0]), after, held)
    case WorkerWakes(after, held) => Handled(s.tables, s.since, [], after, held)
    case _ => true
  }

  /** Changes of an entry are noticed by comparing hashes. */
  function Next<V>(codec: Codec<V>, hash: V -> int, s: State<V>, a: Action<V>): State<V> {
    match a
    case InsertMarks(k) => s.(dirty := s.dirty + {k})
    case InsertStores(k, v) => s.(inner := s.inner[k := v])
    case Change(k, v) =>
      s.(inner := s.inner[k := v], dirty := s.dirty + if k in s.inner && hash(s.inner[k]) != hash(v) then {k} else {})
    case RemoveUnmarks(k) => s.(dirty := s.dirty - {k}, leaving := s.leaving + {k})
    case RemoveDiscards(k) => s.(inner := s.inner - {k}, leaving := s.leaving - {k})
    case DrainCollects(k) => s.(collected := s.collected + {k})
    case DrainClears(k) => s.(dirty := s.dirty - {k})
    case LoopSends(k) =>
      s.(collected := s.collected - {k},
         channel := s.channel + if k in s.inner && codec.isPlayer(s.inner[k]) then [UpsertShip(k, codec.cols(s.inner[k]))] else [])
    case Tell(c) => s.(channel := s.channel + [c])
    case WorkerTakes(after, held) => if s.channel == [] then s else s.(channel := s.channel[1..], since := held, tables := after)
    case WorkerWakes(after, held) => s.(since := held, tables := after)
  }

  /** Every player ship in the map is in the database or on its way there, except for some. */
  ghost predicate Mirrored<V>(codec: Codec<V>, inner: map<Id, V>, except: set<Id>, t: Tables, cmds: seq<PersistCmd>) {
    forall k | k in inner && k !in except && codec.isPlayer(inner[k]) :: RowAhead(t, cmds, k) == Some(codec.cols(inner[k]))
  }

  function Cmds<V>(s: State<V>): seq<PersistCmd> { s.since + s.channel }

  function Except<V>(s: State<V>): set<Id> { s.dirty + s.collected + s.leaving }

  ghost predicate InStep<V>(codec: Codec<V>, s: State<V>) {
    Mirrored(codec, s.inner, Except(s), s.tables, Cmds(s))
  }

  /** A player ship for which nothing more is going to be sent. */
  predicate Settled<V>(codec: Codec<V>, s: State<V>, k: Id) {
    k in s.inner && codec.isPlayer(s.inner[k]) && k !in Except(s)
  }

  /** The steps that lose a ship: it is or becomes settled, and its row is not going to be what it is. */
  ghost predicate Loses<V>(codec: Codec<V>, hash: V -> int, s: State<V>, a: Action<V>) {
    match a
    case InsertStores(k, v) =>
      codec.isPlayer(v) && k !in Except(s) && RowAhead(s.tables, Cmds(s), k) != Some(codec.cols(v))
    case Change(k, v) =>
      && codec.isPlayer(v) && k !in Except(s) && k in s.inner && hash(v) == hash(s.inner[k])
      && RowAhead(s.tables, Cmds(s), k) != Some(codec.cols(v))
    case DrainClears(k) =>
      && k in s.dirty && k !in s.collected + s.leaving && k in s.inner && codec.isPlayer(s.inner[k])
      && RowAhead(s.tables, Cmds(s), k) != Some(codec.cols(s.inner[k]))
    case Tell(UpsertShip(k, cols)) => Settled(codec, s, k) && cols != codec.cols(s.inner[k])
    case Tell(DeleteShip(k)) => Settled(codec, s, k)
    case _ => false
  }

  /** The commands of a state are complete, and so are its rows. */
  ghost predicate Valid<V>(s: State<V>) {
    SoundRows(s.tables, Cmds(s))
  }

  lemma ColumnsOf<V(!new)>(codec: Codec<V>, k: Id, v: V)
    requires Serialises(codec)
    ensures WellFormedCmd(UpsertShip(k, codec.cols(v)))
  {
  }

  /** What is told to the worker stays ahead of everything told before. */
  lemma TellKeeps<V(!new)>(s: State<V>, c: PersistCmd)
    requires Valid(s) && WellFormedCmd(c)
    ensures var s' := s.(channel := s.channel + [c]);
            && Valid(s')
            && forall id: Id :: RowAhead(s.tables, Cmds(s'), id) == RowAfter(RowAhead(s.tables, Cmds(s), id), c, id)
  {
    hide RowAhead, RowAfter, WellFormedCmd, WellFormedRow;
    assert s.since + (s.channel + [c]) == Cmds(s) + [c];
    forall id: Id ensures RowAhead(s.tables, Cmds(s) + [c], id) == RowAfter(RowAhead(s.tables, Cmds(s), id), c, id) {
      RowAheadSnoc(s.tables, Cmds(s), c, id);
    }
  }

  /** What the worker does changes no row ahead. */
  lemma WorkerKeeps<V(!new)>(codec: Codec<V>, hash: V -> int, s: State<V>, a: Action<V>)
    requires Valid(s) && Possible(s, a) && (a.WorkerTakes? || a.WorkerWakes?)
    ensures var s' := Next(codec, hash, s, a);
            Valid(s') && forall id: Id :: RowAhead(s'.tables, Cmds(s'), id) == RowAhead(s.tables, Cmds(s), id)
  {
    hide RowAhead, WellFormedCmd, WellFormedRow, Handled;
    match a
    case WorkerTakes(after, held) =>
      var (c, rest) := (s.channel[0], s.channel[1..]);
      TakenAhead(s.tables, s.since, c, rest);
      assert s.since + ([c] + rest) == Cmds(s);
      HandledKeepsRows(s.tables, s.since, Taken(c), rest, after, held);
    case WorkerWakes(after, held) =>
      assert s.since + [] + s.channel == Cmds(s);
      HandledKeepsRows(s.tables, s.since, [], s.channel, after, held);
  }

  /** Orders write nothing. */
  lemma {:induction false} TakenAhead(t: Tables, since: seq<PersistCmd>, c: PersistCmd, rest: seq<PersistCmd>)
    requires SoundRows(t, since + ([c] + rest))
    ensures SoundRows(t, since + Taken(c) + rest)
    ensures forall id: Id :: RowAhead(t, since + Taken(c) + rest, id) == RowAhead(t, since + ([c] + rest), id)
    decreases |rest|
  {
    hide RowAhead, WellFormedRow;
    if rest == [] {
      assert since + ([c] + rest) == since + [c] && since + Taken(c) + rest == since + Taken(c);
      if Taken(c) == [] {
        assert since + Taken(c) == since;
        forall id: Id ensures RowAhead(t, since + [c], id) == RowAhead(t, since, id) {
          RowAheadSnoc(t, since, c, id);
        }
      }
    } else {
      var (front, last) := (rest[..|rest| - 1], rest[|rest| - 1]);
      assert since + ([c] + rest) == since + ([c] + front) + [last];
      assert since + Taken(c) + rest == since + Taken(c) + front + [last];
      TakenAhead(t, since, c, front);
      forall id: Id ensures RowAhead(t, since + Taken(c) + front + [last], id) == RowAhead(t, since + ([c] + front) + [last], id) {
        RowAheadSnoc(t, since + ([c] + front), last, id);
        RowAheadSnoc(t, since + Taken(c) + front, last, id);
      }
    }
  }

  lemma StepKeepsValid<V(!new)>(codec: Codec<V>, hash: V -> int, s: State<V>, a: Action<V>)
    requires Serialises(codec) && Valid(s) && Possible(s, a)
    ensures Valid(Next(codec, hash, s, a))
  {
    hide RowAhead, WellFormedCmd, WellFormedRow, Serialises, Handled;
    match a
    case Tell(c) => TellKeeps(s, c);
    case LoopSends(k) =>
      if k in s.inner && codec.isPlayer(s.inner[k]) {
        ColumnsOf(codec, k, s.inner[k]);
        TellKeeps(s, UpsertShip(k, codec.cols(s.inner[k])));
      }
    case WorkerTakes(_, _) => WorkerKeeps(codec, hash, s, a);
    case WorkerWakes(_, _) => WorkerKeeps(codec, hash, s, a);
    case _ =>
  }

  /** One step, whoever takes it: the mirror stays in step if and only if the step does not lose a ship. */
  lemma StepMirrors<V(!new)>(codec: Codec<V>, hash: V -> int, s: State<V>, a: Action<V>)
    requires Serialises(codec) && Valid(s) && Possible(s, a) && InStep(codec, s)
    ensures InStep(codec, Next(codec, hash, s, a)) <==> !Loses(codec, hash, s, a)
  {
    hide RowAhead, WellFormedCmd, WellFormedRow, Serialises, Handled;
    match a
    case Tell(c) => TellKeeps(s, c);
    case LoopSends(k) =>
      if k in s.inner && codec.isPlayer(s.inner[k]) {
        ColumnsOf(codec, k, s.inner[k]);
        TellKeeps(s, UpsertShip(k, codec.cols(s.inner[k])));
      } else {
        assert s.channel + [] == s.channel;
      }
    case WorkerTakes(_, _) => WorkerKeeps(codec, hash, s, a);
    case WorkerWakes(_, _) => WorkerKeeps(codec, hash, s, a);
    case _ =>
  }

  // ---------- whole runs ----------

  /** Map operations, drains, commands and the worker's flushes, interleaved in any way. */
  ghost predicate Run<V(!new)>(codec: Codec<V>, hash: V -> int, ss: seq<State<V>>, actions: seq<Action<V>>) {
    && Serialises(codec) && |ss| == |actions| + 1 && Valid(ss[0])
    && forall i | 0 <= i < |actions| :: Possible(ss[i], actions[i]) && ss[i + 1] == Next(codec, hash, ss[i], actions[i])
  }

  lemma {:induction false} RunKeepsValid<V(!new)>(codec: Codec<V>, hash: V -> int, ss: seq<State<V>>, actions: seq<Action<V>>, n: nat)
    requires Run(codec, hash, ss, actions) && n <= |actions|
    ensures Valid(ss[n])
    decreases n
  {
    hide Next, Possible, Valid, Serialises;
    if n > 0 {
      RunKeepsValid(codec, hash, ss, actions, n - 1);
      assert Possible(ss[n - 1], actions[n - 1]) && ss[n - 1 + 1] == Next(codec, hash, ss[n - 1], actions[n - 1]);
      StepKeepsValid(codec, hash, ss[n - 1], actions[n - 1]);
    }
  }

  /** Over any run the mirror is in step all along if and only if no step loses a ship. */
  lemma {:induction false} RunMirrors<V(!new)>(codec: Codec<V>, hash: V -> int, ss: seq<State<V>>, actions: seq<Action<V>>, n: nat)
    requires Run(codec, hash, ss, actions) && InStep(codec, ss[0]) && n <= |actions|
    ensures (forall i | 0 <= i <= n :: InStep(codec, ss[i])) <==> (forall i | 0 <= i < n :: !Loses(codec, hash, ss[i], actions[i]))
    decreases n
  {
    hide Next, Possible, Valid, InStep, Loses, Serialises;
    if n > 0 {
      RunMirrors(codec, hash, ss, actions, n - 1);
      RunKeepsValid(codec, hash, ss, actions, n - 1);
      assert Possible(ss[n - 1], actions[n - 1]) && ss[n - 1 + 1] == Next(codec, hash, ss[n - 1], actions[n - 1]);
      if InStep(codec, ss[n - 1]) {
        StepMirrors(codec, hash, ss[n - 1], actions[n - 1]);
      }
    }
  }

  /** In step and with nothing under way, the rows are the ships. */
  lemma AtRest<V(!new)>(codec: Codec<V>, s: State<V>)
    requires InStep(codec, s) && Except(s) == {} && s.channel == [] && s.since == []
    ensures forall k | k in s.inner && codec.isPlayer(s.inner[k]) :: Get(s.tables, Key(Ships, k)) == Some(codec.cols(s.inner[k]))
  {
    forall k | k in s.inner && codec.isPlayer(s.inner[k])
      ensures Get(s.tables, Key(Ships, k)) == Some(codec.cols(s.inner[k]))
    {
      assert RowAhead(s.tables, Cmds(s), k) == Some(codec.cols(s.inner[k]));
      assert Only(Key(Ships, k), []) == [];
    }
  }

  // ---------- what is lost ----------

  /** An insertion marks its key before it stores the value. A whole drain and the loop's look-up fit in
      between: then the mark is gone, nothing was sent, and the ship is in the map and not on its way. */
  lemma InsertIsLost<V(!new)>(codec: Codec<V>, hash: V -> int, ss: seq<State<V>>, k: Id, v: V)
    requires var actions := [InsertMarks(k), DrainCollects(k), DrainClears(k), LoopSends(k), InsertStores(k, v)];
             Run(codec, hash, ss, actions)
    requires k !in ss[0].inner && k !in Except(ss[0]) && RowAhead(ss[0].tables, Cmds(ss[0]), k) == None && codec.isPlayer(v)
    ensures Settled(codec, ss[5], k) && RowAhead(ss[5].tables, Cmds(ss[5]), k) == None
  {
    hide RowAhead, Serialises, Valid;
    var actions := [InsertMarks(k), DrainCollects(k), DrainClears(k), LoopSends(k), InsertStores(k, v)];
    assert ss[1] == Next(codec, hash, ss[0], actions[0]) && ss[2] == Next(codec, hash, ss[1], actions[1]);
    assert ss[3] == Next(codec, hash, ss[2], actions[2]) && ss[4] == Next(codec, hash, ss[3], actions[3]);
    assert ss[5] == Next(codec, hash, ss[4], actions[4]);
    assert ss[0].channel + [] == ss[0].channel;
  }

  /** A change between the two halves of a drain loses its mark with the others, though it was noticed. */
  lemma ChangeIsLost<V(!new)>(codec: Codec<V>, hash: V -> int, ss: seq<State<V>>, k: Id, v: V)
    requires Run(codec, hash, ss, [Change(k, v), DrainClears(k)]) && InStep(codec, ss[0]) && Settled(codec, ss[0], k)
    requires codec.isPlayer(v) && codec.cols(v) != codec.cols(ss[0].inner[k])
    ensures Settled(codec, ss[2], k) && RowAhead(ss[2].tables, Cmds(ss[2]), k) != Some(codec.cols(ss[2].inner[k]))
  {
    hide RowAhead, Serialises, Valid;
    var actions := [Change(k, v), DrainClears(k)];
    assert ss[0 + 1] == Next(codec, hash, ss[0], actions[0]) && ss[1 + 1] == Next(codec, hash, ss[1], actions[1]);
  }

  /** A ship that was removed and then deleted does not come back, whatever drains had collected it and
      whatever the worker holds, unless it is inserted again or somebody else sends it. */
  lemma {:induction false} DeletedStaysAway<V(!new)>(codec: Codec<V>, hash: V -> int, ss: seq<State<V>>, actions: seq<Action<V>>,
                                                     k: Id, i: nat, n: nat)
    requires Run(codec, hash, ss, actions) && i < n <= |actions|
    requires actions[i] == Tell(DeleteShip(k)) && k !in ss[i].inner
    requires forall j | i < j < n :: !(actions[j].InsertStores? && actions[j].key == k)
    requires forall j | i < j < n :: !(actions[j].Tell? && actions[j].cmd.UpsertShip? && actions[j].cmd.id == k)
    ensures k !in ss[n].inner && RowAhead(ss[n].tables, Cmds(ss[n]), k) == None
    decreases n
  {
    hide Valid, Serialises, RowAhead, Next, Possible;
    RunKeepsValid(codec, hash, ss, actions, n - 1);
    assert Possible(ss[n - 1], actions[n - 1]) && ss[n - 1 + 1] == Next(codec, hash, ss[n - 1], actions[n - 1]);
    if n > i + 1 {
      DeletedStaysAway(codec, hash, ss, actions, k, i, n - 1);
    }
    AwayAfter(codec, hash, ss[n - 1], actions[n - 1], k);
  }

  lemma AwayAfter<V(!new)>(codec: Codec<V>, hash: V -> int, s: State<V>, a: Action<V>, k: Id)
    requires Serialises(codec) && Valid(s) && Possible(s, a) && k !in s.inner
    requires a == Tell(DeleteShip(k)) || RowAhead(s.tables, Cmds(s), k) == None
    requires !(a.InsertStores? && a.key == k) && !(a.Tell? && a.cmd.UpsertShip? && a.cmd.id == k)
    ensures var s' := Next(codec, hash, s, a); k !in s'.inner && RowAhead(s'.tables, Cmds(s'), k) == None
  {
    hide RowAhead, WellFormedCmd, WellFormedRow, Serialises, Handled;
    match a
    case Tell(c) => TellKeeps(s, c);
    case LoopSends(j) =>
      if j in s.inner && codec.isPlayer(s.inner[j]) {
        ColumnsOf(codec, j, s.inner[j]);
        TellKeeps(s, UpsertShip(j, codec.cols(s.inner[j])));
      } else {
        assert s.channel + [] == s.channel;
      }
    case WorkerTakes(_, _) => WorkerKeeps(codec, hash, s, a);
    case WorkerWakes(_, _) => WorkerKeeps(codec, hash, s, a);
    case _ =>
  }
}
