/** Coalescing refines immediate writes, and exactly when: for every command list, every placement of
    flushes and every order in which a flush drains its maps. */
module Coalescing {
  import opened Prelude
  import opened Persistence

  // ---------- when the commands of one entity may be merged ----------

  predicate IsUpsert(c: PersistCmd) { c.UpsertPlayer? }

  /** The index of the first command with a hash, or the length. */
  function FirstUpsert(ops: seq<PersistCmd>): (i: nat)
    ensures i <= |ops| && (i < |ops| ==> IsUpsert(ops[i]))
    ensures forall j | 0 <= j < i :: !IsUpsert(ops[j])
  {
    if ops == [] then 0 else if IsUpsert(ops[0]) then 0 else 1 + FirstUpsert(ops[1..])
  }

  /** The index of the last command with (or without) a hash, or -1. */
  function Last(ops: seq<PersistCmd>, upsert: bool): (i: int)
    ensures -1 <= i < |ops| && (i >= 0 ==> IsUpsert(ops[i]) == upsert)
    ensures forall j | i < j < |ops| :: IsUpsert(ops[j]) != upsert
  {
    if ops == [] then -1
    else if IsUpsert(ops[|ops| - 1]) == upsert then |ops| - 1
    else Last(ops[..|ops| - 1], upsert)
  }

  /** The commands of one entity can be merged into one write on `row`.
      - A ship always can.
      - A squadron or mission can when its row exists; otherwise the first and the last command must
        agree on the columns that only an insert writes.
      - A player can when no command carries a hash. If one does and the row exists, a plain update in
        the batch must not rename the player, since the merged write leaves the name alone. If the row
        does not exist, the first hash must be the last one, the first creation date the last one, and
        the name given by the last plain update after the first hash (or by the command that carried
        it) the name of the last command. */
  predicate Mergeable(kind: Kind, row: Option<Columns>, ops: seq<PersistCmd>) {
    ops == [] || match kind
    case Ships => true
    case Squadrons => row.Some? || AgreeOn(InsertOnly(kind), ColsOf(ops[0]), ColsOf(ops[|ops| - 1]))
    case Missions => row.Some? || AgreeOn(InsertOnly(kind), ColsOf(ops[0]), ColsOf(ops[|ops| - 1]))
    case Players =>
      var first, update := FirstUpsert(ops), Last(ops, false);
      first < |ops| ==>
        match row
        case Some(r) => update >= 0 ==> NameIn(ops, update) == Get(r, Username)
        case None =>
          && HashOf(ops[first]) == HashOf(ops[Last(ops, true)])
          && Get(ColsOf(ops[first]), CreatedAt) == Get(ColsOf(ops[|ops| - 1]), CreatedAt)
          && NameIn(ops, if update > first then update else first) == NameIn(ops, |ops| - 1)
  }

  function NameIn(ops: seq<PersistCmd>, i: nat): Option<string>
    requires i < |ops|
  {
    Get(ColsOf(ops[i]), Username)
  }

  predicate AgreeOn(names: set<Column>, a: Columns, b: Columns) {
    Restrict(a, names) == Restrict(b, names)
  }

  lemma ColumnsPartition(kind: Kind)
    ensures Updated(kind) !! InsertOnly(kind)
    ensures kind == Ships ==> InsertOnly(kind) == {}
    ensures InsertOnly(Players) == {Username, PasswordHash, CreatedAt}
  {
    match kind
    case Players => PlayersPartition();
    case Ships =>
    case Squadrons => SquadronsPartition();
    case Missions => MissionsPartition();
  }

  lemma PlayersPartition()
    ensures Updated(Players) !! InsertOnly(Players)
  {
    forall c | c in InsertOnly(Players) ensures c !in Updated(Players) {
    }
  }

  lemma SquadronsPartition()
    ensures Updated(Squadrons) !! InsertOnly(Squadrons)
  {
    forall c | c in InsertOnly(Squadrons) ensures c !in Updated(Squadrons) {
    }
  }

  lemma MissionsPartition()
    ensures Updated(Missions) !! InsertOnly(Missions)
  {
    forall c | c in InsertOnly(Missions) ensures c !in Updated(Missions) {
    }
  }

  // ---------- one entity ----------

  function Fold(kind: Kind, row: Option<Columns>, ops: seq<PersistCmd>): Option<Columns>
    requires forall i | 0 <= i < |ops| :: Target(ops[i]).Some?
  {
    if ops == [] then row else Exec(kind, Fold(kind, row, ops[..|ops| - 1]), WriteOf(ops[|ops| - 1]))
  }

  ghost predicate OpsOf(k: Key, ops: seq<PersistCmd>) {
    forall i | 0 <= i < |ops| :: WellFormedCmd(ops[i]) && Target(ops[i]) == Some(k)
  }

  /** The write a batch of these commands holds in the end. */
  function Merged(k: Key, ops: seq<PersistCmd>): Option<Write> {
    Pending(Enqueued(ops), k)
  }

  /** A batch holds what the last command for the entity asked for. */
  lemma {:induction false} MergedLast(k: Key, ops: seq<PersistCmd>)
    requires k.kind != Players && OpsOf(k, ops) && ops != []
    ensures Merged(k, ops) == Some(WriteOf(ops[|ops| - 1]))
  {
  }

  lemma OverwriteTwice(base: Columns, a: Columns, b: Columns, names: set<Column>)
    requires a.Keys == b.Keys
    ensures base + Restrict(a, names) + Restrict(b, names) == base + Restrict(b, names)
  {
  }

  lemma {:induction false} FoldOverwrites(k: Key, row: Option<Columns>, ops: seq<PersistCmd>)
    requires k.kind == Squadrons || k.kind == Missions
    requires OpsOf(k, ops) && ops != [] && WellFormedRow(k.kind, row)
    ensures var base := if row.Some? then row.value else ColsOf(ops[0]);
            Fold(k.kind, row, ops) == Some(base + Restrict(ColsOf(ops[|ops| - 1]), Updated(k.kind)))
  {
    hide Updated, InsertOnly;
    var init, last := ops[..|ops| - 1], ops[|ops| - 1];
    if init != [] {
      FoldOverwrites(k, row, init);
      var base := if row.Some? then row.value else ColsOf(ops[0]);
      OverwriteTwice(base, ColsOf(init[|init| - 1]), ColsOf(last), Updated(k.kind));
    } else if row.None? {
      assert ColsOf(last) + Restrict(ColsOf(last), Updated(k.kind)) == ColsOf(last);
    }
  }

  /** The insert-only columns of the first model under the other columns of the last one. */
  lemma MixedColumns(kind: Kind, first: Columns, last: Columns)
    requires first.Keys == last.Keys == AllColumns(kind)
    ensures first + Restrict(last, Updated(kind)) == last <==> AgreeOn(InsertOnly(kind), first, last)
  {
    ColumnsPartition(kind);
    hide Updated, InsertOnly;
    var mixed := first + Restrict(last, Updated(kind));
    if AgreeOn(InsertOnly(kind), first, last) {
      forall c | c in last ensures mixed[c] == last[c] {
        if c in InsertOnly(kind) {
          assert Restrict(first, InsertOnly(kind))[c] == Restrict(last, InsertOnly(kind))[c];
        }
      }
      assert mixed == last;
    }
    if mixed == last {
      assert forall c | c in InsertOnly(kind) :: first[c] == mixed[c];
      assert Restrict(first, InsertOnly(kind)) == Restrict(last, InsertOnly(kind));
    }
  }

  lemma OverwritesMerge(k: Key, row: Option<Columns>, ops: seq<PersistCmd>)
    requires k.kind == Squadrons || k.kind == Missions
    requires OpsOf(k, ops) && ops != [] && WellFormedRow(k.kind, row)
    ensures Fold(k.kind, row, ops) == Exec(k.kind, row, WriteOf(ops[|ops| - 1])) <==> Mergeable(k.kind, row, ops)
  {
    hide Updated, InsertOnly, Fold, AgreeOn;
    FoldOverwrites(k, row, ops);
    MixedColumns(k.kind, ColsOf(ops[0]), ColsOf(ops[|ops| - 1]));
  }

  lemma {:induction false} ShipsMerge(k: Key, row: Option<Columns>, ops: seq<PersistCmd>)
    requires k.kind == Ships && OpsOf(k, ops) && ops != [] && WellFormedRow(Ships, row)
    ensures Fold(Ships, row, ops) == Exec(Ships, row, WriteOf(ops[|ops| - 1]))
    ensures WellFormedRow(Ships, Fold(Ships, row, ops))
  {
    hide Updated, InsertOnly;
    var init, last := ops[..|ops| - 1], ops[|ops| - 1];
    if init != [] {
      ShipsMerge(k, row, init);
    }
    if last.UpsertShip? {
      ShipOverwrites(row, last.cols);
      ShipOverwrites(Fold(Ships, row, init), last.cols);
    }
  }

  lemma ShipOverwrites(row: Option<Columns>, cols: Columns)
    requires WellFormedRow(Ships, row) && cols.Keys == AllColumns(Ships)
    ensures Exec(Ships, row, Upsert(cols)) == Some(cols)
  {
    ColumnsPartition(Ships);
    hide Updated, InsertOnly;
    assert Restrict(cols, Updated(Ships)) == cols;
    if row.Some? {
      assert row.value + cols == cols;
    }
  }

  // ---------- players ----------

  /** The row after `ops`, column by column: the hash and the creation date stay as inserted, plain
      updates rename, and every command writes the other columns. */
  ghost predicate PlayerRow(row: Option<Columns>, ops: seq<PersistCmd>, r: Option<Columns>)
    requires ops != []
  {
    var first, update := FirstUpsert(ops), Last(ops, false);
    if row.None? && first == |ops| then r == None
    else
      && r.Some? && r.value.Keys == AllColumns(Players)
      && (forall c | c in Updated(Players) :: Get(r.value, c) == Get(ColsOf(ops[|ops| - 1]), c))
      && match row
         case Some(prior) =>
           && Get(r.value, PasswordHash) == Get(prior, PasswordHash)
           && Get(r.value, CreatedAt) == Get(prior, CreatedAt)
           && Get(r.value, Username) == (if update >= 0 then NameIn(ops, update) else Get(prior, Username))
         case None =>
           && Get(r.value, PasswordHash) == HashOf(ops[first])
           && Get(r.value, CreatedAt) == Get(ColsOf(ops[first]), CreatedAt)
           && Get(r.value, Username) == NameIn(ops, if update > first then update else first)
  }

  lemma {:induction false} FirstUpsertSnoc(init: seq<PersistCmd>, c: PersistCmd)
    ensures FirstUpsert(init + [c]) == if FirstUpsert(init) < |init| then FirstUpsert(init)
                                       else if IsUpsert(c) then |init| else |init| + 1
  {
    var ops := init + [c];
    var i, j := FirstUpsert(ops), FirstUpsert(init);
    if i < |init| {
      assert IsUpsert(init[i]);
    }
    if j < |init| {
      assert IsUpsert(ops[j]);
    }
    assert ops[|init|] == c;
  }

  /** One write on a player row, column by column. */
  lemma PlayerExec(r: Option<Columns>, cols: Columns, hash: Option<string>)
    requires WellFormedRow(Players, r) && cols.Keys == AllColumns(Players) - {PasswordHash}
    ensures var q := Exec(Players, r, PlayerWrite(cols, hash));
            if r.None? && hash.None? then q.None?
            else
              && q.Some? && q.value.Keys == AllColumns(Players)
              && (forall c | c in Updated(Players) :: Get(q.value, c) == Get(cols, c))
              && Get(q.value, PasswordHash) == (if r.Some? then Get(r.value, PasswordHash) else hash)
              && Get(q.value, CreatedAt) == (if r.Some? then Get(r.value, CreatedAt) else Get(cols, CreatedAt))
              && Get(q.value, Username) == (if r.Some? && hash.Some? then Get(r.value, Username) else Get(cols, Username))
  {
    ColumnsPartition(Players);
    hide Updated, InsertOnly;
  }

  lemma PlayerRowSnoc(row: Option<Columns>, init: seq<PersistCmd>, last: PersistCmd, r: Option<Columns>, q: Option<Columns>)
    requires WellFormedRow(Players, row) && WellFormedRow(Players, r)
    requires if init == [] then r == row else PlayerRow(row, init, r)
    requires if r.None? && HashOf(last).None? then q.None?
             else
               && q.Some? && q.value.Keys == AllColumns(Players)
               && (forall c | c in Updated(Players) :: Get(q.value, c) == Get(ColsOf(last), c))
               && Get(q.value, PasswordHash) == (if r.Some? then Get(r.value, PasswordHash) else HashOf(last))
               && Get(q.value, CreatedAt) == (if r.Some? then Get(r.value, CreatedAt) else Get(ColsOf(last), CreatedAt))
               && Get(q.value, Username) == (if r.Some? && IsUpsert(last) then Get(r.value, Username) else Get(ColsOf(last), Username))
    ensures PlayerRow(row, init + [last], q)
  {
    hide Updated, InsertOnly, WellFormedRow, AllColumns, ColsOf;
    var ops := init + [last];
    assert ops[..|ops| - 1] == init;
    FirstUpsertSnoc(init, last);
    assert Last(ops, false) == if IsUpsert(last) then Last(init, false) else |init|;
    assert forall i | 0 <= i < |init| :: NameIn(ops, i) == NameIn(init, i);
    hide Last, FirstUpsert, Get;
  }

  lemma {:induction false} FoldPlayer(k: Key, row: Option<Columns>, ops: seq<PersistCmd>)
    requires k.kind == Players && OpsOf(k, ops) && ops != [] && WellFormedRow(Players, row)
    ensures PlayerRow(row, ops, Fold(Players, row, ops)) && WellFormedRow(Players, Fold(Players, row, ops))
    decreases |ops|
  {
    hide Updated, InsertOnly, Exec, PlayerWrite, PlayerRow, Last, FirstUpsert, AllColumns, Get;
    var init, last := ops[..|ops| - 1], ops[|ops| - 1];
    assert ops == init + [last];
    if init != [] {
      FoldPlayer(k, row, init);
    }
    assert WriteOf(last) == PlayerWrite(ColsOf(last), HashOf(last));
    PlayerExec(Fold(Players, row, init), ColsOf(last), HashOf(last));
    PlayerRowSnoc(row, init, last, Fold(Players, row, init), Fold(Players, row, ops));
  }

  lemma {:induction false} MergedPlayer(k: Key, ops: seq<PersistCmd>)
    requires k.kind == Players && OpsOf(k, ops) && ops != []
    ensures k.id in Enqueued(ops).players
    ensures var (cols, hash) := Enqueued(ops).players[k.id];
            && cols == ColsOf(ops[|ops| - 1])
            && hash == if Last(ops, true) >= 0 then HashOf(ops[Last(ops, true)]) else None
    decreases |ops|
  {
    var init := ops[..|ops| - 1];
    if init != [] {
      MergedPlayer(k, init);
    }
  }

  lemma PlayersMerge(k: Key, row: Option<Columns>, ops: seq<PersistCmd>)
    requires k.kind == Players && OpsOf(k, ops) && ops != [] && WellFormedRow(Players, row)
    ensures Merged(k, ops).Some?
    ensures Fold(Players, row, ops) == Exec(Players, row, Merged(k, ops).value) <==> Mergeable(Players, row, ops)
  {
    hide Updated, InsertOnly, Exec, PlayerWrite, Fold, Enqueued;
    FoldPlayer(k, row, ops);
    MergedPlayer(k, ops);
    var first, upsert := FirstUpsert(ops), Last(ops, true);
    assert upsert >= 0 <==> first < |ops|;
    var (cols, hash) := Enqueued(ops).players[k.id];
    PlayerExec(row, cols, hash);
    var r, q := Fold(Players, row, ops), Exec(Players, row, PlayerWrite(cols, hash));
    if r.Some? && q.Some? {
      SameRow(r.value, q.value);
    }
  }

  /** Player rows that agree on the updated columns differ in at most three others. */
  lemma SameRow(r: Columns, q: Columns)
    requires r.Keys == q.Keys == AllColumns(Players)
    requires forall c | c in Updated(Players) :: Get(r, c) == Get(q, c)
    ensures r == q <==> forall c | c in {Username, PasswordHash, CreatedAt} :: Get(r, c) == Get(q, c)
  {
    ColumnsPartition(Players);
    hide Updated, InsertOnly;
    if forall c | c in {Username, PasswordHash, CreatedAt} :: Get(r, c) == Get(q, c) {
      forall c | c in r ensures r[c] == q[c] {
        assert Get(r, c) == Get(q, c);
      }
      assert r == q;
    }
  }

  /** For one entity the merged write does what the commands would have done, if and only if they are
      mergeable on the row the batch finds. */
  lemma EntityMerges(k: Key, row: Option<Columns>, ops: seq<PersistCmd>)
    requires OpsOf(k, ops) && WellFormedRow(k.kind, row) && ops != []
    ensures Merged(k, ops).Some?
    ensures Fold(k.kind, row, ops) == Exec(k.kind, row, Merged(k, ops).value) <==> Mergeable(k.kind, row, ops)
  {
    hide Exec, Fold, Merged, WriteOf, WellFormedRow;
    match k.kind
    case Players => PlayersMerge(k, row, ops);
    case Ships => MergedLast(k, ops); ShipsMerge(k, row, ops);
    case Squadrons => MergedLast(k, ops); OverwritesMerge(k, row, ops);
    case Missions => MergedLast(k, ops); OverwritesMerge(k, row, ops);
  }

  /** It is enough that everything said of one entity, the stored row included, agrees on the columns
      that only an insert writes. */
  lemma AgreeingMerge(k: Key, row: Option<Columns>, ops: seq<PersistCmd>, fixed: Columns)
    requires OpsOf(k, ops) && WellFormedRow(k.kind, row)
    requires forall i | 0 <= i < |ops| && !ops[i].DeleteShip? :: AgreeOn(InsertOnly(k.kind) - {PasswordHash}, ColsOf(ops[i]), fixed)
    requires forall i | 0 <= i < |ops| && IsUpsert(ops[i]) :: HashOf(ops[i]) == Get(fixed, PasswordHash)
    requires row.Some? ==> AgreeOn(InsertOnly(k.kind) - {PasswordHash}, row.value, fixed)
    ensures Mergeable(k.kind, row, ops)
  {
    match k.kind
    case Ships =>
    case Players => AgreeingPlayersMerge(k, row, ops, fixed);
    case Squadrons =>
      assert InsertOnly(Squadrons) - {PasswordHash} == InsertOnly(Squadrons);
      hide Updated, InsertOnly, WellFormedRow;
    case Missions =>
      assert InsertOnly(Missions) - {PasswordHash} == InsertOnly(Missions);
      hide Updated, InsertOnly, WellFormedRow;
  }

  lemma AgreeOnColumn(names: set<Column>, a: Columns, b: Columns, c: Column)
    requires AgreeOn(names, a, b) && c in names
    ensures Get(a, c) == Get(b, c)
  {
    assert Get(Restrict(a, names), c) == Get(a, c) && Get(Restrict(b, names), c) == Get(b, c);
  }

  lemma AgreeingPlayersMerge(k: Key, row: Option<Columns>, ops: seq<PersistCmd>, fixed: Columns)
    requires k.kind == Players && OpsOf(k, ops)
    requires forall i | 0 <= i < |ops| && !ops[i].DeleteShip? :: AgreeOn(InsertOnly(Players) - {PasswordHash}, ColsOf(ops[i]), fixed)
    requires forall i | 0 <= i < |ops| && IsUpsert(ops[i]) :: HashOf(ops[i]) == Get(fixed, PasswordHash)
    requires row.Some? ==> AgreeOn(InsertOnly(Players) - {PasswordHash}, row.value, fixed)
    ensures Mergeable(Players, row, ops)
  {
    ColumnsPartition(Players);
    hide Updated, InsertOnly, AgreeOn, Restrict, WellFormedRow;
    var names := InsertOnly(Players) - {PasswordHash};
    forall i | 0 <= i < |ops|
      ensures NameIn(ops, i) == Get(fixed, Username) && Get(ColsOf(ops[i]), CreatedAt) == Get(fixed, CreatedAt)
    {
      assert !ops[i].DeleteShip?;
      AgreeOnColumn(names, ColsOf(ops[i]), fixed, Username);
      AgreeOnColumn(names, ColsOf(ops[i]), fixed, CreatedAt);
    }
    if row.Some? {
      AgreeOnColumn(names, row.value, fixed, Username);
    }
  }

  /** A player's columns under some name, with everything else empty. */
  function Named(name: string): Columns {
    map c | c in AllColumns(Players) - {PasswordHash} :: if c == Username then name else ""
  }

  function NameOf(row: Option<Columns>): Option<string> {
    match row
    case None => None
    case Some(cols) => Get(cols, Username)
  }

  /** The commands give the player a new name, and their merged write leaves the old one. */
  ghost predicate LosesName(k: Key, row: Option<Columns>, ops: seq<PersistCmd>, name: string, renamed: string)
    requires OpsOf(k, ops)
  {
    && NameOf(Fold(Players, row, ops)) == Some(renamed)
    && Merged(k, ops).Some? && NameOf(Exec(Players, row, Merged(k, ops).value)) == Some(name)
  }

  /** A batch that carries a hash and then renames a player whose row exists is not mergeable: it leaves the
      old name, where immediate writing leaves the new one. */
  lemma RenameIsLost(id: Id, name: string, renamed: string, hash: string)
    requires name != renamed
    ensures var k := Key(Players, id);
            var row := Some(Named(name)[PasswordHash := hash]);
            var ops := [UpsertPlayer(id, Named(name), hash), UpdatePlayer(id, Named(renamed))];
            && OpsOf(k, ops) && WellFormedRow(Players, row)
            && !Mergeable(Players, row, ops) && LosesName(k, row, ops, name, renamed)
  {
    var k := Key(Players, id);
    var row := Some(Named(name)[PasswordHash := hash]);
    var ops := [UpsertPlayer(id, Named(name), hash), UpdatePlayer(id, Named(renamed))];
    ColumnsPartition(Players);
    hide Updated, InsertOnly, Mergeable, LosesName;
    assert Named(name).Keys == AllColumns(Players) - {PasswordHash} == Named(renamed).Keys;
    assert PasswordHash in AllColumns(Players) && Username in AllColumns(Players);
    RenameMerges(k, row, ops, name, renamed);
  }

  lemma RenameMerges(k: Key, row: Option<Columns>, ops: seq<PersistCmd>, name: string, renamed: string)
    requires k.kind == Players && row.Some? && OpsOf(k, ops) && WellFormedRow(Players, row) && name != renamed
    requires |ops| == 2 && ops[0].UpsertPlayer? && ops[1].UpdatePlayer?
    requires Get(row.value, Username) == Some(name) && Get(ColsOf(ops[1]), Username) == Some(renamed)
    ensures !Mergeable(Players, row, ops) && LosesName(k, row, ops, name, renamed)
  {
    hide Updated, InsertOnly, Exec, PlayerWrite, Fold, Enqueued;
    FoldPlayer(k, row, ops);
    MergedPlayer(k, ops);
    PlayersMerge(k, row, ops);
    var (cols, pending) := Enqueued(ops).players[k.id];
    PlayerExec(row, cols, pending);
    assert Last(ops, false) == 1 && Last(ops, true) == 0 && FirstUpsert(ops) == 0;
    assert NameIn(ops, 1) == Some(renamed);
  }

  // ---------- one batch ----------

  lemma {:induction false} ImmediatelyByEntity(t: Tables, cmds: seq<PersistCmd>, k: Key)
    ensures Get(Immediately(t, cmds), k) == Fold(k.kind, Get(t, k), Only(k, cmds))
    decreases |cmds|
  {
    if cmds != [] {
      var init, c := cmds[..|cmds| - 1], cmds[|cmds| - 1];
      ImmediatelyByEntity(t, init, k);
      if Target(c) == Some(k) {
        assert Only(k, cmds)[..|Only(k, cmds)| - 1] == Only(k, init);
      } else {
        assert Only(k, cmds) == Only(k, init);
      }
    }
  }

  /** Enqueueing touches the pending write of its own entity only, and depends on nothing else. */
  lemma EnqueueStep(b: Batch, b': Batch, c: PersistCmd, k: Key)
    requires k.kind == Players ==> Get(b.players, k.id) == Get(b'.players, k.id)
    ensures Target(c) != Some(k) ==>
              && Pending(Enqueue(b, c), k) == Pending(b, k)
              && (k.kind == Players ==> Get(Enqueue(b, c).players, k.id) == Get(b.players, k.id))
    ensures Target(c) == Some(k) ==>
              && Pending(Enqueue(b, c), k) == Pending(Enqueue(b', c), k)
              && (k.kind == Players ==> Get(Enqueue(b, c).players, k.id) == Get(Enqueue(b', c).players, k.id))
  {
    hide PlayerWrite;
  }

  lemma {:induction false} PendingByEntity(cmds: seq<PersistCmd>, k: Key)
    ensures Pending(Enqueued(cmds), k) == Merged(k, Only(k, cmds))
    ensures k.kind == Players ==> Get(Enqueued(cmds).players, k.id) == Get(Enqueued(Only(k, cmds)).players, k.id)
    decreases |cmds|
  {
    if cmds != [] {
      var init, c := cmds[..|cmds| - 1], cmds[|cmds| - 1];
      PendingByEntity(init, k);
      EnqueueStep(Enqueued(init), Enqueued(Only(k, init)), c, k);
      if Target(c) == Some(k) {
        assert Only(k, cmds)[..|Only(k, cmds)| - 1] == Only(k, init);
      } else {
        assert Only(k, cmds) == Only(k, init);
      }
      hide Pending, Enqueue, Target;
    }
  }

  ghost predicate BatchMergeable(t: Tables, cmds: seq<PersistCmd>)
  {
    forall k: Key :: Mergeable(k.kind, Get(t, k), Only(k, cmds))
  }

  lemma TablesEqual(t: Tables, u: Tables)
    ensures t == u <==> forall k: Key :: Get(t, k) == Get(u, k)
  {
    if forall k: Key :: Get(t, k) == Get(u, k) {
      assert forall k: Key :: k in t <==> Get(t, k).Some?;
      assert forall k: Key :: k in u <==> Get(u, k).Some?;
      assert forall k: Key | k in t :: t[k] == Get(t, k).value && u[k] == Get(u, k).value;
      assert t == u;
    }
  }

  /** A flush leaves the tables that immediate writing would have left, if and only if the batch is
      mergeable. */
  lemma BatchMerges(t: Tables, cmds: seq<PersistCmd>, after: Tables)
    requires WellFormedTables(t) && (forall c | c in cmds :: WellFormedCmd(c))
    requires Flushed(t, Enqueued(cmds), after)
    ensures after == Immediately(t, cmds) <==> BatchMergeable(t, cmds)
  {
    hide Mergeable, Fold, Exec, Pending;
    TablesEqual(after, Immediately(t, cmds));
    forall k: Key
      ensures Get(after, k) == Get(Immediately(t, cmds), k) <==> Mergeable(k.kind, Get(t, k), Only(k, cmds))
    {
      EntityInBatch(t, cmds, after, k);
    }
  }

  lemma EntityInBatch(t: Tables, cmds: seq<PersistCmd>, after: Tables, k: Key)
    requires WellFormedTables(t) && (forall c | c in cmds :: WellFormedCmd(c))
    requires Flushed(t, Enqueued(cmds), after)
    ensures Get(after, k) == Get(Immediately(t, cmds), k) <==> Mergeable(k.kind, Get(t, k), Only(k, cmds))
  {
    ImmediatelyByEntity(t, cmds, k);
    PendingByEntity(cmds, k);
    if Only(k, cmds) != [] {
      EntityMerges(k, Get(t, k), Only(k, cmds));
    }
  }

  // ---------- whole runs ----------

  lemma ExecWellFormed(row: Option<Columns>, c: PersistCmd)
    requires WellFormedCmd(c) && Target(c).Some? && (row.None? || WellFormedRow(Target(c).value.kind, row))
    ensures WellFormedRow(Target(c).value.kind, Exec(Target(c).value.kind, row, WriteOf(c)))
  {
    ColumnsPartition(Players);
    hide Updated, InsertOnly;
  }

  lemma {:induction false} ImmediatelyWellFormed(t: Tables, cmds: seq<PersistCmd>)
    requires WellFormedTables(t) && forall c | c in cmds :: WellFormedCmd(c)
    ensures WellFormedTables(Immediately(t, cmds))
    decreases |cmds|
  {
    hide Exec, WellFormedRow, WellFormedCmd, WriteOf;
    if cmds != [] {
      var init, c := cmds[..|cmds| - 1], cmds[|cmds| - 1];
      ImmediatelyWellFormed(t, init);
      var t' := Immediately(t, init);
      if Target(c).Some? {
        var k := Target(c).value;
        assert k in t' || Get(t', k) == None;
        ExecWellFormed(Get(t', k), c);
        forall j | j in Immediately(t, cmds) ensures WellFormedRow(j.kind, Get(Immediately(t, cmds), j)) {
          assert j == k || Get(Immediately(t, cmds), j) == Get(t', j);
        }
      }
    }
  }

  /** The tables after each flush: `batches` are the commands between flushes, in any placement. */
  ghost predicate FlushHistory(batches: seq<seq<PersistCmd>>, ts: seq<Tables>) {
    && |ts| == |batches| + 1
    && forall i | 0 <= i < |batches| :: Flushed(ts[i], Enqueued(batches[i]), ts[i + 1])
  }

  /** The tables at the flush points when every command is run at once instead. */
  ghost predicate DirectHistory(batches: seq<seq<PersistCmd>>, us: seq<Tables>) {
    && |us| == |batches| + 1
    && forall i | 0 <= i < |batches| :: us[i + 1] == Immediately(us[i], batches[i])
  }

  /** Coalesced and immediate writing agree at every flush point if and only if each batch is mergeable
      on the tables it finds. */
  lemma {:induction false} RunsMerge(batches: seq<seq<PersistCmd>>, ts: seq<Tables>, us: seq<Tables>)
    requires FlushHistory(batches, ts) && DirectHistory(batches, us) && ts[0] == us[0]
    requires WellFormedTables(us[0]) && forall b, c | b in batches && c in b :: WellFormedCmd(c)
    ensures ts == us <==> forall i | 0 <= i < |batches| :: BatchMergeable(us[i], batches[i])
    decreases |batches|
  {
    hide Flushed, Immediately, Enqueued, BatchMergeable, WellFormedTables, WellFormedCmd;
    if batches != [] {
      var b, tail, ts', us' := batches[0], batches[1..], ts[1..], us[1..];
      assert b in batches;
      assert Flushed(ts[0], Enqueued(b), ts[0 + 1]) && us[0 + 1] == Immediately(us[0], b);
      BatchMerges(ts[0], b, ts[1]);
      ImmediatelyWellFormed(us[0], b);
      assert batches == [b] + tail && ts == [ts[0]] + ts' && us == [us[0]] + us';
      if ts[1] == us[1] {
        HistoriesTail(batches, ts, us);
        RunsMerge(tail, ts', us');
        MergeableFromHead(batches, us);
      }
    }
  }

  lemma MergeableFromHead(batches: seq<seq<PersistCmd>>, us: seq<Tables>)
    requires |us| == |batches| + 1 && batches != []
    ensures (forall i | 0 <= i < |batches| :: BatchMergeable(us[i], batches[i])) <==>
            BatchMergeable(us[0], batches[0]) && forall i | 0 <= i < |batches[1..]| :: BatchMergeable(us[1..][i], batches[1..][i])
  {
    hide BatchMergeable;
    var tail, us' := batches[1..], us[1..];
    assert forall i | 0 <= i < |tail| :: tail[i] == batches[i + 1] && us'[i] == us[i + 1];
    assert forall i | 0 < i < |batches| :: batches[i] == tail[i - 1] && us[i] == us'[i - 1];
  }

  lemma HistoriesTail(batches: seq<seq<PersistCmd>>, ts: seq<Tables>, us: seq<Tables>)
    requires FlushHistory(batches, ts) && DirectHistory(batches, us) && batches != []
    ensures FlushHistory(batches[1..], ts[1..]) && DirectHistory(batches[1..], us[1..])
  {
    hide Flushed, Immediately, Enqueued;
    forall i | 0 <= i < |batches[1..]|
      ensures Flushed(ts[1..][i], Enqueued(batches[1..][i]), ts[1..][i + 1])
      ensures us[1..][i + 1] == Immediately(us[1..][i], batches[1..][i])
    {
      assert Flushed(ts[i + 1], Enqueued(batches[i + 1]), ts[i + 1 + 1]);
      assert us[i + 1 + 1] == Immediately(us[i + 1], batches[i + 1]);
    }
  }

  function Flatten(batches: seq<seq<PersistCmd>>): seq<PersistCmd> {
    if batches == [] then [] else Flatten(batches[..|batches| - 1]) + batches[|batches| - 1]
  }

  lemma {:induction false} ImmediatelyInParts(t: Tables, cs: seq<PersistCmd>, ds: seq<PersistCmd>)
    ensures Immediately(t, cs + ds) == Immediately(Immediately(t, cs), ds)
    decreases |ds|
  {
    if ds == [] {
      assert cs + ds == cs;
    } else {
      assert (cs + ds)[..|cs + ds| - 1] == cs + ds[..|ds| - 1];
      ImmediatelyInParts(t, cs, ds[..|ds| - 1]);
    }
  }

  /** With mergeable batches the final tables are those of running every command at once. */
  lemma FinalTables(batches: seq<seq<PersistCmd>>, ts: seq<Tables>)
    requires FlushHistory(batches, ts)
    requires WellFormedTables(ts[0]) && forall b, c | b in batches && c in b :: WellFormedCmd(c)
    requires forall i | 0 <= i < |batches| :: BatchMergeable(ts[i], batches[i])
    ensures ts[|batches|] == Immediately(ts[0], Flatten(batches))
    decreases |batches|
  {
    if batches != [] {
      var n := |batches| - 1;
      assert FlushHistory(batches[..n], ts[..n + 1]) by {
        assert forall i | 0 <= i < n :: Flushed(ts[i], Enqueued(batches[i]), ts[i + 1]);
      }
      FinalTables(batches[..n], ts[..n + 1]);
      assert batches[n] in batches;
      FlattenWellFormed(batches[..n]);
      ImmediatelyWellFormed(ts[0], Flatten(batches[..n]));
      assert Flushed(ts[n], Enqueued(batches[n]), ts[n + 1]);
      BatchMerges(ts[n], batches[n], ts[n + 1]);
      ImmediatelyInParts(ts[0], Flatten(batches[..n]), batches[n]);
    }
  }

  lemma {:induction false} FlattenWellFormed(batches: seq<seq<PersistCmd>>)
    requires forall b, c | b in batches && c in b :: WellFormedCmd(c)
    ensures forall c | c in Flatten(batches) :: WellFormedCmd(c)
    decreases |batches|
  {
    if batches != [] {
      FlattenWellFormed(batches[..|batches| - 1]);
      assert batches[|batches| - 1] in batches;
    }
  }
}
