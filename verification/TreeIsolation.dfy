/** Entities do not disturb each other: however the runs of many entities are interleaved on the one
    shared map, each entity's statuses, calls and memory are those of running its tree alone. */
module TreeIsolation {
  import opened Prelude
  import opened BehaviorTree
  import opened TreeSemantics
  import opened NodePaths

  type Logs = map<Id, seq<Call>>

  /** A history of calls of the runner. Call `i` runs the tree of its entity on map `maps[i]`, returns
      `ss[i]` and `data[i]`, and leaves `maps[i + 1]`. Each entity's scripts see that entity's calls. */
  ghost predicate History(o: Oracle, trees: map<Id, Tree>, ctxs: seq<Context>, maps: seq<States>,
                          logs: seq<Logs>, ss: seq<Status>, data: seq<Option<Data>>)
  {
    && |maps| == |logs| == |ctxs| + 1 && |ss| == |data| == |ctxs|
    && (forall i | 0 <= i < |logs| :: logs[i].Keys == trees.Keys)
    && (forall i | 0 <= i < |ctxs| :: Step(o, trees, ctxs[i], maps[i], logs[i], ss[i], data[i], maps[i + 1], logs[i + 1]))
  }

  ghost predicate Step(o: Oracle, trees: map<Id, Tree>, ctx: Context, before: States, log: Logs,
                       s: Status, data: Option<Data>, after: States, log': Logs)
  {
    && ctx.entity in trees && ctx.entity in log && ctx.entity in log'
    && log' == log[ctx.entity := log'[ctx.entity]]
    && RunsTo(o, trees[ctx.entity], ctx, "root", before, Effects(log[ctx.entity], None),
              s, after, Effects(log'[ctx.entity], data))
  }

  function Of(e: Id, ctxs: seq<Context>): seq<Context> {
    if ctxs == [] then []
    else (if ctxs[0].entity == e then [ctxs[0]] else []) + Of(e, ctxs[1..])
  }

  function StatusesOf(e: Id, ctxs: seq<Context>, ss: seq<Status>): seq<Status>
    requires |ss| == |ctxs|
  {
    if ctxs == [] then []
    else (if ctxs[0].entity == e then [ss[0]] else []) + StatusesOf(e, ctxs[1..], ss[1..])
  }

  lemma OtherEntityUnseen(o: Oracle, trees: map<Id, Tree>, e: Id, ctx: Context, before: States, log: Logs,
                          s: Status, data: Option<Data>, after: States, log': Logs)
    requires e in trees && e in log && ctx.entity != e
    requires Step(o, trees, ctx, before, log, s, data, after, log')
    ensures View(trees[e], after, e, "root") == View(trees[e], before, e, "root") && log'[e] == log[e]
  {
    UnseenByOthers(o, trees[ctx.entity], ctx, "root", before, Effects(log[ctx.entity], None), s, after,
                   Effects(log'[ctx.entity], data), trees[e], "root", e);
  }

  lemma {:induction false} Isolated(o: Oracle, trees: map<Id, Tree>, ctxs: seq<Context>, maps: seq<States>,
                                    logs: seq<Logs>, ss: seq<Status>, data: seq<Option<Data>>, e: Id)
    requires History(o, trees, ctxs, maps, logs, ss, data) && e in trees
    ensures var m := View(trees[e], maps[0], e, "root");
            && StatusesOf(e, ctxs, ss) == Statuses(o, trees[e], Of(e, ctxs), m, logs[0][e])
            && After(o, trees[e], Of(e, ctxs), m, logs[0][e])
               == (View(trees[e], maps[|ctxs|], e, "root"), logs[|ctxs|][e])
    decreases |ctxs|
  {
    if ctxs != [] {
      assert Step(o, trees, ctxs[0], maps[0], logs[0], ss[0], data[0], maps[0 + 1], logs[0 + 1]);
      assert logs[1].Keys == trees.Keys;
      HistoryTail(o, trees, ctxs, maps, logs, ss, data);
      Isolated(o, trees, ctxs[1..], maps[1..], logs[1..], ss[1..], data[1..], e);
      if ctxs[0].entity == e {
        assert Of(e, ctxs)[1..] == Of(e, ctxs[1..]);
      } else {
        OtherEntityUnseen(o, trees, e, ctxs[0], maps[0], logs[0], ss[0], data[0], maps[1], logs[1]);
        assert Of(e, ctxs) == Of(e, ctxs[1..]);
      }
    }
  }

  lemma HistoryTail(o: Oracle, trees: map<Id, Tree>, ctxs: seq<Context>, maps: seq<States>,
                    logs: seq<Logs>, ss: seq<Status>, data: seq<Option<Data>>)
    requires History(o, trees, ctxs, maps, logs, ss, data) && ctxs != []
    ensures History(o, trees, ctxs[1..], maps[1..], logs[1..], ss[1..], data[1..])
  {
    hide Step;
    forall i | 0 <= i < |ctxs[1..]|
      ensures Step(o, trees, ctxs[1..][i], maps[1..][i], logs[1..][i], ss[1..][i], data[1..][i], maps[1..][i + 1], logs[1..][i + 1])
    {
      assert Step(o, trees, ctxs[i + 1], maps[i + 1], logs[i + 1], ss[i + 1], data[i + 1], maps[i + 1 + 1], logs[i + 1 + 1]);
    }
  }

  /** A run for one entity does not show in the memory of another. */
  lemma UnseenByOthers(o: Oracle, t: Tree, ctx: Context, p: string, before: States, fx: Effects, s: Status, after: States, fx': Effects,
                       u: Tree, q: string, e: Id)
    requires RunsTo(o, t, ctx, p, before, fx, s, after, fx') && ctx.entity != e
    ensures View(u, after, e, q) == View(u, before, e, q)
  {
    forall k | IsKey(u, q, k) ensures Get(after, (e, k)) == Get(before, (e, k)) {
      assert (e, k).0 != ctx.entity;
    }
    ViewDetermined(u, e, q, after, before);
  }

  /** Runs for different entities commute: in either order each returns the same status, makes the same
      calls and collects the same data, and the same map is left. */
  lemma RunsCommute(o: Oracle, t: Tree, c: Context, p: string, fx: Effects, u: Tree, d: Context, q: string, gx: Effects, start: States,
                    s: Status, afterT: States, fx': Effects, r: Status, afterTU: States, gx': Effects,
                    r2: Status, afterU: States, gx2: Effects, s2: Status, afterUT: States, fx2: Effects)
    requires c.entity != d.entity
    requires RunsTo(o, t, c, p, start, fx, s, afterT, fx') && RunsTo(o, u, d, q, afterT, gx, r, afterTU, gx')
    requires RunsTo(o, u, d, q, start, gx, r2, afterU, gx2) && RunsTo(o, t, c, p, afterU, fx, s2, afterUT, fx2)
    ensures s == s2 && r == r2 && fx' == fx2 && gx' == gx2 && afterTU == afterUT
  {
    UnseenByOthers(o, t, c, p, start, fx, s, afterT, fx', u, q, d.entity);
    UnseenByOthers(o, u, d, q, start, gx, r2, afterU, gx2, t, p, c.entity);
    UnseenByOthers(o, u, d, q, afterT, gx, r, afterTU, gx', t, p, c.entity);
    UnseenByOthers(o, t, c, p, afterU, fx, s2, afterUT, fx2, u, q, d.entity);
    forall k: Key ensures Get(afterTU, k) == Get(afterUT, k) {
      if k.0 == c.entity && IsKey(t, p, k.1) {
        ViewDetermines(t, c.entity, p, afterTU, afterUT, k.1);
      } else if k.0 == d.entity && IsKey(u, q, k.1) {
        ViewDetermines(u, d.entity, q, afterTU, afterUT, k.1);
      }
    }
    SameEntries(afterTU, afterUT);
  }
}
