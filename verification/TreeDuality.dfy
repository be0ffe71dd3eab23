/** De Morgan's law for behaviour trees: inverting a sequence is selecting among inverted children,
    and the other way round, tick after tick, with the same script calls in the same order. */
module TreeDuality {
  import opened Prelude
  import opened BehaviorTree
  import opened TreeSemantics
  import opened NodePaths

  function InvertAll(kids: seq<Tree>): (ts: seq<Tree>)
    ensures |ts| == |kids| && forall i | 0 <= i < |kids| :: ts[i] == Deco(Invert, kids[i])
  {
    seq(|kids|, i requires 0 <= i < |kids| => Deco(Invert, kids[i]))
  }

  /** The inverted composite, and the dual composite over inverted children. */
  function Outside(goOn: Status, kids: seq<Tree>): Tree { Deco(Invert, Composite(goOn, kids)) }
  function Inside(goOn: Status, kids: seq<Tree>): Tree { Composite(Negate(goOn), InvertAll(kids)) }

  /** The two trees keep the same memory, in different places: the index sits one level lower on the
      left, the children's memory one level lower on the right. */
  ghost predicate Related(goOn: Status, kids: seq<Tree>, m: Mem, n: Mem) {
    && Fits(Outside(goOn, kids), m)
    && Fits(Inside(goOn, kids), n)
    && SameBelow(m.kids[0], n)
  }

  ghost predicate SameBelow(m: Mem, n: Mem) {
    && m.own == n.own
    && |m.kids| == |n.kids|
    && forall i | 0 <= i < |m.kids| :: n.kids[i].kids == [m.kids[i]]
  }

  lemma FreshRelated(goOn: Status, kids: seq<Tree>)
    ensures Related(goOn, kids, Fresh(Outside(goOn, kids)), Fresh(Inside(goOn, kids)))
  {
    var m, n := Fresh(Outside(goOn, kids)).kids[0], Fresh(Inside(goOn, kids));
    assert m == Fresh(Composite(goOn, kids));
    forall i | 0 <= i < |kids| ensures n.kids[i].kids == [m.kids[i]] {
      assert Kids(Composite(goOn, kids))[i] == kids[i];
      assert n.kids[i] == Fresh(Deco(Invert, kids[i]));
      assert Kids(Deco(Invert, kids[i])) == [kids[i]];
    }
  }

  lemma RunInverted(o: Oracle, kid: Tree, ctx: Context, m: Mem, fx: Effects)
    requires Fits(Deco(Invert, kid), m)
    ensures |m.kids| == 1 && Fits(kid, m.kids[0])
    ensures var r := Run(o, kid, ctx, m.kids[0], fx);
            Run(o, Deco(Invert, kid), ctx, m, fx) == Out(Negate(r.status), m.(kids := [r.mem]), r.fx)
  {
    assert Kids(Deco(Invert, kid))[0] == kid;
    assert Run(o, Deco(Invert, kid), ctx, m, fx) == RunDeco(o, Invert, kid, ctx, m, fx);
  }

  lemma ChildrenAgree(o: Oracle, goOn: Status, kids: seq<Tree>, i: nat, ctx: Context, m: Mem, n: Mem, fx: Effects)
    requires Fits(Composite(goOn, kids), m) && Fits(Inside(goOn, kids), n) && SameBelow(m, n) && i < |kids|
    ensures |m.kids| == |n.kids| == |kids| && Fits(kids[i], m.kids[i]) && Fits(InvertAll(kids)[i], n.kids[i])
    ensures var r := Run(o, kids[i], ctx, m.kids[i], fx);
            var q := Run(o, InvertAll(kids)[i], ctx, n.kids[i], fx);
            var m', n' := m.(kids := m.kids[i := r.mem]), n.(kids := n.kids[i := q.mem]);
            && q.status == Negate(r.status) && q.fx == r.fx && SameBelow(m', n')
            && Fits(Composite(goOn, kids), m') && Fits(Inside(goOn, kids), n')
  {
    hide Run;
    assert Kids(Composite(goOn, kids))[i] == kids[i];
    assert Kids(Inside(goOn, kids))[i] == InvertAll(kids)[i];
    RunInverted(o, kids[i], ctx, n.kids[i], fx);
  }

  lemma {:induction false} CompositesAgree(o: Oracle, goOn: Status, kids: seq<Tree>, i: nat, ctx: Context,
                                           m: Mem, n: Mem, fx: Effects)
    requires goOn != Running
    requires Fits(Composite(goOn, kids), m) && Fits(Inside(goOn, kids), n) && SameBelow(m, n)
    ensures var r := RunComposite(o, goOn, kids, i, ctx, m, fx);
            var q := RunComposite(o, Negate(goOn), InvertAll(kids), i, ctx, n, fx);
            q.status == Negate(r.status) && q.fx == r.fx && SameBelow(r.mem, q.mem)
    decreases |kids| - i
  {
    hide Run, Fits;
    if i < |kids| {
      ChildrenAgree(o, goOn, kids, i, ctx, m, n, fx);
      var r := Run(o, kids[i], ctx, m.kids[i], fx);
      var q := Run(o, InvertAll(kids)[i], ctx, n.kids[i], fx);
      if r.status == goOn {
        CompositesAgree(o, goOn, kids, i + 1, ctx, m.(kids := m.kids[i := r.mem]), n.(kids := n.kids[i := q.mem]), r.fx);
      }
    }
  }

  /** One tick from related memories. */
  lemma DeMorganTick(o: Oracle, goOn: Status, kids: seq<Tree>, ctx: Context, m: Mem, n: Mem, fx: Effects)
    requires goOn != Running && Related(goOn, kids, m, n)
    ensures var r := Run(o, Outside(goOn, kids), ctx, m, fx);
            var q := Run(o, Inside(goOn, kids), ctx, n, fx);
            q.status == r.status && q.fx == r.fx && Related(goOn, kids, r.mem, q.mem)
  {
    assert Kids(Outside(goOn, kids))[0] == Composite(goOn, kids);
    RunInverted(o, Composite(goOn, kids), ctx, m, fx);
    CompositesAgree(o, goOn, kids, IndexOf(n), ctx, m.kids[0], n, fx);
  }

  /** Whole runs: the same statuses on every tick and the same calls in the same order. */
  lemma {:induction false} DeMorganRun(o: Oracle, goOn: Status, kids: seq<Tree>, ctxs: seq<Context>,
                                       m: Mem, n: Mem, log: seq<Call>)
    requires goOn != Running && Related(goOn, kids, m, n)
    ensures Statuses(o, Outside(goOn, kids), ctxs, m, log) == Statuses(o, Inside(goOn, kids), ctxs, n, log)
    ensures After(o, Outside(goOn, kids), ctxs, m, log).1 == After(o, Inside(goOn, kids), ctxs, n, log).1
    decreases |ctxs|
  {
    if ctxs != [] {
      DeMorganTick(o, goOn, kids, ctxs[0], m, n, Effects(log, None));
      var r := Tick(o, Outside(goOn, kids), ctxs[0], m, log);
      var q := Tick(o, Inside(goOn, kids), ctxs[0], n, log);
      DeMorganRun(o, goOn, kids, ctxs[1..], r.mem, q.mem, r.fx.log);
    }
  }

  /** In particular from fresh memory, such as every entity has to begin with. */
  lemma DeMorganFromFresh(o: Oracle, goOn: Status, kids: seq<Tree>, ctxs: seq<Context>, log: seq<Call>)
    requires goOn != Running
    ensures var (t, u) := (Outside(goOn, kids), Inside(goOn, kids));
            && Statuses(o, t, ctxs, Fresh(t), log) == Statuses(o, u, ctxs, Fresh(u), log)
            && After(o, t, ctxs, Fresh(t), log).1 == After(o, u, ctxs, Fresh(u), log).1
  {
    FreshRelated(goOn, kids);
    DeMorganRun(o, goOn, kids, ctxs, Fresh(Outside(goOn, kids)), Fresh(Inside(goOn, kids)), log);
  }

  /** The same on the runner's own map: the two trees may sit at different paths, in the memories of
      two different runners. */
  lemma DeMorganOnTheMap(o: Oracle, goOn: Status, kids: seq<Tree>, ctx: Context, fx: Effects,
                         p: string, s: States, a: Status, s': States, fa: Effects,
                         q: string, u: States, b: Status, u': States, fb: Effects)
    requires goOn != Running
    requires Related(goOn, kids, View(Outside(goOn, kids), s, ctx.entity, p), View(Inside(goOn, kids), u, ctx.entity, q))
    requires RunsTo(o, Outside(goOn, kids), ctx, p, s, fx, a, s', fa)
    requires RunsTo(o, Inside(goOn, kids), ctx, q, u, fx, b, u', fb)
    ensures a == b && fa == fb
    ensures Related(goOn, kids, View(Outside(goOn, kids), s', ctx.entity, p), View(Inside(goOn, kids), u', ctx.entity, q))
  {
    DeMorganTick(o, goOn, kids, ctx, View(Outside(goOn, kids), s, ctx.entity, p),
                 View(Inside(goOn, kids), u, ctx.entity, q), fx);
  }
}
