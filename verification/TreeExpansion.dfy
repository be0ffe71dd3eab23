/** What a tick does, does not depend on how far subtree references are expanded: any two expansions of
    a node that the tick does not leave describe the same outcome. So the runner's contract, which may be
    given any of them, has one meaning, also for nodes that reach a cycle and have no whole expansion. */
module TreeExpansion {
  import opened Prelude
  import opened BehaviorTree
  import opened TreeSemantics
  import opened NodePaths
  import opened BehaviorRunner
  import opened TreeTermination

  // ---------- expansions of one node ----------

  predicate SameHead(t: Tree, u: Tree) {
    match (t, u)
    case (Composite(g, ts), Composite(h, us)) => g == h && |ts| == |us|
    case (Force(ts), Force(us)) => |ts| == |us|
    case (Deco(k, _), Deco(l, _)) => k == l
    case (Sub(x, _), Sub(y, _)) => x == y
    case _ => t == u
  }

  /** The same tree, except that either may stop where the other goes on. */
  ghost predicate Alike(t: Tree, u: Tree)
    decreases t
  {
    t.Unexplored? || u.Unexplored?
    || (SameHead(t, u) && |Kids(t)| == |Kids(u)| && forall i | 0 <= i < |Kids(t)| :: Alike(Kids(t)[i], Kids(u)[i]))
  }

  lemma {:induction false} ExpansionsAlike(reg: Registry, node: Node, t: Tree, u: Tree)
    requires Resolves(reg, node, t) && Resolves(reg, node, u)
    ensures Alike(t, u)
    decreases t
  {
    match node
    case Sequence(children) => AllAlike(reg, children, t.kids, u.kids);
    case Selector(children) => AllAlike(reg, children, t.kids, u.kids);
    case ForceSequence(children) => AllAlike(reg, children, t.kids, u.kids);
    case Decorator(_, child) => ExpansionsAlike(reg, child, t.kid, u.kid);
    case Subtree(name) =>
      if name in reg && t.Sub? && u.Sub? {
        ExpansionsAlike(reg, reg[name], t.body, u.body);
      }
    case _ =>
  }

  lemma {:induction false} AllAlike(reg: Registry, nodes: seq<Node>, ts: seq<Tree>, us: seq<Tree>)
    requires ResolvesAll(reg, nodes, ts) && ResolvesAll(reg, nodes, us)
    ensures forall i | 0 <= i < |ts| :: Alike(ts[i], us[i])
    decreases ts
  {
    forall i | 0 <= i < |ts| ensures Alike(ts[i], us[i]) {
      ExpansionsAlike(reg, nodes[i], ts[i], us[i]);
    }
  }

  /** An expansion is a tree that the theorems about runs apply to. */
  lemma {:induction false} ExpansionWellFormed(reg: Registry, node: Node, t: Tree)
    requires Resolves(reg, node, t)
    ensures WellFormed(t)
    decreases t
  {
    match node
    case Sequence(children) => AllWellFormed(reg, children, t.kids);
    case Selector(children) => AllWellFormed(reg, children, t.kids);
    case ForceSequence(children) => AllWellFormed(reg, children, t.kids);
    case Decorator(_, child) => ExpansionWellFormed(reg, child, t.kid);
    case Subtree(name) => if t.Sub? { ExpansionWellFormed(reg, reg[name], t.body); }
    case _ =>
  }

  lemma {:induction false} AllWellFormed(reg: Registry, nodes: seq<Node>, ts: seq<Tree>)
    requires ResolvesAll(reg, nodes, ts)
    ensures forall i | 0 <= i < |ts| :: WellFormed(ts[i])
    decreases ts
  {
    forall i | 0 <= i < |ts| ensures WellFormed(ts[i]) {
      ExpansionWellFormed(reg, nodes[i], ts[i]);
    }
  }

  // ---------- their memories ----------

  /** The same memory, as far as both trees go. */
  ghost predicate SameMem(t: Tree, m: Mem, u: Tree, n: Mem)
    requires Fits(t, m) && Fits(u, n)
    decreases t
  {
    && m.own == n.own && m.start == n.start
    && forall i | 0 <= i < |Kids(t)| && i < |Kids(u)| :: SameMem(Kids(t)[i], m.kids[i], Kids(u)[i], n.kids[i])
  }

  /** Where `t` stops, the memory of `u` has not changed. */
  ghost predicate Kept(t: Tree, u: Tree, n: Mem, n': Mem)
    requires Fits(u, n) && Fits(u, n')
    decreases u
  {
    if t.Unexplored? then n' == n
    else forall i | 0 <= i < |Kids(u)| && i < |Kids(t)| :: Kept(Kids(t)[i], Kids(u)[i], n.kids[i], n'.kids[i])
  }

  lemma {:induction false} KeptSame(t: Tree, u: Tree, n: Mem)
    requires Fits(u, n)
    ensures Kept(t, u, n, n)
    decreases u
  {
    forall i | 0 <= i < |Kids(u)| && i < |Kids(t)| ensures Kept(Kids(t)[i], Kids(u)[i], n.kids[i], n.kids[i]) {
      KeptSame(Kids(t)[i], Kids(u)[i], n.kids[i]);
    }
  }

  lemma {:induction false} KeptTransitive(t: Tree, u: Tree, a: Mem, b: Mem, c: Mem)
    requires Fits(u, a) && Fits(u, b) && Fits(u, c) && Kept(t, u, a, b) && Kept(t, u, b, c)
    ensures Kept(t, u, a, c)
    decreases u
  {
    if !t.Unexplored? {
      forall i | 0 <= i < |Kids(u)| && i < |Kids(t)| ensures Kept(Kids(t)[i], Kids(u)[i], a.kids[i], c.kids[i]) {
        KeptTransitive(Kids(t)[i], Kids(u)[i], a.kids[i], b.kids[i], c.kids[i]);
      }
    }
  }

  /** Both memories moved alike, and only where both trees go. */
  ghost predicate Moved(t: Tree, u: Tree, m: Mem, n: Mem, m': Mem, n': Mem)
    requires Fits(t, m) && Fits(t, m') && Fits(u, n) && Fits(u, n')
  {
    SameMem(t, m', u, n') && Kept(t, u, n, n') && Kept(u, t, m, m')
  }

  lemma MovedTransitive(t: Tree, u: Tree, m: Mem, n: Mem, m1: Mem, n1: Mem, m2: Mem, n2: Mem)
    requires Fits(t, m) && Fits(t, m1) && Fits(t, m2) && Fits(u, n) && Fits(u, n1) && Fits(u, n2)
    requires Moved(t, u, m, n, m1, n1) && Moved(t, u, m1, n1, m2, n2)
    ensures Moved(t, u, m, n, m2, n2)
  {
    KeptTransitive(t, u, n, n1, n2);
    KeptTransitive(u, t, m, m1, m2);
  }

  /** One child moved. */
  lemma KidMoved(t: Tree, u: Tree, m: Mem, n: Mem, i: nat, a: Mem, b: Mem)
    requires Fits(t, m) && Fits(u, n) && SameMem(t, m, u, n) && !t.Unexplored? && !u.Unexplored?
    requires i < |Kids(t)| == |Kids(u)| && Fits(Kids(t)[i], a) && Fits(Kids(u)[i], b)
    requires Moved(Kids(t)[i], Kids(u)[i], m.kids[i], n.kids[i], a, b)
    ensures var m', n' := m.(kids := m.kids[i := a]), n.(kids := n.kids[i := b]);
            Fits(t, m') && Fits(u, n') && Moved(t, u, m, n, m', n')
  {
    var m', n' := m.(kids := m.kids[i := a]), n.(kids := n.kids[i := b]);
    forall j | 0 <= j < |Kids(t)|
      ensures Kept(Kids(t)[j], Kids(u)[j], n.kids[j], n'.kids[j]) && Kept(Kids(u)[j], Kids(t)[j], m.kids[j], m'.kids[j])
    {
      if j != i {
        KeptSame(Kids(t)[j], Kids(u)[j], n.kids[j]);
        KeptSame(Kids(u)[j], Kids(t)[j], m.kids[j]);
      }
    }
  }

  /** The nodes' own entries changed to the same. */
  lemma OwnMoved(t: Tree, u: Tree, m: Mem, n: Mem, own: Option<NodeState>, start: Option<NodeState>)
    requires Fits(t, m) && Fits(u, n) && SameMem(t, m, u, n) && !t.Unexplored? && !u.Unexplored?
    ensures var m', n' := m.(own := own, start := start), n.(own := own, start := start);
            Fits(t, m') && Fits(u, n') && Moved(t, u, m, n, m', n')
  {
    forall j | 0 <= j < |Kids(t)| && j < |Kids(u)|
      ensures Kept(Kids(t)[j], Kids(u)[j], n.kids[j], n.kids[j]) && Kept(Kids(u)[j], Kids(t)[j], m.kids[j], m.kids[j])
    {
      KeptSame(Kids(t)[j], Kids(u)[j], n.kids[j]);
      KeptSame(Kids(u)[j], Kids(t)[j], m.kids[j]);
    }
  }

  // ---------- one tick ----------

  ghost predicate SameOutcome(t: Tree, u: Tree, m: Mem, n: Mem, r: Out, q: Out)
    requires Fits(t, m) && Fits(u, n)
  {
    && r.status == q.status && r.fx == q.fx
    && Fits(t, r.mem) && Fits(u, q.mem) && Moved(t, u, m, n, r.mem, q.mem)
  }

  lemma {:induction false} RunsAgree(o: Oracle, t: Tree, m: Mem, u: Tree, n: Mem, ctx: Context, fx: Effects)
    requires Fits(t, m) && Fits(u, n) && Alike(t, u) && SameMem(t, m, u, n)
    requires Within(o, t, ctx, m, fx) && Within(o, u, ctx, n, fx)
    ensures SameOutcome(t, u, m, n, Run(o, t, ctx, m, fx), Run(o, u, ctx, n, fx))
    decreases t, 0
  {
    match t
    case Composite(goOn, kids) =>
      assert forall i | 0 <= i < |kids| :: Kids(t)[i] == kids[i] && Kids(u)[i] == u.kids[i];
      CompositesAgree(o, goOn, kids, u.kids, IndexOf(m), ctx, m, n, fx);
    case Force(kids) =>
      assert forall i | 0 <= i < |kids| :: Kids(t)[i] == kids[i] && Kids(u)[i] == u.kids[i];
      ForcesAgree(o, kids, u.kids, 0, false, true, ctx, m, n, fx);
    case Deco(kind, kid) =>
      assert u == Deco(kind, u.kid) && Kids(t)[0] == kid && Kids(u)[0] == u.kid;
      DecosAgree(o, kind, kid, u.kid, ctx, m, n, fx);
    case Sub(_, body) =>
      assert Kids(t)[0] == body && Kids(u)[0] == u.body;
      RunsAgree(o, body, m.kids[0], u.body, n.kids[0], ctx, fx);
      KidMoved(t, u, m, n, 0, Run(o, body, ctx, m.kids[0], fx).mem, Run(o, u.body, ctx, n.kids[0], fx).mem);
      assert forall x: Mem :: m.kids[0 := x] == [x] && n.kids[0 := x] == [x];
    case Delay(ticks) =>
      var m' := RunDelay(ticks, m).1;
      OwnMoved(t, u, m, n, m'.own, m'.start);
    case _ =>
      OwnMoved(t, u, m, n, m.own, m.start);
  }

  lemma {:induction false} CompositesAgree(o: Oracle, goOn: Status, ts: seq<Tree>, us: seq<Tree>, i: nat, ctx: Context,
                                           m: Mem, n: Mem, fx: Effects)
    requires Fits(Composite(goOn, ts), m) && Fits(Composite(goOn, us), n) && |ts| == |us|
    requires SameMem(Composite(goOn, ts), m, Composite(goOn, us), n) && forall j | 0 <= j < |ts| :: Alike(ts[j], us[j])
    requires CompositeWithin(o, goOn, ts, i, ctx, m, fx) && CompositeWithin(o, goOn, us, i, ctx, n, fx)
    ensures SameOutcome(Composite(goOn, ts), Composite(goOn, us), m, n,
                        RunComposite(o, goOn, ts, i, ctx, m, fx), RunComposite(o, goOn, us, i, ctx, n, fx))
    decreases ts, |ts| - i
  {
    hide Run, Within, Alike, SameMem, Kept;
    var (t, u) := (Composite(goOn, ts), Composite(goOn, us));
    if i >= |ts| {
      OwnMoved(t, u, m, n, None, m.start);
      SameOwn(t, u, m, n);
    } else {
      assert Kids(t)[i] == ts[i] && Kids(u)[i] == us[i];
      SameKid(t, u, m, n, i);
      SameOwn(t, u, m, n);
      RunsAgree(o, ts[i], m.kids[i], us[i], n.kids[i], ctx, fx);
      var (r, q) := (Run(o, ts[i], ctx, m.kids[i], fx), Run(o, us[i], ctx, n.kids[i], fx));
      var m', n' := m.(kids := m.kids[i := r.mem]), n.(kids := n.kids[i := q.mem]);
      KidMoved(t, u, m, n, i, r.mem, q.mem);
      if r.status == Running {
        var own := Some(m.own.GetOr(DEFAULT_STATE).(childIndex := i));
        OwnMoved(t, u, m', n', own, m.start);
        MovedTransitive(t, u, m, n, m', n', m'.(own := own), n'.(own := own));
      } else if r.status != goOn {
        OwnMoved(t, u, m', n', None, m.start);
        MovedTransitive(t, u, m, n, m', n', m'.(own := None), n'.(own := None));
      } else {
        CompositesAgree(o, goOn, ts, us, i + 1, ctx, m', n', r.fx);
        MovedTransitive(t, u, m, n, m', n', RunComposite(o, goOn, ts, i + 1, ctx, m', r.fx).mem,
                        RunComposite(o, goOn, us, i + 1, ctx, n', r.fx).mem);
      }
    }
  }

  lemma SameOwn(t: Tree, u: Tree, m: Mem, n: Mem)
    requires Fits(t, m) && Fits(u, n) && SameMem(t, m, u, n)
    ensures m.own == n.own && m.start == n.start
  {
  }

  lemma SameKid(t: Tree, u: Tree, m: Mem, n: Mem, i: nat)
    requires Fits(t, m) && Fits(u, n) && SameMem(t, m, u, n) && i < |Kids(t)| && i < |Kids(u)|
    ensures SameMem(Kids(t)[i], m.kids[i], Kids(u)[i], n.kids[i])
  {
  }

  lemma {:induction false} ForcesAgree(o: Oracle, ts: seq<Tree>, us: seq<Tree>, i: nat, x: bool, y: bool, ctx: Context,
                                       m: Mem, n: Mem, fx: Effects)
    requires Fits(Force(ts), m) && Fits(Force(us), n) && |ts| == |us|
    requires SameMem(Force(ts), m, Force(us), n) && forall j | 0 <= j < |ts| :: Alike(ts[j], us[j])
    requires ForceWithin(o, ts, i, ctx, m, fx) && ForceWithin(o, us, i, ctx, n, fx)
    ensures SameOutcome(Force(ts), Force(us), m, n, RunForce(o, ts, i, x, y, ctx, m, fx), RunForce(o, us, i, x, y, ctx, n, fx))
    decreases ts, |ts| - i
  {
    hide Run, Within, Alike, SameMem, Kept;
    var (t, u) := (Force(ts), Force(us));
    if i >= |ts| {
      OwnMoved(t, u, m, n, m.own, m.start);
      SameOwn(t, u, m, n);
    } else {
      assert Kids(t)[i] == ts[i] && Kids(u)[i] == us[i];
      SameKid(t, u, m, n, i);
      RunsAgree(o, ts[i], m.kids[i], us[i], n.kids[i], ctx, fx);
      var (r, q) := (Run(o, ts[i], ctx, m.kids[i], fx), Run(o, us[i], ctx, n.kids[i], fx));
      var m', n' := m.(kids := m.kids[i := r.mem]), n.(kids := n.kids[i := q.mem]);
      KidMoved(t, u, m, n, i, r.mem, q.mem);
      var (x', y') := (x || r.status == Running, y && r.status != Failure);
      ForcesAgree(o, ts, us, i + 1, x', y', ctx, m', n', r.fx);
      MovedTransitive(t, u, m, n, m', n', RunForce(o, ts, i + 1, x', y', ctx, m', r.fx).mem,
                      RunForce(o, us, i + 1, x', y', ctx, n', r.fx).mem);
    }
  }

  lemma {:induction false} DecosAgree(o: Oracle, kind: DecoratorKind, kid: Tree, lid: Tree, ctx: Context, m: Mem, n: Mem, fx: Effects)
    requires Fits(Deco(kind, kid), m) && Fits(Deco(kind, lid), n) && Alike(kid, lid)
    requires SameMem(Deco(kind, kid), m, Deco(kind, lid), n)
    requires Within(o, Deco(kind, kid), ctx, m, fx) && Within(o, Deco(kind, lid), ctx, n, fx)
    ensures SameOutcome(Deco(kind, kid), Deco(kind, lid), m, n,
                        RunDeco(o, kind, kid, ctx, m, fx), RunDeco(o, kind, lid, ctx, n, fx))
    decreases kid, 1
  {
    hide Run, Within, RunDeco, Alike, SameMem, Kept, Fits, Blocked, DecoResult, DecoAnswer;
    var (t, u) := (Deco(kind, kid), Deco(kind, lid));
    assert Kids(t) == [kid] && Kids(u) == [lid];
    DecoOutcome(o, kind, kid, ctx, m, fx);
    DecoOutcome(o, kind, lid, ctx, n, fx);
    DecoWithin(o, kind, kid, ctx, m, fx);
    DecoWithin(o, kind, lid, ctx, n, fx);
    SameOwn(t, u, m, n);
    OwnDecides(kind, ctx, m, n);
    if Blocked(kind, ctx, m) {
      OwnMoved(t, u, m, n, DecoAnswer(kind, m).1, m.start);
    } else {
      SameKid(t, u, m, n, 0);
      RunsAgree(o, kid, m.kids[0], lid, n.kids[0], ctx, fx);
      var (r, q) := (Run(o, kid, ctx, m.kids[0], fx), Run(o, lid, ctx, n.kids[0], fx));
      var (_, own, start) := DecoResult(kind, ctx, m, r.status);
      var m', n' := m.(kids := m.kids[0 := r.mem]), n.(kids := n.kids[0 := q.mem]);
      KidMoved(t, u, m, n, 0, r.mem, q.mem);
      OwnMoved(t, u, m', n', own, start);
      assert m'.(own := own, start := start) == Mem(own, start, [r.mem]) && n'.(own := own, start := start) == Mem(own, start, [q.mem]);
      MovedTransitive(t, u, m, n, m', n', Mem(own, start, [r.mem]), Mem(own, start, [q.mem]));
    }
  }

  lemma DecoWithin(o: Oracle, kind: DecoratorKind, kid: Tree, ctx: Context, m: Mem, fx: Effects)
    requires Fits(Deco(kind, kid), m) && |m.kids| == 1 && Fits(kid, m.kids[0])
    ensures Within(o, Deco(kind, kid), ctx, m, fx) ==> Blocked(kind, ctx, m) || Within(o, kid, ctx, m.kids[0], fx)
  {
  }

  lemma OwnDecides(kind: DecoratorKind, ctx: Context, m: Mem, n: Mem)
    requires m.own == n.own && m.start == n.start
    ensures Blocked(kind, ctx, m) == Blocked(kind, ctx, n) && DecoAnswer(kind, m) == DecoAnswer(kind, n)
    ensures forall s :: DecoResult(kind, ctx, m, s) == DecoResult(kind, ctx, n, s)
  {
  }

  /** What a decorator makes of its child's outcome, and of its own entries. */
  function DecoResult(kind: DecoratorKind, ctx: Context, m: Mem, s: Status): (Status, Option<NodeState>, Option<NodeState>) {
    var state := m.own.GetOr(DEFAULT_STATE);
    match kind
    case Repeat(_) =>
      (match s
       case Success => (Running, Some(state.(repeatCount := state.repeatCount + 1)), m.start)
       case Failure => (Failure, None, m.start)
       case Running => (Running, m.own, m.start))
    case Cooldown(_) => (s, if s == Success then Some(state.(lastExecution := Some(ctx.gameTime))) else m.own, m.start)
    case RunOnce => (s, if s != Running then Some(state.(storedResult := Some(s))) else m.own, m.start)
    case Timeout(_) =>
      var begun := m.start.GetOr(DEFAULT_STATE);
      var begun' := if begun.lastExecution.None? then begun.(lastExecution := Some(ctx.gameTime)) else begun;
      (s, m.own, if s == Running then Some(begun') else None)
    case _ => (Masked(kind, s), m.own, m.start)
  }

  /** What a decorator answers from memory. */
  function DecoAnswer(kind: DecoratorKind, m: Mem): (Status, Option<NodeState>) {
    match kind
    case Repeat(_) => (Success, None)
    case RunOnce => (m.own.GetOr(DEFAULT_STATE).storedResult.GetOr(Failure), m.own)
    case _ => (Failure, m.own)
  }

  lemma DecoOutcome(o: Oracle, kind: DecoratorKind, kid: Tree, ctx: Context, m: Mem, fx: Effects)
    requires Fits(Deco(kind, kid), m)
    ensures |m.kids| == 1 && Fits(kid, m.kids[0])
    ensures var q := RunDeco(o, kind, kid, ctx, m, fx);
            if Blocked(kind, ctx, m) then
              q == Out(DecoAnswer(kind, m).0, m.(own := DecoAnswer(kind, m).1), fx)
            else
              var r := Run(o, kid, ctx, m.kids[0], fx);
              var (s, own, start) := DecoResult(kind, ctx, m, r.status);
              q == Out(s, Mem(own, start, [r.mem]), r.fx)
  {
    assert Kids(Deco(kind, kid))[0] == kid;
    hide Run, Fits;
    match kind
    case Repeat(count) => assert RunDeco(o, kind, kid, ctx, m, fx) == RunRepeat(o, count, kid, ctx, m, fx);
    case Cooldown(seconds) => assert RunDeco(o, kind, kid, ctx, m, fx) == RunCooldown(o, seconds, kid, ctx, m, fx);
    case RunOnce => assert RunDeco(o, kind, kid, ctx, m, fx) == RunRunOnce(o, kid, ctx, m, fx);
    case Timeout(limit) => assert RunDeco(o, kind, kid, ctx, m, fx) == RunTimeout(o, limit, kid, ctx, m, fx);
    case _ =>
  }

  // ---------- on the flat map ----------

  lemma SameEdges(t: Tree, u: Tree, i: nat)
    requires SameHead(t, u) && i < |Kids(t)| && i < |Kids(u)|
    ensures Edge(t, i) == Edge(u, i)
  {
  }

  /** Two maps hold the same as far as both trees go. */
  ghost predicate MapsAgree(t: Tree, u: Tree, a: States, b: States, e: Id, p: string) {
    SameMem(t, View(t, a, e, p), u, View(u, b, e, p))
  }

  /** Where `t` stops, nothing that `u` holds has changed. */
  ghost predicate MapKept(t: Tree, u: Tree, before: States, after: States, e: Id, p: string) {
    Kept(t, u, View(u, before, e, p), View(u, after, e, p))
  }

  lemma {:induction false} ViewsAgree(t: Tree, u: Tree, s: States, e: Id, p: string)
    requires Alike(t, u)
    ensures MapsAgree(t, u, s, s, e, p)
    decreases t
  {
    forall i | 0 <= i < |Kids(t)| && i < |Kids(u)|
      ensures SameMem(Kids(t)[i], View(t, s, e, p).kids[i], Kids(u)[i], View(u, s, e, p).kids[i])
    {
      SameEdges(t, u, i);
      ViewsAgree(Kids(t)[i], Kids(u)[i], s, e, p + Edge(t, i));
    }
  }

  lemma KeyOfKid(t: Tree, p: string, k: string) returns (i: nat)
    requires IsKey(t, p, k) && k != p && k != p + START
    ensures i < |Kids(t)| && IsKey(Kids(t)[i], p + Edge(t, i), k) && Under(p + Edge(t, i), k)
  {
    hide Under;
    i :| 0 <= i < |Kids(t)| && IsKey(Kids(t)[i], p + Edge(t, i), k);
    KeysUnder(Kids(t)[i], p + Edge(t, i), k);
  }

  lemma NoKeyOfKid(t: Tree, p: string, k: string, i: nat)
    requires !IsKey(t, p, k) && i < |Kids(t)|
    ensures !IsKey(Kids(t)[i], p + Edge(t, i), k)
  {
  }

  lemma AlikeKids(t: Tree, u: Tree, i: nat)
    requires Alike(t, u) && i < |Kids(t)| && i < |Kids(u)|
    ensures SameHead(t, u) && Alike(Kids(t)[i], Kids(u)[i]) && Edge(t, i) == Edge(u, i)
  {
    SameEdges(t, u, i);
  }

  /** Keys that both trees have hold the same in both maps. */
  lemma {:induction false} SharedKeys(t: Tree, u: Tree, a: States, b: States, e: Id, p: string, k: string)
    requires Alike(t, u) && MapsAgree(t, u, a, b, e, p) && IsKey(t, p, k) && IsKey(u, p, k)
    ensures Get(a, (e, k)) == Get(b, (e, k))
    decreases t
  {
    hide View, Under, Edge, IsKey, Alike, SameMem, SameHead, Fits;
    ViewOwn(t, a, e, p);
    ViewOwn(u, b, e, p);
    SameOwn(t, u, View(t, a, e, p), View(u, b, e, p));
    if k != p && k != p + START {
      var i := KeyOfKid(t, p, k);
      var j := KeyOfKid(u, p, k);
      assert !t.Unexplored? && !u.Unexplored?;
      AlikeSize(t, u);
      AlikeKids(t, u, j);
      EdgesApart(t, p, i, j, k);
      ViewKid(t, a, e, p, i);
      ViewKid(u, b, e, p, i);
      SameKid(t, u, View(t, a, e, p), View(u, b, e, p), i);
      SharedKeys(Kids(t)[i], Kids(u)[i], a, b, e, p + Edge(t, i), k);
    }
  }

  lemma AlikeSize(t: Tree, u: Tree)
    requires Alike(t, u) && !t.Unexplored? && !u.Unexplored?
    ensures |Kids(t)| == |Kids(u)|
  {
  }

  lemma KeptKid(t: Tree, u: Tree, n: Mem, n': Mem, i: nat)
    requires Fits(u, n) && Fits(u, n') && Kept(t, u, n, n') && !t.Unexplored? && i < |Kids(u)| && i < |Kids(t)|
    ensures Kept(Kids(t)[i], Kids(u)[i], n.kids[i], n'.kids[i])
  {
  }

  lemma KeptStop(u: Tree, n: Mem, n': Mem)
    requires Fits(u, n) && Fits(u, n') && Kept(Unexplored, u, n, n')
    ensures n == n'
  {
  }

  lemma RootIsKey(t: Tree, p: string)
    ensures IsKey(t, p, p) && IsKey(t, p, p + START)
  {
  }

  /** Keys that only the longer tree has are as they were. */
  lemma {:induction false} OwnKeys(t: Tree, u: Tree, before: States, after: States, e: Id, p: string, k: string)
    requires Alike(t, u) && MapKept(t, u, before, after, e, p) && !IsKey(t, p, k) && IsKey(u, p, k)
    ensures Get(after, (e, k)) == Get(before, (e, k))
    decreases u
  {
    hide View, Under, Edge, IsKey, Alike, Kept, SameHead, Fits;
    RootIsKey(t, p);
    if t.Unexplored? {
      KeptStop(u, View(u, before, e, p), View(u, after, e, p));
      ViewDetermines(u, e, p, after, before, k);
    } else {
      var j := KeyOfKid(u, p, k);
      assert !u.Unexplored?;
      AlikeSize(t, u);
      AlikeKids(t, u, j);
      NoKeyOfKid(t, p, k, j);
      ViewKid(u, before, e, p, j);
      ViewKid(u, after, e, p, j);
      KeptKid(t, u, View(u, before, e, p), View(u, after, e, p), j);
      OwnKeys(Kids(t)[j], Kids(u)[j], before, after, e, p + Edge(u, j), k);
    }
  }

  lemma {:induction false} AlikeSymmetric(t: Tree, u: Tree)
    requires Alike(t, u)
    ensures Alike(u, t)
    decreases t
  {
    if !t.Unexplored? && !u.Unexplored? {
      forall i | 0 <= i < |Kids(t)| ensures Alike(Kids(u)[i], Kids(t)[i]) {
        AlikeSymmetric(Kids(t)[i], Kids(u)[i]);
      }
    }
  }

  /** Maps that moved alike agree on the keys of the entity. */
  lemma KeysAgree(t: Tree, u: Tree, e: Id, p: string, before: States, a: States, b: States, k: string)
    requires Alike(t, u) && Alike(u, t)
    requires !IsKey(t, p, k) ==> Get(a, (e, k)) == Get(before, (e, k))
    requires !IsKey(u, p, k) ==> Get(b, (e, k)) == Get(before, (e, k))
    requires MapsAgree(t, u, a, b, e, p) && MapKept(t, u, before, b, e, p) && MapKept(u, t, before, a, e, p)
    ensures Get(a, (e, k)) == Get(b, (e, k))
  {
    hide *;
    if IsKey(t, p, k) {
      if IsKey(u, p, k) {
        SharedKeys(t, u, a, b, e, p, k);
      } else {
        OwnKeys(u, t, before, a, e, p, k);
      }
    } else if IsKey(u, p, k) {
      OwnKeys(t, u, before, b, e, p, k);
    }
  }

  lemma RunsFromOneMap(t: Tree, u: Tree, o: Oracle, ctx: Context, p: string, before: States, fx: Effects)
    requires Alike(t, u)
    requires Within(o, t, ctx, View(t, before, ctx.entity, p), fx) && Within(o, u, ctx, View(u, before, ctx.entity, p), fx)
    ensures var (m, n) := (View(t, before, ctx.entity, p), View(u, before, ctx.entity, p));
            SameOutcome(t, u, m, n, Run(o, t, ctx, m, fx), Run(o, u, ctx, n, fx))
  {
    ViewsAgree(t, u, before, ctx.entity, p);
    RunsAgree(o, t, View(t, before, ctx.entity, p), u, View(u, before, ctx.entity, p), ctx, fx);
    hide Run, Within, View, Alike, SameMem, Fits;
  }

  lemma OutcomeOnMaps(t: Tree, u: Tree, e: Id, p: string, before: States, s: Status, a: States, f: Effects, r: Status, b: States, g: Effects)
    requires SameOutcome(t, u, View(t, before, e, p), View(u, before, e, p), Out(s, View(t, a, e, p), f), Out(r, View(u, b, e, p), g))
    ensures s == r && f == g
    ensures MapsAgree(t, u, a, b, e, p) && MapKept(t, u, before, b, e, p) && MapKept(u, t, before, a, e, p)
  {
    hide View, SameMem, Kept, Fits;
  }

  lemma RanTo(o: Oracle, t: Tree, ctx: Context, p: string, before: States, fx: Effects, s: Status, after: States, fx': Effects)
    requires RunsTo(o, t, ctx, p, before, fx, s, after, fx')
    ensures Run(o, t, ctx, View(t, before, ctx.entity, p), fx) == Out(s, View(t, after, ctx.entity, p), fx')
  {
    hide Run, View, SameOff;
  }

  lemma TicksAgree(t: Tree, u: Tree, o: Oracle, ctx: Context, p: string, before: States, fx: Effects,
                   s: Status, a: States, f: Effects, r: Status, b: States, g: Effects)
    requires Alike(t, u)
    requires Within(o, t, ctx, View(t, before, ctx.entity, p), fx) && Within(o, u, ctx, View(u, before, ctx.entity, p), fx)
    requires RunsTo(o, t, ctx, p, before, fx, s, a, f) && RunsTo(o, u, ctx, p, before, fx, r, b, g)
    ensures s == r && f == g
    ensures MapsAgree(t, u, a, b, ctx.entity, p) && MapKept(t, u, before, b, ctx.entity, p) && MapKept(u, t, before, a, ctx.entity, p)
  {
    RanTo(o, t, ctx, p, before, fx, s, a, f);
    RanTo(o, u, ctx, p, before, fx, r, b, g);
    RunsFromOneMap(t, u, o, ctx, p, before, fx);
    hide *;
    OutcomeOnMaps(t, u, ctx.entity, p, before, s, a, f, r, b, g);
  }

  /** Any two expansions of a node that a tick does not leave specify the same tick: the same status,
      calls and data, and the same map. */
  lemma ExpansionIrrelevant(reg: Registry, node: Node, t: Tree, u: Tree, o: Oracle, ctx: Context, p: string, before: States, fx: Effects,
                            s: Status, a: States, f: Effects, r: Status, b: States, g: Effects)
    requires Resolves(reg, node, t) && Resolves(reg, node, u)
    requires Within(o, t, ctx, View(t, before, ctx.entity, p), fx) && Within(o, u, ctx, View(u, before, ctx.entity, p), fx)
    requires RunsTo(o, t, ctx, p, before, fx, s, a, f) && RunsTo(o, u, ctx, p, before, fx, r, b, g)
    ensures s == r && a == b && f == g
  {
    ExpansionsAlike(reg, node, t, u);
    AlikeSymmetric(t, u);
    hide Resolves, Run, Within, View, Alike, MapsAgree, MapKept, IsKey, Fits, Get;
    TicksAgree(t, u, o, ctx, p, before, fx, s, a, f, r, b, g);
    forall k: Key ensures Get(a, k) == Get(b, k) {
      if k.0 == ctx.entity {
        assert k == (ctx.entity, k.1);
        KeysAgree(t, u, ctx.entity, p, before, a, b, k.1);
      }
    }
    SameEntries(a, b);
  }

  // ---------- a guarded cycle ----------

  const LOOP: Registry := map["a" := TURN]

  const TURN: Node := Selector([Succeed, Subtree("a")])

  lemma LoopRefers()
    ensures Refers(TURN, "a") && LOOP.Keys == {"a"} && LOOP["a"] == TURN
  {
    assert [Succeed, Subtree("a")][1] == Subtree("a") && Refers(Subtree("a"), "a");
  }

  lemma LoopOnce(o: Oracle, ctx: Context, fx: Effects)
    ensures var t := Composite(Failure, [Constant(Success), Unexplored]);
            Within(o, t, ctx, Fresh(t), fx) && Run(o, t, ctx, Fresh(t), fx).status == Success
  {
    var t := Composite(Failure, [Constant(Success), Unexplored]);
    assert Kids(t)[0] == Constant(Success);
    assert CompositeWithin(o, Failure, t.kids, 0, ctx, Fresh(t), fx);
    assert RunComposite(o, Failure, t.kids, 0, ctx, Fresh(t), fx).status == Success;
  }

  lemma LoopResolves()
    ensures Resolves(LOOP, Subtree("a"), Sub("a", Composite(Failure, [Constant(Success), Unexplored])))
  {
    var (nodes, ts) := ([Succeed, Subtree("a")], [Constant(Success), Unexplored]);
    assert Resolves(LOOP, nodes[0], ts[0]) && Resolves(LOOP, nodes[1], ts[1]);
    assert ResolvesAll(LOOP, nodes, ts);
    assert Resolves(LOOP, TURN, Composite(Failure, ts));
  }

  lemma LoopIsCycle()
    ensures !Acyclic(LOOP) && !Expands(LOOP, Subtree("a"))
  {
    var w := ["a", "a"];
    LoopRefers();
    SubtreeRefers("a");
    hide Refers, Expands;
    assert IsWalk(LOOP, w) && w[0] == w[|w| - 1];
    assert WalkFrom(LOOP, Subtree("a"), w);
    ExpandsIffNoCycle(LOOP, Subtree("a"));
  }

  /** A subtree that refers to itself behind a child that succeeds has no whole expansion, and yet every
      first tick of it stays within one level. */
  lemma GuardedCycle(o: Oracle, ctx: Context, fx: Effects)
    ensures !Acyclic(LOOP) && !Expands(LOOP, Subtree("a"))
    ensures var t := Sub("a", Composite(Failure, [Constant(Success), Unexplored]));
            && Resolves(LOOP, Subtree("a"), t)
            && Within(o, t, ctx, Fresh(t), fx) && Run(o, t, ctx, Fresh(t), fx).status == Success
  {
    LoopIsCycle();
    LoopResolves();
    LoopOnce(o, ctx, fx);
    var t := Sub("a", Composite(Failure, [Constant(Success), Unexplored]));
    hide Expands, Acyclic, Resolves, CompositeWithin, RunComposite;
    assert Fresh(t).kids[0] == Fresh(Kids(t)[0]) && Kids(t)[0] == t.body;
  }
}
