/** What a decorator remembers, for a node anywhere in a tree and over any run of ticks: the memory of
    a node changes only when that node is visited, so two successes of a cooldown are its seconds
    apart, and a run-once repeats its first result without running its child again. */
module TreeHistory {
  import opened Prelude
  import opened BehaviorTree
  import opened TreeSemantics
  import opened NodePaths
  import TreeTiming

  // ---------- which nodes a tick visits ----------

  /** The effects so far when child `j` starts during a tick of `t`, or None if it does not. */
  ghost function Entry(o: Oracle, t: Tree, ctx: Context, m: Mem, fx: Effects, j: nat): Option<Effects>
    requires Fits(t, m) && j < |Kids(t)|
  {
    match t
    case Composite(goOn, kids) => CompositeEntry(o, goOn, kids, IndexOf(m), ctx, m, fx, j)
    case Force(kids) => ForceEntry(o, kids, 0, ctx, m, fx, j)
    case Deco(kind, kid) => if Blocked(kind, ctx, m) then None else Some(fx)
    case _ => Some(fx)
  }

  ghost function CompositeEntry(o: Oracle, goOn: Status, kids: seq<Tree>, i: nat, ctx: Context, m: Mem, fx: Effects, j: nat): Option<Effects>
    requires Fits(Composite(goOn, kids), m) && j < |kids|
    decreases |kids| - i
  {
    if i > j then None
    else if i == j then Some(fx)
    else
      var r := Run(o, kids[i], ctx, m.kids[i], fx);
      if r.status == Running || r.status != goOn then None
      else CompositeEntry(o, goOn, kids, i + 1, ctx, m, r.fx, j)
  }

  ghost function ForceEntry(o: Oracle, kids: seq<Tree>, i: nat, ctx: Context, m: Mem, fx: Effects, j: nat): Option<Effects>
    requires Fits(Force(kids), m) && j < |kids|
    decreases |kids| - i
  {
    if i > j then None
    else if i == j then Some(fx)
    else ForceEntry(o, kids, i + 1, ctx, m, Run(o, kids[i], ctx, m.kids[i], fx).fx, j)
  }

  /** The outcome of the node at `a` during a tick of `t`, or None if the tick does not reach it. */
  ghost function Visit(o: Oracle, t: Tree, ctx: Context, m: Mem, fx: Effects, a: seq<nat>): Option<Out>
    requires IsAddress(t, a) && Fits(t, m)
    decreases |a|
  {
    if a == [] then Some(Run(o, t, ctx, m, fx))
    else
      match Entry(o, t, ctx, m, fx, a[0])
      case None => None
      case Some(fx') => Visit(o, Kids(t)[a[0]], ctx, m.kids[a[0]], fx', a[1..])
  }

  /** What one tick does to the memory of a child: nothing, or one tick of that child. */
  ghost predicate KidStep(o: Oracle, t: Tree, ctx: Context, before: Mem, after: Mem, j: nat, entry: Option<Effects>)
    requires Fits(t, before) && Fits(t, after) && j < |Kids(t)|
  {
    match entry
    case None => after.kids[j] == before.kids[j]
    case Some(fx) => after.kids[j] == Run(o, Kids(t)[j], ctx, before.kids[j], fx).mem
  }

  lemma {:induction false} CompositeKids(o: Oracle, goOn: Status, kids: seq<Tree>, i: nat, ctx: Context,
                                         m: Mem, n: Mem, fx: Effects, j: nat)
    requires Fits(Composite(goOn, kids), m) && Fits(Composite(goOn, kids), n) && j < |kids|
    requires forall k | i <= k < |kids| :: n.kids[k] == m.kids[k]
    ensures var r := RunComposite(o, goOn, kids, i, ctx, n, fx);
            if j < i then r.mem.kids[j] == n.kids[j]
            else KidStep(o, Composite(goOn, kids), ctx, m, r.mem, j, CompositeEntry(o, goOn, kids, i, ctx, m, fx, j))
    decreases |kids| - i
  {
    assert Kids(Composite(goOn, kids)) == kids;
    if i < |kids| {
      var r := Run(o, kids[i], ctx, n.kids[i], fx);
      if r.status != Running && r.status == goOn {
        CompositeKids(o, goOn, kids, i + 1, ctx, m, n.(kids := n.kids[i := r.mem]), r.fx, j);
      }
    }
  }

  lemma {:induction false} ForceKids(o: Oracle, kids: seq<Tree>, i: nat, x: bool, y: bool, ctx: Context,
                                     m: Mem, n: Mem, fx: Effects, j: nat)
    requires Fits(Force(kids), m) && Fits(Force(kids), n) && j < |kids|
    requires forall k | i <= k < |kids| :: n.kids[k] == m.kids[k]
    ensures var r := RunForce(o, kids, i, x, y, ctx, n, fx);
            if j < i then r.mem.kids[j] == n.kids[j]
            else KidStep(o, Force(kids), ctx, m, r.mem, j, ForceEntry(o, kids, i, ctx, m, fx, j))
    decreases |kids| - i
  {
    assert Kids(Force(kids)) == kids;
    if i < |kids| {
      var r := Run(o, kids[i], ctx, n.kids[i], fx);
      ForceKids(o, kids, i + 1, x || r.status == Running, y && r.status != Failure, ctx,
                m, n.(kids := n.kids[i := r.mem]), r.fx, j);
    }
  }

  lemma KidsStep(o: Oracle, t: Tree, ctx: Context, m: Mem, fx: Effects, j: nat)
    requires Fits(t, m) && j < |Kids(t)| && (t.Composite? ==> t.goOn != Running)
    ensures KidStep(o, t, ctx, m, Run(o, t, ctx, m, fx).mem, j, Entry(o, t, ctx, m, fx, j))
  {
    match t
    case Composite(goOn, kids) => CompositeKids(o, goOn, kids, IndexOf(m), ctx, m, m, fx, j);
    case Force(kids) => ForceKids(o, kids, 0, false, true, ctx, m, m, fx, j);
    case Deco(kind, kid) =>
      assert Kids(t) == [kid];
      assert Run(o, t, ctx, m, fx) == RunDeco(o, kind, kid, ctx, m, fx);
      match kind {
        case Repeat(count) => assert RunDeco(o, kind, kid, ctx, m, fx) == RunRepeat(o, count, kid, ctx, m, fx);
        case Cooldown(s) => assert RunDeco(o, kind, kid, ctx, m, fx) == RunCooldown(o, s, kid, ctx, m, fx);
        case RunOnce => assert RunDeco(o, kind, kid, ctx, m, fx) == RunRunOnce(o, kid, ctx, m, fx);
        case Timeout(l) => assert RunDeco(o, kind, kid, ctx, m, fx) == RunTimeout(o, l, kid, ctx, m, fx);
        case _ =>
      }
    case Sub(_, body) => assert Kids(t) == [body];
  }

  /** A node's memory changes only in a tick that visits the node, and then as one tick of that node
      changes it. In particular a tick visits a node at most once. */
  lemma {:induction false} MemoryChangesByVisit(o: Oracle, t: Tree, ctx: Context, m: Mem, fx: Effects, a: seq<nat>)
    requires IsAddress(t, a) && Fits(t, m) && WellFormed(t)
    ensures var v := Visit(o, t, ctx, m, fx, a);
            MemAt(t, Run(o, t, ctx, m, fx).mem, a) == (if v.None? then MemAt(t, m, a) else v.value.mem)
    decreases |a|
  {
    if a != [] {
      KidsStep(o, t, ctx, m, fx, a[0]);
      match Entry(o, t, ctx, m, fx, a[0])
      case None =>
      case Some(fx') => MemoryChangesByVisit(o, Kids(t)[a[0]], ctx, m.kids[a[0]], fx', a[1..]);
    }
  }

  /** A visit is a tick of the visited node from the memory it has. */
  lemma {:induction false} VisitIsTick(o: Oracle, t: Tree, ctx: Context, m: Mem, fx: Effects, a: seq<nat>)
    returns (fx': Effects)
    requires IsAddress(t, a) && Fits(t, m) && Visit(o, t, ctx, m, fx, a).Some?
    ensures Visit(o, t, ctx, m, fx, a).value == Run(o, NodeAt(t, a), ctx, MemAt(t, m, a), fx')
    decreases |a|
  {
    if a == [] {
      fx' := fx;
    } else {
      fx' := VisitIsTick(o, Kids(t)[a[0]], ctx, m.kids[a[0]], Entry(o, t, ctx, m, fx, a[0]).value, a[1..]);
    }
  }

  /** A decorator that answers from memory does not run its child. */
  lemma {:induction false} BlockedChild(o: Oracle, t: Tree, ctx: Context, m: Mem, fx: Effects, a: seq<nat>)
    requires IsAddress(t, a) && Fits(t, m)
    requires NodeAt(t, a).Deco? && Blocked(NodeAt(t, a).kind, ctx, MemAt(t, m, a))
    ensures IsAddress(t, a + [0]) && Visit(o, t, ctx, m, fx, a + [0]).None?
    decreases |a|
  {
    if a == [] {
      assert Kids(t) == [t.kid];
      assert ([] + [0])[1..] == [];
      assert IsAddress(t.kid, []);
    } else {
      assert (a + [0])[1..] == a[1..] + [0];
      match Entry(o, t, ctx, m, fx, a[0])
      case None => BlockedChild(o, Kids(t)[a[0]], ctx, m.kids[a[0]], fx, a[1..]);
      case Some(fx') => BlockedChild(o, Kids(t)[a[0]], ctx, m.kids[a[0]], fx', a[1..]);
    }
  }

  // ---------- whole runs ----------

  /** What happened to the node at `a` on tick `i` of a run. */
  ghost function VisitOn(o: Oracle, t: Tree, ctxs: seq<Context>, m: Mem, log: seq<Call>, a: seq<nat>, i: nat): Option<Out>
    requires IsAddress(t, a) && Fits(t, m) && i < |ctxs|
  {
    var (m', log') := After(o, t, ctxs[..i], m, log);
    Visit(o, t, ctxs[i], m', Effects(log', None), a)
  }

  lemma VisitOnTail(o: Oracle, t: Tree, ctxs: seq<Context>, m: Mem, log: seq<Call>, a: seq<nat>, i: nat)
    requires IsAddress(t, a) && Fits(t, m) && 0 < i < |ctxs|
    ensures var r := Tick(o, t, ctxs[0], m, log);
            VisitOn(o, t, ctxs, m, log, a, i) == VisitOn(o, t, ctxs[1..], r.mem, r.fx.log, a, i - 1)
  {
    assert ctxs[..i][1..] == ctxs[1..][..i - 1];
    assert ctxs[..i][0] == ctxs[0];
  }

  lemma CooldownVisit(o: Oracle, kid: Tree, seconds: real, ctx: Context, m: Mem, fx: Effects)
    requires Fits(Deco(Cooldown(seconds), kid), m)
    ensures var last := m.own.GetOr(DEFAULT_STATE).lastExecution;
            var r := Run(o, Deco(Cooldown(seconds), kid), ctx, m, fx);
            var last' := r.mem.own.GetOr(DEFAULT_STATE).lastExecution;
            if r.status == Success then
              last' == Some(ctx.gameTime) && (last.Some? ==> ctx.gameTime - last.value >= seconds)
            else last' == last
  {
    assert Run(o, Deco(Cooldown(seconds), kid), ctx, m, fx) == RunDeco(o, Cooldown(seconds), kid, ctx, m, fx)
        == RunCooldown(o, seconds, kid, ctx, m, fx);
  }

  /** Once the cooldown at `a` has succeeded at time `since`, it succeeds no sooner than its seconds later. */
  lemma {:induction false} CooldownHolds(o: Oracle, t: Tree, ctxs: seq<Context>, m: Mem, log: seq<Call>, a: seq<nat>,
                                         since: real, j: nat)
    requires IsAddress(t, a) && Fits(t, m) && WellFormed(t) && TimesAscend(ctxs) && j < |ctxs|
    requires NodeAt(t, a).Deco? && NodeAt(t, a).kind.Cooldown?
    requires var last := MemAt(t, m, a).own.GetOr(DEFAULT_STATE).lastExecution;
             last.Some? && since <= last.value <= ctxs[0].gameTime
    requires VisitOn(o, t, ctxs, m, log, a, j).Some? && VisitOn(o, t, ctxs, m, log, a, j).value.status == Success
    ensures ctxs[j].gameTime - since >= NodeAt(t, a).kind.seconds
    decreases j
  {
    hide Visit, MemAt, NodeAt, Run, WellFormed, Fits, IsAddress, Kids;
    var n := NodeAt(t, a);
    var fx := Effects(log, None);
    MemoryChangesByVisit(o, t, ctxs[0], m, fx, a);
    if Visit(o, t, ctxs[0], m, fx, a).Some? {
      var fx' := VisitIsTick(o, t, ctxs[0], m, fx, a);
      CooldownVisit(o, n.kid, n.kind.seconds, ctxs[0], MemAt(t, m, a), fx');
    }
    if j == 0 {
      assert ctxs[..0] == [];
    } else {
      var r := Tick(o, t, ctxs[0], m, log);
      VisitOnTail(o, t, ctxs, m, log, a, j);
      CooldownHolds(o, t, ctxs[1..], r.mem, r.fx.log, a, since, j - 1);
    }
  }

  /** Two successes of one cooldown node are at least its seconds apart. */
  lemma {:induction false} CooldownGap(o: Oracle, t: Tree, ctxs: seq<Context>, m: Mem, log: seq<Call>, a: seq<nat>, i: nat, j: nat)
    requires IsAddress(t, a) && Fits(t, m) && WellFormed(t) && TimesAscend(ctxs) && i < j < |ctxs|
    requires NodeAt(t, a).Deco? && NodeAt(t, a).kind.Cooldown?
    requires VisitOn(o, t, ctxs, m, log, a, i).Some? && VisitOn(o, t, ctxs, m, log, a, i).value.status == Success
    requires VisitOn(o, t, ctxs, m, log, a, j).Some? && VisitOn(o, t, ctxs, m, log, a, j).value.status == Success
    ensures ctxs[j].gameTime - ctxs[i].gameTime >= NodeAt(t, a).kind.seconds
    decreases i
  {
    hide Visit, MemAt, NodeAt, Run, WellFormed, Fits, IsAddress, Kids;
    var n := NodeAt(t, a);
    var r := Tick(o, t, ctxs[0], m, log);
    VisitOnTail(o, t, ctxs, m, log, a, j);
    if i == 0 {
      assert ctxs[..0] == [];
      MemoryChangesByVisit(o, t, ctxs[0], m, Effects(log, None), a);
      var fx' := VisitIsTick(o, t, ctxs[0], m, Effects(log, None), a);
      CooldownVisit(o, n.kid, n.kind.seconds, ctxs[0], MemAt(t, m, a), fx');
      CooldownHolds(o, t, ctxs[1..], r.mem, r.fx.log, a, ctxs[0].gameTime, j - 1);
    } else {
      VisitOnTail(o, t, ctxs, m, log, a, i);
      CooldownGap(o, t, ctxs[1..], r.mem, r.fx.log, a, i - 1, j - 1);
    }
  }

  lemma RunOnceVisit(o: Oracle, kid: Tree, ctx: Context, m: Mem, fx: Effects)
    requires Fits(Deco(RunOnce, kid), m)
    ensures var stored := m.own.GetOr(DEFAULT_STATE).storedResult;
            var r := Run(o, Deco(RunOnce, kid), ctx, m, fx);
            && (stored.Some? ==> r == Out(stored.value, m, fx))
            && (stored.None? && r.status != Running ==> r.mem.own.GetOr(DEFAULT_STATE).storedResult == Some(r.status))
  {
    assert Run(o, Deco(RunOnce, kid), ctx, m, fx) == RunDeco(o, RunOnce, kid, ctx, m, fx)
        == RunRunOnce(o, kid, ctx, m, fx);
  }

  /** Once the run-once at `a` holds a result, every visit repeats it and leaves memory as it is. */
  lemma {:induction false} RunOnceHolds(o: Oracle, t: Tree, ctxs: seq<Context>, m: Mem, log: seq<Call>, a: seq<nat>, s: Status, j: nat)
    requires IsAddress(t, a) && Fits(t, m) && WellFormed(t) && j < |ctxs|
    requires NodeAt(t, a).Deco? && NodeAt(t, a).kind.RunOnce?
    requires MemAt(t, m, a).own.GetOr(DEFAULT_STATE).storedResult == Some(s)
    requires VisitOn(o, t, ctxs, m, log, a, j).Some?
    ensures var v := VisitOn(o, t, ctxs, m, log, a, j).value;
            v.status == s && v.mem == MemAt(t, m, a)
    ensures IsAddress(t, a + [0]) && VisitOn(o, t, ctxs, m, log, a + [0], j).None?
    decreases j
  {
    hide Visit, MemAt, NodeAt, Run, WellFormed, Fits, IsAddress, Kids;
    var n := NodeAt(t, a);
    var fx := Effects(log, None);
    MemoryChangesByVisit(o, t, ctxs[0], m, fx, a);
    if Visit(o, t, ctxs[0], m, fx, a).Some? {
      var fx' := VisitIsTick(o, t, ctxs[0], m, fx, a);
      RunOnceVisit(o, n.kid, ctxs[0], MemAt(t, m, a), fx');
    }
    BlockedChild(o, t, ctxs[0], m, fx, a);
    if j == 0 {
      assert ctxs[..0] == [];
    } else {
      var r := Tick(o, t, ctxs[0], m, log);
      VisitOnTail(o, t, ctxs, m, log, a, j);
      VisitOnTail(o, t, ctxs, m, log, a + [0], j);
      RunOnceHolds(o, t, ctxs[1..], r.mem, r.fx.log, a, s, j - 1);
    }
  }

  /** After its first non-Running result a run-once never runs its child again, and every later visit
      returns that result and leaves memory as it was then. */
  lemma {:induction false} RunOnceRepeats(o: Oracle, t: Tree, ctxs: seq<Context>, m: Mem, log: seq<Call>, a: seq<nat>, i: nat, j: nat)
    requires IsAddress(t, a) && Fits(t, m) && WellFormed(t) && i < j < |ctxs|
    requires NodeAt(t, a).Deco? && NodeAt(t, a).kind.RunOnce?
    requires VisitOn(o, t, ctxs, m, log, a, i).Some? && VisitOn(o, t, ctxs, m, log, a, i).value.status != Running
    requires VisitOn(o, t, ctxs, m, log, a, j).Some?
    ensures var first, later := VisitOn(o, t, ctxs, m, log, a, i).value, VisitOn(o, t, ctxs, m, log, a, j).value;
            later.status == first.status && later.mem == first.mem
    ensures IsAddress(t, a + [0]) && VisitOn(o, t, ctxs, m, log, a + [0], j).None?
    decreases i
  {
    hide Visit, MemAt, NodeAt, Run, WellFormed, Fits, IsAddress, Kids;
    var n := NodeAt(t, a);
    var r := Tick(o, t, ctxs[0], m, log);
    VisitOnTail(o, t, ctxs, m, log, a, j);
    if i == 0 {
      assert ctxs[..0] == [];
      MemoryChangesByVisit(o, t, ctxs[0], m, Effects(log, None), a);
      var fx' := VisitIsTick(o, t, ctxs[0], m, Effects(log, None), a);
      RunOnceVisit(o, n.kid, ctxs[0], MemAt(t, m, a), fx');
      var s := Visit(o, t, ctxs[0], m, Effects(log, None), a).value.status;
      RunOnceHolds(o, t, ctxs[1..], r.mem, r.fx.log, a, s, j - 1);
      VisitOnTail(o, t, ctxs, m, log, a + [0], j);
    } else {
      VisitOnTail(o, t, ctxs, m, log, a, i);
      RunOnceRepeats(o, t, ctxs[1..], r.mem, r.fx.log, a, i - 1, j - 1);
      VisitOnTail(o, t, ctxs, m, log, a + [0], j);
    }
  }

  lemma TimeoutVisit(o: Oracle, kid: Tree, limit: real, ctx: Context, m: Mem, fx: Effects)
    requires Fits(Deco(Timeout(limit), kid), m) && Blocked(Timeout(limit), ctx, m)
    ensures Run(o, Deco(Timeout(limit), kid), ctx, m, fx) == Out(Failure, m, fx)
  {
    assert Run(o, Deco(Timeout(limit), kid), ctx, m, fx) == RunDeco(o, Timeout(limit), kid, ctx, m, fx)
        == RunTimeout(o, limit, kid, ctx, m, fx);
  }

  /** The start time of an expired timeout is never cleared: with time not going backwards, every later
      visit fails and its child never runs again. */
  lemma {:induction false} TimeoutSticks(o: Oracle, t: Tree, ctxs: seq<Context>, m: Mem, log: seq<Call>, a: seq<nat>, j: nat)
    requires IsAddress(t, a) && Fits(t, m) && WellFormed(t) && TimesAscend(ctxs) && j < |ctxs|
    requires NodeAt(t, a).Deco? && NodeAt(t, a).kind.Timeout? && Blocked(NodeAt(t, a).kind, ctxs[0], MemAt(t, m, a))
    ensures VisitOn(o, t, ctxs, m, log, a, j).Some? ==> VisitOn(o, t, ctxs, m, log, a, j).value.status == Failure
    ensures IsAddress(t, a + [0]) && VisitOn(o, t, ctxs, m, log, a + [0], j).None?
    decreases j
  {
    hide Visit, MemAt, NodeAt, Run, WellFormed, Fits, IsAddress, Kids;
    var n := NodeAt(t, a);
    var fx := Effects(log, None);
    MemoryChangesByVisit(o, t, ctxs[0], m, fx, a);
    if Visit(o, t, ctxs[0], m, fx, a).Some? {
      var fx' := VisitIsTick(o, t, ctxs[0], m, fx, a);
      TimeoutVisit(o, n.kid, n.kind.limit, ctxs[0], MemAt(t, m, a), fx');
    }
    BlockedChild(o, t, ctxs[0], m, fx, a);
    if j == 0 {
      assert ctxs[..0] == [];
    } else {
      var r := Tick(o, t, ctxs[0], m, log);
      VisitOnTail(o, t, ctxs, m, log, a, j);
      VisitOnTail(o, t, ctxs, m, log, a + [0], j);
      TimeoutSticks(o, t, ctxs[1..], r.mem, r.fx.log, a, j - 1);
    }
  }

  // ---------- when a decorator runs its child ----------

  /** The memory of the node at `a` before tick `i` of a run. */
  ghost function MemOn(o: Oracle, t: Tree, ctxs: seq<Context>, m: Mem, log: seq<Call>, a: seq<nat>, i: nat): (n: Mem)
    requires IsAddress(t, a) && Fits(t, m) && i <= |ctxs|
    ensures Fits(NodeAt(t, a), n)
  {
    MemAt(t, After(o, t, ctxs[..i], m, log).0, a)
  }

  /** From one tick to the next: only a visit changes the memory, and a visit is a tick of the node. */
  lemma MemOnNext(o: Oracle, t: Tree, ctxs: seq<Context>, m: Mem, log: seq<Call>, a: seq<nat>, i: nat) returns (fx: Effects)
    requires IsAddress(t, a) && Fits(t, m) && WellFormed(t) && i < |ctxs|
    ensures var v := VisitOn(o, t, ctxs, m, log, a, i);
            && MemOn(o, t, ctxs, m, log, a, i + 1) == (if v.None? then MemOn(o, t, ctxs, m, log, a, i) else v.value.mem)
            && (v.Some? ==> v.value == Run(o, NodeAt(t, a), ctxs[i], MemOn(o, t, ctxs, m, log, a, i), fx))
  {
    hide Visit, MemAt, NodeAt, Run, WellFormed, Fits, IsAddress, Kids;
    var (m', log') := After(o, t, ctxs[..i], m, log);
    fx := Effects(log', None);
    RunSplits(o, t, ctxs[..i], [ctxs[i]], m, log);
    assert ctxs[..i] + [ctxs[i]] == ctxs[..i + 1];
    assert After(o, t, [ctxs[i]], m', log').0 == Tick(o, t, ctxs[i], m', log').mem by {
      assert [ctxs[i]][1..] == [];
    }
    MemoryChangesByVisit(o, t, ctxs[i], m', fx, a);
    if Visit(o, t, ctxs[i], m', fx, a).Some? {
      fx := VisitIsTick(o, t, ctxs[i], m', fx, a);
    }
  }

  /** One visit of a decorator, and what it makes of its child in it. */
  lemma {:induction false} ChildTick(o: Oracle, t: Tree, ctx: Context, m: Mem, fx: Effects, a: seq<nat>) returns (fx': Effects)
    requires IsAddress(t, a) && Fits(t, m) && NodeAt(t, a).Deco? && Visit(o, t, ctx, m, fx, a).Some?
    ensures Visit(o, t, ctx, m, fx, a).value == Run(o, NodeAt(t, a), ctx, MemAt(t, m, a), fx')
    ensures IsAddress(t, a + [0])
    ensures Visit(o, t, ctx, m, fx, a + [0]) ==
              if Blocked(NodeAt(t, a).kind, ctx, MemAt(t, m, a)) then None
              else Some(Run(o, NodeAt(t, a).kid, ctx, MemAt(t, m, a).kids[0], fx'))
    decreases |a|
  {
    if a == [] {
      fx' := fx;
      assert Kids(t) == [t.kid];
      assert ([] + [0])[1..] == [];
      assert IsAddress(t.kid, []);
    } else {
      assert (a + [0])[1..] == a[1..] + [0];
      fx' := ChildTick(o, Kids(t)[a[0]], ctx, m.kids[a[0]], Entry(o, t, ctx, m, fx, a[0]).value, a[1..]);
    }
  }

  /** A decorator that is reached runs its child exactly when it does not answer from memory. */
  lemma ChildVisited(o: Oracle, t: Tree, ctx: Context, m: Mem, fx: Effects, a: seq<nat>)
    requires IsAddress(t, a) && Fits(t, m) && NodeAt(t, a).Deco? && Visit(o, t, ctx, m, fx, a).Some?
    ensures IsAddress(t, a + [0])
    ensures Visit(o, t, ctx, m, fx, a + [0]).Some? <==> !Blocked(NodeAt(t, a).kind, ctx, MemAt(t, m, a))
  {
    var _ := ChildTick(o, t, ctx, m, fx, a);
    hide *;
  }

  lemma ChildVisitedOn(o: Oracle, t: Tree, ctxs: seq<Context>, m: Mem, log: seq<Call>, a: seq<nat>, i: nat)
    requires IsAddress(t, a) && Fits(t, m) && i < |ctxs| && NodeAt(t, a).Deco? && VisitOn(o, t, ctxs, m, log, a, i).Some?
    ensures IsAddress(t, a + [0])
    ensures VisitOn(o, t, ctxs, m, log, a + [0], i).Some? <==> !Blocked(NodeAt(t, a).kind, ctxs[i], MemOn(o, t, ctxs, m, log, a, i))
  {
    hide Visit, MemAt, NodeAt, Fits, IsAddress, Blocked;
    var (m', log') := After(o, t, ctxs[..i], m, log);
    ChildVisited(o, t, ctxs[i], m', Effects(log', None), a);
  }

  ghost predicate SucceededOn(o: Oracle, t: Tree, ctxs: seq<Context>, m: Mem, log: seq<Call>, a: seq<nat>, i: nat)
    requires IsAddress(t, a) && Fits(t, m) && i < |ctxs|
  {
    VisitOn(o, t, ctxs, m, log, a, i).Some? && VisitOn(o, t, ctxs, m, log, a, i).value.status == Success
  }

  /** A cooldown that has run its child at one time is blocked at a later one exactly when the child
      succeeded and its seconds have not passed. A Failure or Running result does not start it. */
  lemma CooldownBlocks(o: Oracle, seconds: real, kid: Tree, c: Context, m: Mem, fx: Effects, d: Context)
    requires Fits(Deco(Cooldown(seconds), kid), m) && !Blocked(Cooldown(seconds), c, m) && c.gameTime <= d.gameTime
    ensures var r := Run(o, Deco(Cooldown(seconds), kid), c, m, fx);
            Blocked(Cooldown(seconds), d, r.mem) <==> r.status == Success && d.gameTime - c.gameTime < seconds
  {
    assert Run(o, Deco(Cooldown(seconds), kid), c, m, fx) == RunDeco(o, Cooldown(seconds), kid, c, m, fx)
        == RunCooldown(o, seconds, kid, c, m, fx);
  }

  /** What a cooldown remembers is the time of the latest success. */
  lemma {:induction false} CooldownMemory(o: Oracle, t: Tree, ctxs: seq<Context>, m: Mem, log: seq<Call>, a: seq<nat>, i: nat)
    requires IsAddress(t, a) && Fits(t, m) && WellFormed(t) && TimesAscend(ctxs) && i <= |ctxs|
    requires NodeAt(t, a).Deco? && NodeAt(t, a).kind.Cooldown?
    requires MemAt(t, m, a).own.GetOr(DEFAULT_STATE).lastExecution.None?
    ensures var last := MemOn(o, t, ctxs, m, log, a, i).own.GetOr(DEFAULT_STATE).lastExecution;
            && (forall k | 0 <= k < i && SucceededOn(o, t, ctxs, m, log, a, k) :: last.Some? && ctxs[k].gameTime <= last.value)
            && (last.Some? ==> exists k :: 0 <= k < i && SucceededOn(o, t, ctxs, m, log, a, k) && ctxs[k].gameTime == last.value)
    decreases i
  {
    hide VisitOn, MemAt, NodeAt, Run, WellFormed, Fits, IsAddress, Kids;
    if i == 0 {
      assert ctxs[..0] == [];
    } else {
      CooldownMemory(o, t, ctxs, m, log, a, i - 1);
      var fx := MemOnNext(o, t, ctxs, m, log, a, i - 1);
      hide MemOn;
      var n := NodeAt(t, a);
      CooldownVisit(o, n.kid, n.kind.seconds, ctxs[i - 1], MemOn(o, t, ctxs, m, log, a, i - 1), fx);
      assert n == Deco(Cooldown(n.kind.seconds), n.kid);
    }
  }

  /** Exactly when a cooldown runs its child: when no success of the node is less than its seconds back. */
  lemma CooldownRuns(o: Oracle, t: Tree, ctxs: seq<Context>, m: Mem, log: seq<Call>, a: seq<nat>, j: nat)
    requires IsAddress(t, a) && Fits(t, m) && WellFormed(t) && TimesAscend(ctxs) && j < |ctxs|
    requires NodeAt(t, a).Deco? && NodeAt(t, a).kind.Cooldown?
    requires MemAt(t, m, a).own.GetOr(DEFAULT_STATE).lastExecution.None?
    requires VisitOn(o, t, ctxs, m, log, a, j).Some?
    ensures IsAddress(t, a + [0])
    ensures VisitOn(o, t, ctxs, m, log, a + [0], j).Some?
            <==> forall i | 0 <= i < j && SucceededOn(o, t, ctxs, m, log, a, i) ::
                   ctxs[j].gameTime - ctxs[i].gameTime >= NodeAt(t, a).kind.seconds
  {
    hide VisitOn, MemOn, MemAt, NodeAt, WellFormed, Fits, IsAddress, SucceededOn, TimesAscend;
    ChildVisitedOn(o, t, ctxs, m, log, a, j);
    CooldownMemory(o, t, ctxs, m, log, a, j);
  }

  /** So two executions may be any time apart: here the child runs on both of two ticks less than five
      seconds apart. */
  lemma ExecutionsCloserThanCooldown(o: Oracle, c: Context, d: Context, log: seq<Call>)
    requires 0.0 <= d.gameTime - c.gameTime < 5.0
    ensures var t := Deco(Cooldown(5.0), Constant(Failure));
            && IsAddress(t, [0])
            && VisitOn(o, t, [c, d], Fresh(t), log, [0], 0).Some? && VisitOn(o, t, [c, d], Fresh(t), log, [0], 1).Some?
  {
    var t := Deco(Cooldown(5.0), Constant(Failure));
    var m := Fresh(t);
    assert Kids(t) == [Constant(Failure)] && IsAddress(Kids(t)[0], []) && [0][1..] == [];
    assert [c, d][..0] == [] && [c, d][..1] == [c] && [c][1..] == [];
    var r := Tick(o, t, c, m, log);
    assert r == RunDeco(o, Cooldown(5.0), Constant(Failure), c, m, Effects(log, None))
        == RunCooldown(o, 5.0, Constant(Failure), c, m, Effects(log, None));
    assert After(o, t, [c], m, log) == (r.mem, r.fx.log);
    CooldownBlocks(o, 5.0, Constant(Failure), c, m, Effects(log, None), d);
    ChildVisited(o, t, c, m, Effects(log, None), []);
    ChildVisited(o, t, d, r.mem, Effects(r.fx.log, None), []);
    assert [] + [0] == [0];
  }

  /** A timeout that completes clears its start time exactly when it has not expired. */
  lemma TimeoutClears(o: Oracle, limit: real, kid: Tree, c: Context, m: Mem, fx: Effects)
    requires Fits(Deco(Timeout(limit), kid), m)
    ensures var r := Run(o, Deco(Timeout(limit), kid), c, m, fx);
            r.status != Running ==> (r.mem.start.None? <==> !Blocked(Timeout(limit), c, m))
  {
    assert Run(o, Deco(Timeout(limit), kid), c, m, fx) == RunDeco(o, Timeout(limit), kid, c, m, fx)
        == RunTimeout(o, limit, kid, c, m, fx);
  }

  lemma {:induction false} MemOnUnvisited(o: Oracle, t: Tree, ctxs: seq<Context>, m: Mem, log: seq<Call>, a: seq<nat>, i: nat, j: nat)
    requires IsAddress(t, a) && Fits(t, m) && WellFormed(t) && i <= j <= |ctxs|
    requires forall k | i <= k < j :: VisitOn(o, t, ctxs, m, log, a, k).None?
    ensures MemOn(o, t, ctxs, m, log, a, j) == MemOn(o, t, ctxs, m, log, a, i)
    decreases j - i
  {
    hide VisitOn, MemOn, WellFormed, Fits, IsAddress;
    if i < j {
      MemOnUnvisited(o, t, ctxs, m, log, a, i, j - 1);
      var fx := MemOnNext(o, t, ctxs, m, log, a, j - 1);
    }
  }

  /** Exactly when a timeout works again after it has completed: on the next visit it runs its child if and
      only if it ran its child on the visit on which it completed, that is, unless it had expired. */
  lemma TimeoutRecovers(o: Oracle, t: Tree, ctxs: seq<Context>, m: Mem, log: seq<Call>, a: seq<nat>, i: nat, j: nat)
    requires IsAddress(t, a) && Fits(t, m) && WellFormed(t) && TimesAscend(ctxs) && i < j < |ctxs|
    requires NodeAt(t, a).Deco? && NodeAt(t, a).kind.Timeout?
    requires VisitOn(o, t, ctxs, m, log, a, i).Some? && VisitOn(o, t, ctxs, m, log, a, i).value.status != Running
    requires VisitOn(o, t, ctxs, m, log, a, j).Some? && forall k | i < k < j :: VisitOn(o, t, ctxs, m, log, a, k).None?
    ensures IsAddress(t, a + [0])
    ensures VisitOn(o, t, ctxs, m, log, a + [0], j).Some? <==> VisitOn(o, t, ctxs, m, log, a + [0], i).Some?
  {
    hide VisitOn, MemOn, MemAt, NodeAt, Run, WellFormed, Fits, IsAddress;
    var n := NodeAt(t, a);
    var before := MemOn(o, t, ctxs, m, log, a, i);
    var fx := MemOnNext(o, t, ctxs, m, log, a, i);
    MemOnUnvisited(o, t, ctxs, m, log, a, i + 1, j);
    ChildVisitedOn(o, t, ctxs, m, log, a, i);
    ChildVisitedOn(o, t, ctxs, m, log, a, j);
    assert n == Deco(Timeout(n.kind.limit), n.kid);
    TimeoutClears(o, n.kind.limit, n.kid, ctxs[i], before, fx);
    if Blocked(n.kind, ctxs[i], before) {
      TimeoutVisit(o, n.kid, n.kind.limit, ctxs[i], before, fx);
    }
  }

  // ---------- how often a repeat runs its child ----------

  /** A node that is not reached does not reach its child. */
  lemma {:induction false} ChildUnreached(o: Oracle, t: Tree, ctx: Context, m: Mem, fx: Effects, a: seq<nat>)
    requires IsAddress(t, a) && IsAddress(t, a + [0]) && Fits(t, m) && Visit(o, t, ctx, m, fx, a).None?
    ensures Visit(o, t, ctx, m, fx, a + [0]).None?
    decreases |a|
  {
    assert (a + [0])[1..] == a[1..] + [0];
    match Entry(o, t, ctx, m, fx, a[0])
    case None =>
    case Some(fx') => ChildUnreached(o, Kids(t)[a[0]], ctx, m.kids[a[0]], fx', a[1..]);
  }

  ghost predicate EndedOn(o: Oracle, t: Tree, ctxs: seq<Context>, m: Mem, log: seq<Call>, a: seq<nat>, i: nat)
    requires IsAddress(t, a) && Fits(t, m) && i < |ctxs|
  {
    VisitOn(o, t, ctxs, m, log, a, i).Some? && VisitOn(o, t, ctxs, m, log, a, i).value.status != Running
  }

  /** The successes of the child of the node at `a` before tick `j`, since that node last completed. */
  ghost function Successes(o: Oracle, t: Tree, ctxs: seq<Context>, m: Mem, log: seq<Call>, a: seq<nat>, j: nat): nat
    requires IsAddress(t, a) && IsAddress(t, a + [0]) && Fits(t, m) && j <= |ctxs|
  {
    if j == 0 || EndedOn(o, t, ctxs, m, log, a, j - 1) then 0
    else Successes(o, t, ctxs, m, log, a, j - 1) + if SucceededOn(o, t, ctxs, m, log, a + [0], j - 1) then 1 else 0
  }

  /** The count a repeat remembers, which is never zero when there is one. */
  ghost predicate Remembers(own: Option<NodeState>, successes: nat) {
    if successes == 0 then own.None? else own.Some? && own.value.repeatCount == successes
  }

  /** A visit of a repeat: what it returns and remembers, by what its child did. */
  lemma RepeatVisit(o: Oracle, count: Option<nat>, kid: Tree, ctx: Context, m: Mem, fx: Effects, successes: nat)
    requires Fits(Deco(Repeat(count), kid), m) && Remembers(m.own, successes)
    ensures Fits(kid, m.kids[0])
    ensures var (r, k) := (Run(o, Deco(Repeat(count), kid), ctx, m, fx), Run(o, kid, ctx, m.kids[0], fx).status);
            && (Blocked(Repeat(count), ctx, m) <==> count.Some? && successes >= TreeTiming.Times(count.value))
            && if Blocked(Repeat(count), ctx, m) then r.status == Success && r.mem.own.None?
               else
                 && r.status == (if k == Failure then Failure else Running)
                 && Remembers(r.mem.own, if k == Failure then 0 else if k == Success then successes + 1 else successes)
  {
    assert Kids(Deco(Repeat(count), kid)) == [kid];
    assert Run(o, Deco(Repeat(count), kid), ctx, m, fx) == RunDeco(o, Repeat(count), kid, ctx, m, fx) == RunRepeat(o, count, kid, ctx, m, fx);
  }

  /** On one tick of a run: a decorator, and what it makes of its child. */
  lemma ChildOn(o: Oracle, t: Tree, ctxs: seq<Context>, m: Mem, log: seq<Call>, a: seq<nat>, j: nat) returns (fx: Effects)
    requires IsAddress(t, a) && IsAddress(t, a + [0]) && Fits(t, m) && j < |ctxs| && NodeAt(t, a).Deco?
    ensures var (n, before) := (NodeAt(t, a), MemOn(o, t, ctxs, m, log, a, j));
            var (v, w) := (VisitOn(o, t, ctxs, m, log, a, j), VisitOn(o, t, ctxs, m, log, a + [0], j));
            if v.None? then w.None?
            else
              && v.value == Run(o, n, ctxs[j], before, fx)
              && w == if Blocked(n.kind, ctxs[j], before) then None else Some(Run(o, n.kid, ctxs[j], before.kids[0], fx))
  {
    hide Visit, MemAt, NodeAt, Run, Fits, IsAddress, Blocked;
    var (m', log') := After(o, t, ctxs[..j], m, log);
    fx := Effects(log', None);
    if Visit(o, t, ctxs[j], m', fx, a).Some? {
      fx := ChildTick(o, t, ctxs[j], m', fx, a);
    } else {
      ChildUnreached(o, t, ctxs[j], m', fx, a);
    }
  }

  /** The count a repeat remembers before a tick is that of its child's successes, and not above what is asked for. */
  ghost predicate RepeatCounts(o: Oracle, t: Tree, ctxs: seq<Context>, m: Mem, log: seq<Call>, a: seq<nat>, j: nat)
    requires IsAddress(t, a) && IsAddress(t, a + [0]) && Fits(t, m) && j <= |ctxs| && NodeAt(t, a).Deco? && NodeAt(t, a).kind.Repeat?
  {
    var (count, successes) := (NodeAt(t, a).kind.count, Successes(o, t, ctxs, m, log, a, j));
    && Remembers(MemOn(o, t, ctxs, m, log, a, j).own, successes)
    && (count.Some? ==> successes <= TreeTiming.Times(count.value))
  }

  /** One tick of a repeat. It succeeds exactly when its child has succeeded as often as asked for, and
      fails exactly when the child does. */
  lemma RepeatOn(o: Oracle, t: Tree, ctxs: seq<Context>, m: Mem, log: seq<Call>, a: seq<nat>, j: nat)
    requires IsAddress(t, a) && IsAddress(t, a + [0]) && Fits(t, m) && WellFormed(t) && j < |ctxs|
    requires NodeAt(t, a).Deco? && NodeAt(t, a).kind.Repeat? && RepeatCounts(o, t, ctxs, m, log, a, j)
    ensures RepeatCounts(o, t, ctxs, m, log, a, j + 1)
    ensures var (count, v, w) := (NodeAt(t, a).kind.count, VisitOn(o, t, ctxs, m, log, a, j), VisitOn(o, t, ctxs, m, log, a + [0], j));
            v.Some? ==>
              && (v.value.status == Success <==> count.Some? && Successes(o, t, ctxs, m, log, a, j) == TreeTiming.Times(count.value))
              && (v.value.status == Failure <==> w.Some? && w.value.status == Failure)
              && (v.value.status == Success ==> w.None?)
  {
    hide MemAt, NodeAt, Run, WellFormed, Fits, IsAddress, Visit, MemOn, VisitOn, Blocked;
    var (n, before) := (NodeAt(t, a), MemOn(o, t, ctxs, m, log, a, j));
    var fx := ChildOn(o, t, ctxs, m, log, a, j);
    var _ := MemOnNext(o, t, ctxs, m, log, a, j);
    assert n == Deco(Repeat(n.kind.count), n.kid);
    RepeatVisit(o, n.kind.count, n.kid, ctxs[j], before, fx, Successes(o, t, ctxs, m, log, a, j));
  }

  lemma {:induction false} RepeatMemory(o: Oracle, t: Tree, ctxs: seq<Context>, m: Mem, log: seq<Call>, a: seq<nat>, j: nat)
    requires IsAddress(t, a) && IsAddress(t, a + [0]) && Fits(t, m) && WellFormed(t) && j <= |ctxs|
    requires NodeAt(t, a).Deco? && NodeAt(t, a).kind.Repeat? && MemAt(t, m, a).own.None?
    ensures RepeatCounts(o, t, ctxs, m, log, a, j)
    decreases j
  {
    hide MemAt, NodeAt, WellFormed, Fits, IsAddress, VisitOn;
    if j == 0 {
      assert ctxs[..0] == [];
    } else {
      hide RepeatCounts;
      RepeatMemory(o, t, ctxs, m, log, a, j - 1);
      RepeatOn(o, t, ctxs, m, log, a, j - 1);
    }
  }

  /** Exactly how often a repeat runs its child, wherever it is and whatever the child is: a visit succeeds
      if and only if the child has succeeded as often as asked for since the repeat last completed (once, if
      asked for no times; never, if not asked for a number), and such a visit does not run the child again.
      It fails exactly when the child does. */
  lemma RepeatSucceeds(o: Oracle, t: Tree, ctxs: seq<Context>, m: Mem, log: seq<Call>, a: seq<nat>, j: nat)
    requires IsAddress(t, a) && Fits(t, m) && WellFormed(t) && j < |ctxs|
    requires NodeAt(t, a).Deco? && NodeAt(t, a).kind.Repeat? && MemAt(t, m, a).own.None?
    requires VisitOn(o, t, ctxs, m, log, a, j).Some?
    ensures IsAddress(t, a + [0])
    ensures var (count, v, w) := (NodeAt(t, a).kind.count, VisitOn(o, t, ctxs, m, log, a, j).value, VisitOn(o, t, ctxs, m, log, a + [0], j));
            && (v.status == Success <==> count.Some? && Successes(o, t, ctxs, m, log, a, j) == TreeTiming.Times(count.value))
            && (v.status == Success ==> w.None?)
            && (v.status == Failure <==> w.Some? && w.value.status == Failure)
  {
    hide MemAt, NodeAt, WellFormed, Fits, IsAddress, VisitOn, RepeatCounts, Successes;
    ChildVisitedOn(o, t, ctxs, m, log, a, j);
    RepeatMemory(o, t, ctxs, m, log, a, j);
    RepeatOn(o, t, ctxs, m, log, a, j);
  }

  // ---------- how long a timeout runs its child ----------

  /** The child ran on tick `i`, and has not ended before tick `j`. */
  ghost predicate StillRunning(o: Oracle, t: Tree, ctxs: seq<Context>, m: Mem, log: seq<Call>, a: seq<nat>, i: nat, j: nat)
    requires IsAddress(t, a) && IsAddress(t, a + [0]) && Fits(t, m) && i < j <= |ctxs|
  {
    && VisitOn(o, t, ctxs, m, log, a + [0], i).Some?
    && forall k | i <= k < j :: VisitOn(o, t, ctxs, m, log, a + [0], k).Some? ==> VisitOn(o, t, ctxs, m, log, a + [0], k).value.status == Running
  }

  /** One tick of a timeout: what it remembers, by what its child does. */
  lemma TimeoutTick(o: Oracle, limit: real, kid: Tree, ctx: Context, m: Mem, fx: Effects)
    requires Fits(Deco(Timeout(limit), kid), m)
    ensures Fits(kid, m.kids[0])
    ensures var begun := m.start.GetOr(DEFAULT_STATE).lastExecution;
            var r := Run(o, Deco(Timeout(limit), kid), ctx, m, fx);
            var begun' := r.mem.start.GetOr(DEFAULT_STATE).lastExecution;
            && (Blocked(Timeout(limit), ctx, m) <==> begun.Some? && ctx.gameTime - begun.value > limit)
            && begun' == if Blocked(Timeout(limit), ctx, m) then begun
                         else if Run(o, kid, ctx, m.kids[0], fx).status != Running then None
                         else if begun.Some? then begun else Some(ctx.gameTime)
  {
    assert Kids(Deco(Timeout(limit), kid)) == [kid];
    assert Run(o, Deco(Timeout(limit), kid), ctx, m, fx) == RunDeco(o, Timeout(limit), kid, ctx, m, fx)
        == RunTimeout(o, limit, kid, ctx, m, fx);
  }

  /** What a timeout remembers is the first of the ticks since which its child has been running. */
  ghost predicate Remembered(o: Oracle, t: Tree, ctxs: seq<Context>, m: Mem, log: seq<Call>, a: seq<nat>, j: nat)
    requires IsAddress(t, a) && IsAddress(t, a + [0]) && Fits(t, m) && j <= |ctxs|
  {
    var begun := MemOn(o, t, ctxs, m, log, a, j).start.GetOr(DEFAULT_STATE).lastExecution;
    && (forall i: nat | i < j && StillRunning(o, t, ctxs, m, log, a, i, j) :: begun.Some? && begun.value <= ctxs[i].gameTime)
    && (begun.Some? ==> exists i: nat :: i < j && StillRunning(o, t, ctxs, m, log, a, i, j) && ctxs[i].gameTime == begun.value)
  }

  lemma StillRunningNext(o: Oracle, t: Tree, ctxs: seq<Context>, m: Mem, log: seq<Call>, a: seq<nat>, i: nat, j: nat)
    requires IsAddress(t, a) && IsAddress(t, a + [0]) && Fits(t, m) && i <= j < |ctxs|
    ensures var w := VisitOn(o, t, ctxs, m, log, a + [0], j);
            StillRunning(o, t, ctxs, m, log, a, i, j + 1) <==>
              (if i == j then w.Some? else StillRunning(o, t, ctxs, m, log, a, i, j)) && (w.Some? ==> w.value.status == Running)
  {
    hide VisitOn, Fits, IsAddress;
  }

  lemma TimeoutOn(o: Oracle, t: Tree, ctxs: seq<Context>, m: Mem, log: seq<Call>, a: seq<nat>, j: nat)
    requires IsAddress(t, a) && IsAddress(t, a + [0]) && Fits(t, m) && WellFormed(t) && TimesAscend(ctxs) && j < |ctxs|
    requires NodeAt(t, a).Deco? && NodeAt(t, a).kind.Timeout? && Remembered(o, t, ctxs, m, log, a, j)
    ensures Remembered(o, t, ctxs, m, log, a, j + 1)
  {
    hide MemAt, NodeAt, Run, WellFormed, Fits, IsAddress, Visit, MemOn, VisitOn, Blocked, StillRunning;
    var (n, before, next) := (NodeAt(t, a), MemOn(o, t, ctxs, m, log, a, j), j + 1);
    var fx := ChildOn(o, t, ctxs, m, log, a, j);
    var _ := MemOnNext(o, t, ctxs, m, log, a, j);
    assert n == Deco(Timeout(n.kind.limit), n.kid);
    TimeoutTick(o, n.kind.limit, n.kid, ctxs[j], before, fx);
    var begun := before.start.GetOr(DEFAULT_STATE).lastExecution;
    var begun' := MemOn(o, t, ctxs, m, log, a, next).start.GetOr(DEFAULT_STATE).lastExecution;
    forall i: nat | i < next && StillRunning(o, t, ctxs, m, log, a, i, next) ensures begun'.Some? && begun'.value <= ctxs[i].gameTime {
      StillRunningNext(o, t, ctxs, m, log, a, i, j);
      assert i < j ==> StillRunning(o, t, ctxs, m, log, a, i, j);
    }
    if begun'.Some? {
      var i: nat := j;
      if begun.Some? {
        i :| 0 <= i < j && StillRunning(o, t, ctxs, m, log, a, i, j) && ctxs[i].gameTime == begun.value;
      }
      StillRunningNext(o, t, ctxs, m, log, a, i, j);
      assert StillRunning(o, t, ctxs, m, log, a, i, next);
    }
  }

  lemma {:induction false} TimeoutMemory(o: Oracle, t: Tree, ctxs: seq<Context>, m: Mem, log: seq<Call>, a: seq<nat>, j: nat)
    requires IsAddress(t, a) && IsAddress(t, a + [0]) && Fits(t, m) && WellFormed(t) && TimesAscend(ctxs) && j <= |ctxs|
    requires NodeAt(t, a).Deco? && NodeAt(t, a).kind.Timeout? && MemAt(t, m, a).start.None?
    ensures Remembered(o, t, ctxs, m, log, a, j)
    decreases j
  {
    hide MemAt, NodeAt, WellFormed, Fits, IsAddress, VisitOn;
    if j == 0 {
      assert ctxs[..0] == [];
    } else {
      hide Remembered;
      TimeoutMemory(o, t, ctxs, m, log, a, j - 1);
      TimeoutOn(o, t, ctxs, m, log, a, j - 1);
    }
  }

  /** Exactly when a timeout runs its child: unless more than its seconds have passed since some tick from
      which on the child has been running, that is, has been run and not ended. */
  lemma TimeoutRuns(o: Oracle, t: Tree, ctxs: seq<Context>, m: Mem, log: seq<Call>, a: seq<nat>, j: nat)
    requires IsAddress(t, a) && Fits(t, m) && WellFormed(t) && TimesAscend(ctxs) && j < |ctxs|
    requires NodeAt(t, a).Deco? && NodeAt(t, a).kind.Timeout? && MemAt(t, m, a).start.None?
    requires VisitOn(o, t, ctxs, m, log, a, j).Some?
    ensures IsAddress(t, a + [0])
    ensures VisitOn(o, t, ctxs, m, log, a + [0], j).Some?
            <==> forall i: nat | i < j && StillRunning(o, t, ctxs, m, log, a, i, j) ::
                   ctxs[j].gameTime - ctxs[i].gameTime <= NodeAt(t, a).kind.limit
  {
    hide VisitOn, MemOn, MemAt, NodeAt, WellFormed, Fits, IsAddress, StillRunning, TimesAscend;
    ChildVisitedOn(o, t, ctxs, m, log, a, j);
    TimeoutMemory(o, t, ctxs, m, log, a, j);
  }
}
