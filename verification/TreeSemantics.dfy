/** Reference semantics of the runner: one tick of a tree whose subtrees are expanded in place,
    over a memory that has the shape of the tree. There are no paths here; NodePaths and
    BehaviorRunner show that the string-keyed runner computes exactly this. */
module TreeSemantics {
  import opened Prelude
  import opened BehaviorTree
  import Utility

  /** A node with subtree references replaced by what they refer to, some of them left `Unexplored`. A
      sequence goes on while its children succeed, a selector while they fail; each ends with that status. */
  datatype Tree =
    | Composite(goOn: Status, kids: seq<Tree>)
    | Force(kids: seq<Tree>)
    | Deco(kind: DecoratorKind, kid: Tree)
    | ActionLeaf(name: string)
    | ConditionLeaf(name: string)
    | UtilityLeaf(options: seq<UtilityOption>)
    | Delay(ticks: nat)
    | Constant(status: Status)
    | Sub(name: string, body: Tree)
    | Unexplored

  function Kids(t: Tree): seq<Tree> {
    match t
    case Composite(_, kids) => kids
    case Force(kids) => kids
    case Deco(_, kid) => [kid]
    case Sub(_, body) => [body]
    case _ => []
  }

  /** The memory of a node (`own`), the start time kept beside a timeout (`start`), and the
      memories of its children. */
  datatype Mem = Mem(own: Option<NodeState>, start: Option<NodeState>, kids: seq<Mem>)

  ghost predicate Fits(t: Tree, m: Mem)
    decreases t
  {
    && |m.kids| == |Kids(t)|
    && forall i | 0 <= i < |m.kids| :: Fits(Kids(t)[i], m.kids[i])
  }

  function Fresh(t: Tree): (m: Mem)
    ensures Fits(t, m)
    decreases t
  {
    Mem(None, None, seq(|Kids(t)|, i requires 0 <= i < |Kids(t)| => Fresh(Kids(t)[i])))
  }

  datatype Out = Out(status: Status, mem: Mem, fx: Effects)

  function Negate(s: Status): Status {
    match s
    case Success => Failure
    case Failure => Success
    case Running => Running
  }

  function RunAction(o: Oracle, name: string, ctx: Context, fx: Effects): (Status, Effects) {
    if !ctx.scriptFound then (Failure, fx)
    else
      var log := fx.log + [ActionCall(name, ctx)];
      (o(log).status, Effects(log, Merge(fx.pending, o(log).data)))
  }

  function RunCondition(o: Oracle, name: string, ctx: Context, fx: Effects): (Status, Effects) {
    if !ctx.scriptFound then (Failure, fx)
    else
      var log := fx.log + [ConditionCall(name, ctx)];
      (if o(log).holds then Success else Failure, fx.(log := log))
  }

  function RunUtility(o: Oracle, options: seq<UtilityOption>, ctx: Context, fx: Effects): (Status, Effects) {
    if options == [] || !ctx.scriptFound then (Failure, fx)
    else
      var (scores, log) := Utility.ScoreAll(o, options, ctx, fx.log);
      match Utility.Best(scores)
      case None => (Failure, fx.(log := log))
      case Some(i) => RunAction(o, scores[i].option.action, ctx, fx.(log := log))
  }

  function RunDelay(ticks: nat, m: Mem): (Status, Mem) {
    var state := m.own.GetOr(DEFAULT_STATE);
    var waited := state.ticksWaited + 1;
    if waited >= ticks then (Success, m.(own := None))
    else (Running, m.(own := Some(state.(ticksWaited := waited))))
  }

  function IndexOf(m: Mem): nat {
    m.own.GetOr(DEFAULT_STATE).childIndex
  }

  /** One tick of `t`. */
  function Run(o: Oracle, t: Tree, ctx: Context, m: Mem, fx: Effects): (r: Out)
    requires Fits(t, m)
    ensures Fits(t, r.mem)
    decreases t, 0
  {
    match t
    case Composite(goOn, kids) => RunComposite(o, goOn, kids, IndexOf(m), ctx, m, fx)
    case Force(kids) => RunForce(o, kids, 0, false, true, ctx, m, fx)
    case Deco(kind, kid) => RunDeco(o, kind, kid, ctx, m, fx)
    case ActionLeaf(name) => var (s, fx') := RunAction(o, name, ctx, fx); Out(s, m, fx')
    case ConditionLeaf(name) => var (s, fx') := RunCondition(o, name, ctx, fx); Out(s, m, fx')
    case UtilityLeaf(options) => var (s, fx') := RunUtility(o, options, ctx, fx); Out(s, m, fx')
    case Delay(ticks) => var (s, m') := RunDelay(ticks, m); Out(s, m', fx)
    case Constant(status) => Out(status, m, fx)
    case Unexplored => Out(Failure, m, fx)
    case Sub(_, body) => var r := Run(o, body, ctx, m.kids[0], fx); r.(mem := m.(kids := [r.mem]))
  }

  /** A sequence or selector from child `i` on. */
  function RunComposite(o: Oracle, goOn: Status, kids: seq<Tree>, i: nat, ctx: Context, m: Mem, fx: Effects): (r: Out)
    requires Fits(Composite(goOn, kids), m)
    ensures Fits(Composite(goOn, kids), r.mem)
    decreases kids, |kids| - i
  {
    if i >= |kids| then Out(goOn, m.(own := None), fx)
    else
      var r := Run(o, kids[i], ctx, m.kids[i], fx);
      var m' := m.(kids := m.kids[i := r.mem]);
      if r.status == Running then
        Out(Running, m'.(own := Some(m.own.GetOr(DEFAULT_STATE).(childIndex := i))), r.fx)
      else if r.status != goOn then Out(r.status, m'.(own := None), r.fx)
      else RunComposite(o, goOn, kids, i + 1, ctx, m', r.fx)
  }

  /** A force sequence from child `i` on, with what was seen among the earlier children. */
  function RunForce(o: Oracle, kids: seq<Tree>, i: nat, anyRunning: bool, allSuccess: bool,
                    ctx: Context, m: Mem, fx: Effects): (r: Out)
    requires Fits(Force(kids), m)
    ensures Fits(Force(kids), r.mem)
    decreases kids, |kids| - i
  {
    if i >= |kids| then
      Out(if anyRunning then Running else if allSuccess then Success else Failure, m, fx)
    else
      var r := Run(o, kids[i], ctx, m.kids[i], fx);
      RunForce(o, kids, i + 1, anyRunning || r.status == Running, allSuccess && r.status != Failure,
               ctx, m.(kids := m.kids[i := r.mem]), r.fx)
  }

  function RunDeco(o: Oracle, kind: DecoratorKind, kid: Tree, ctx: Context, m: Mem, fx: Effects): (r: Out)
    requires Fits(Deco(kind, kid), m)
    ensures Fits(Deco(kind, kid), r.mem)
    decreases kid, 2
  {
    match kind
    case Repeat(count) => RunRepeat(o, count, kid, ctx, m, fx)
    case Cooldown(seconds) => RunCooldown(o, seconds, kid, ctx, m, fx)
    case RunOnce => RunRunOnce(o, kid, ctx, m, fx)
    case Timeout(limit) => RunTimeout(o, limit, kid, ctx, m, fx)
    case _ =>
      var r := Run(o, kid, ctx, m.kids[0], fx);
      Out(Masked(kind, r.status), m.(kids := [r.mem]), r.fx)
  }

  function RunRepeat(o: Oracle, count: Option<nat>, kid: Tree, ctx: Context, m: Mem, fx: Effects): (r: Out)
    requires |m.kids| == 1 && Fits(kid, m.kids[0])
    ensures |r.mem.kids| == 1 && Fits(kid, r.mem.kids[0])
    decreases kid, 1
  {
    var state := m.own.GetOr(DEFAULT_STATE);
    if count.Some? && m.own.Some? && state.repeatCount >= count.value then
      Out(Success, m.(own := None), fx)
    else
      var r := Run(o, kid, ctx, m.kids[0], fx);
      var m' := m.(kids := [r.mem]);
      match r.status
      case Success => Out(Running, m'.(own := Some(state.(repeatCount := state.repeatCount + 1))), r.fx)
      case Failure => Out(Failure, m'.(own := None), r.fx)
      case Running => Out(Running, m', r.fx)
  }

  function RunCooldown(o: Oracle, seconds: real, kid: Tree, ctx: Context, m: Mem, fx: Effects): (r: Out)
    requires |m.kids| == 1 && Fits(kid, m.kids[0])
    ensures |r.mem.kids| == 1 && Fits(kid, r.mem.kids[0])
    decreases kid, 1
  {
    var state := m.own.GetOr(DEFAULT_STATE);
    if state.lastExecution.Some? && ctx.gameTime - state.lastExecution.value < seconds then
      Out(Failure, m, fx)
    else
      var r := Run(o, kid, ctx, m.kids[0], fx);
      var m' := m.(kids := [r.mem]);
      if r.status == Success then
        Out(Success, m'.(own := Some(state.(lastExecution := Some(ctx.gameTime)))), r.fx)
      else r.(mem := m')
  }

  function RunRunOnce(o: Oracle, kid: Tree, ctx: Context, m: Mem, fx: Effects): (r: Out)
    requires |m.kids| == 1 && Fits(kid, m.kids[0])
    ensures |r.mem.kids| == 1 && Fits(kid, r.mem.kids[0])
    decreases kid, 1
  {
    var state := m.own.GetOr(DEFAULT_STATE);
    if state.storedResult.Some? then Out(state.storedResult.value, m, fx)
    else
      var r := Run(o, kid, ctx, m.kids[0], fx);
      var m' := m.(kids := [r.mem]);
      if r.status != Running then
        r.(mem := m'.(own := Some(state.(storedResult := Some(r.status)))))
      else r.(mem := m')
  }

  function RunTimeout(o: Oracle, limit: real, kid: Tree, ctx: Context, m: Mem, fx: Effects): (r: Out)
    requires |m.kids| == 1 && Fits(kid, m.kids[0])
    ensures |r.mem.kids| == 1 && Fits(kid, r.mem.kids[0])
    decreases kid, 1
  {
    var begun := m.start.GetOr(DEFAULT_STATE);
    if begun.lastExecution.Some? && ctx.gameTime - begun.lastExecution.value > limit then
      Out(Failure, m, fx)
    else
      var begun' := if begun.lastExecution.None? then begun.(lastExecution := Some(ctx.gameTime)) else begun;
      var r := Run(o, kid, ctx, m.kids[0], fx);
      r.(mem := Mem(m.own, if r.status == Running then Some(begun') else None, [r.mem]))
  }

  /** The status reported by the decorators that keep no memory. */
  function Masked(kind: DecoratorKind, s: Status): Status {
    match kind
    case Invert => Negate(s)
    case AlwaysSucceed => Success
    case AlwaysFail => Failure
    case UntilFail => if s == Failure then Success else Running
    case _ => s
  }

  // ---------- which ticks an expansion is good for ----------

  ghost predicate WellFormed(t: Tree)
    decreases t
  {
    && (t.Composite? ==> t.goOn != Running)
    && (t.Constant? ==> t.status != Running)
    && forall i | 0 <= i < |Kids(t)| :: WellFormed(Kids(t)[i])
  }

  /** Nothing is left unexplored. */
  ghost predicate Whole(t: Tree)
    decreases t
  {
    !t.Unexplored? && forall i | 0 <= i < |Kids(t)| :: Whole(Kids(t)[i])
  }

  /** The decorator answers from memory. */
  predicate Blocked(kind: DecoratorKind, ctx: Context, m: Mem) {
    var s := m.own.GetOr(DEFAULT_STATE);
    match kind
    case Repeat(count) => count.Some? && m.own.Some? && s.repeatCount >= count.value
    case Cooldown(seconds) => s.lastExecution.Some? && ctx.gameTime - s.lastExecution.value < seconds
    case RunOnce => s.storedResult.Some?
    case Timeout(limit) =>
      var begun := m.start.GetOr(DEFAULT_STATE).lastExecution;
      begun.Some? && ctx.gameTime - begun.value > limit
    case _ => false
  }

  /** The tick starts no unexplored node, so what `Run` says is what happens. */
  ghost predicate Within(o: Oracle, t: Tree, ctx: Context, m: Mem, fx: Effects)
    requires Fits(t, m)
    decreases t, 0
  {
    match t
    case Composite(goOn, kids) => CompositeWithin(o, goOn, kids, IndexOf(m), ctx, m, fx)
    case Force(kids) => ForceWithin(o, kids, 0, ctx, m, fx)
    case Deco(kind, kid) => Blocked(kind, ctx, m) || Within(o, kid, ctx, m.kids[0], fx)
    case Sub(_, body) => Within(o, body, ctx, m.kids[0], fx)
    case Unexplored => false
    case _ => true
  }

  ghost predicate CompositeWithin(o: Oracle, goOn: Status, kids: seq<Tree>, i: nat, ctx: Context, m: Mem, fx: Effects)
    requires Fits(Composite(goOn, kids), m)
    decreases kids, |kids| - i
  {
    i < |kids| ==>
      && Within(o, kids[i], ctx, m.kids[i], fx)
      && var r := Run(o, kids[i], ctx, m.kids[i], fx);
         r.status != Running && r.status == goOn ==>
           CompositeWithin(o, goOn, kids, i + 1, ctx, m.(kids := m.kids[i := r.mem]), r.fx)
  }

  ghost predicate ForceWithin(o: Oracle, kids: seq<Tree>, i: nat, ctx: Context, m: Mem, fx: Effects)
    requires Fits(Force(kids), m)
    decreases kids, |kids| - i
  {
    i < |kids| ==>
      && Within(o, kids[i], ctx, m.kids[i], fx)
      && var r := Run(o, kids[i], ctx, m.kids[i], fx);
         ForceWithin(o, kids, i + 1, ctx, m.(kids := m.kids[i := r.mem]), r.fx)
  }

  /** A whole expansion is good for every tick. */
  lemma {:induction false} WholeWithin(o: Oracle, t: Tree, ctx: Context, m: Mem, fx: Effects)
    requires Fits(t, m) && Whole(t)
    ensures Within(o, t, ctx, m, fx)
    decreases t, 0
  {
    match t
    case Composite(goOn, kids) =>
      assert forall j | 0 <= j < |kids| :: Kids(t)[j] == kids[j];
      CompositeWholeWithin(o, goOn, kids, IndexOf(m), ctx, m, fx);
    case Force(kids) =>
      assert forall j | 0 <= j < |kids| :: Kids(t)[j] == kids[j];
      ForceWholeWithin(o, kids, 0, ctx, m, fx);
    case Deco(_, kid) =>
      assert Kids(t)[0] == kid;
      WholeWithin(o, kid, ctx, m.kids[0], fx);
    case Sub(_, body) =>
      assert Kids(t)[0] == body;
      WholeWithin(o, body, ctx, m.kids[0], fx);
    case _ =>
  }

  lemma {:induction false} CompositeWholeWithin(o: Oracle, goOn: Status, kids: seq<Tree>, i: nat, ctx: Context, m: Mem, fx: Effects)
    requires Fits(Composite(goOn, kids), m) && forall j | 0 <= j < |kids| :: Whole(kids[j])
    ensures CompositeWithin(o, goOn, kids, i, ctx, m, fx)
    decreases kids, |kids| - i
  {
    hide Run, Within, Whole;
    if i < |kids| {
      assert Kids(Composite(goOn, kids))[i] == kids[i];
      WholeWithin(o, kids[i], ctx, m.kids[i], fx);
      var r := Run(o, kids[i], ctx, m.kids[i], fx);
      CompositeWholeWithin(o, goOn, kids, i + 1, ctx, m.(kids := m.kids[i := r.mem]), r.fx);
    }
  }

  lemma {:induction false} ForceWholeWithin(o: Oracle, kids: seq<Tree>, i: nat, ctx: Context, m: Mem, fx: Effects)
    requires Fits(Force(kids), m) && forall j | 0 <= j < |kids| :: Whole(kids[j])
    ensures ForceWithin(o, kids, i, ctx, m, fx)
    decreases kids, |kids| - i
  {
    hide Run, Within, Whole;
    if i < |kids| {
      assert Kids(Force(kids))[i] == kids[i];
      WholeWithin(o, kids[i], ctx, m.kids[i], fx);
      var r := Run(o, kids[i], ctx, m.kids[i], fx);
      ForceWholeWithin(o, kids, i + 1, ctx, m.(kids := m.kids[i := r.mem]), r.fx);
    }
  }

  // ---------- ticks ----------

  /** One call of the runner: data returned in earlier runs is forgotten. */
  function Tick(o: Oracle, t: Tree, ctx: Context, m: Mem, log: seq<Call>): (r: Out)
    requires Fits(t, m)
    ensures Fits(t, r.mem)
  {
    Run(o, t, ctx, m, Effects(log, None))
  }

  /** The statuses of a tree over a run of ticks. */
  function Statuses(o: Oracle, t: Tree, ctxs: seq<Context>, m: Mem, log: seq<Call>): (ss: seq<Status>)
    requires Fits(t, m)
    ensures |ss| == |ctxs|
    decreases |ctxs|
  {
    if ctxs == [] then []
    else
      var r := Tick(o, t, ctxs[0], m, log);
      [r.status] + Statuses(o, t, ctxs[1..], r.mem, r.fx.log)
  }

  /** The memory and the call log a run of ticks ends with. */
  function After(o: Oracle, t: Tree, ctxs: seq<Context>, m: Mem, log: seq<Call>): (r: (Mem, seq<Call>))
    requires Fits(t, m)
    ensures Fits(t, r.0)
    decreases |ctxs|
  {
    if ctxs == [] then (m, log)
    else
      var r := Tick(o, t, ctxs[0], m, log);
      After(o, t, ctxs[1..], r.mem, r.fx.log)
  }

  ghost predicate TimesAscend(ctxs: seq<Context>) {
    forall i, j | 0 <= i <= j < |ctxs| :: ctxs[i].gameTime <= ctxs[j].gameTime
  }

  /** A run of ticks in two parts. */
  lemma {:induction false} RunSplits(o: Oracle, t: Tree, cs: seq<Context>, ds: seq<Context>, m: Mem, log: seq<Call>)
    requires Fits(t, m)
    ensures var (m', log') := After(o, t, cs, m, log);
            && Statuses(o, t, cs + ds, m, log) == Statuses(o, t, cs, m, log) + Statuses(o, t, ds, m', log')
            && After(o, t, cs + ds, m, log) == After(o, t, ds, m', log')
    decreases |cs|
  {
    if cs == [] {
      assert cs + ds == ds;
    } else {
      var r := Tick(o, t, cs[0], m, log);
      assert (cs + ds)[1..] == cs[1..] + ds;
      RunSplits(o, t, cs[1..], ds, r.mem, r.fx.log);
    }
  }
}
