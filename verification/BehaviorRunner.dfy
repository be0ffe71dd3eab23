/** The runner itself (runner.rs): an object that keeps the memory of all nodes of all entities in
    one map from (entity, rendered path) and updates it in place. Every method is proved to do on
    that map what the reference semantics does on the tree's own memory, and nothing else. */
module BehaviorRunner {
  import opened Prelude
  import opened BehaviorTree
  import Utility
  import opened TreeSemantics
  import opened NodePaths

  type Registry = map<string, Node>

  /** `t` is `node` with subtree references expanded, as far as `t` goes. A tick is specified by any
      expansion that it does not leave: a whole one if there is one, which is when no reference cycle can
      be reached (TreeTermination), and otherwise one that is deep enough for this tick. */
  ghost predicate Resolves(reg: Registry, node: Node, t: Tree)
    decreases t
  {
    match node
    case Sequence(children) => t.Composite? && t.goOn == Success && ResolvesAll(reg, children, t.kids)
    case Selector(children) => t.Composite? && t.goOn == Failure && ResolvesAll(reg, children, t.kids)
    case ForceSequence(children) => t.Force? && ResolvesAll(reg, children, t.kids)
    case Decorator(kind, child) => t.Deco? && t.kind == kind && Resolves(reg, child, t.kid)
    case Action(name) => t == ActionLeaf(name)
    case Condition(name) => t == ConditionLeaf(name)
    case Utility(options) => t == UtilityLeaf(options)
    case Wait(ticks) => t == Delay(ticks)
    case Succeed => t == Constant(Success)
    case Fail => t == Constant(Failure)
    case Subtree(name) =>
      if name in reg then t.Unexplored? || (t.Sub? && t.name == name && Resolves(reg, reg[name], t.body))
      else t == Constant(Failure)
  }

  ghost predicate ResolvesAll(reg: Registry, nodes: seq<Node>, ts: seq<Tree>)
    decreases ts
  {
    |nodes| == |ts| && forall i | 0 <= i < |ts| :: Resolves(reg, nodes[i], ts[i])
  }

  /** The script engine: it answers from its oracle and remembers what it was asked. */
  class ScriptEngine {
    const oracle: Oracle
    var log: seq<Call>

    constructor (oracle: Oracle)
      ensures this.oracle == oracle && log == []
    {
      this.oracle := oracle;
      log := [];
    }

    method Ask(call: Call) returns (reply: Reply)
      modifies this`log
      ensures log == old(log) + [call] && reply == oracle(log)
    {
      log := log + [call];
      reply := oracle(log);
    }
  }

  datatype BtResult = BtResult(status: Status, updatedData: Option<Data>)

  class BehaviorTreeRunner {
    var states: States
    var subtrees: Registry
    var pending: Option<Data>

    constructor ()
      ensures states == map[] && subtrees == map[] && pending == None
    {
      states, subtrees, pending := map[], map[], None;
    }

    ghost function Fx(engine: ScriptEngine): Effects
      reads this`pending, engine`log
    {
      Effects(engine.log, pending)
    }

    method RegisterSubtree(name: string, tree: Node)
      modifies this`subtrees
      ensures subtrees == old(subtrees)[name := tree]
    {
      subtrees := subtrees[name := tree];
    }

    /** Forgets one entity and leaves every other entity's memory as it was. */
    method ClearEntityState(entity: Id)
      modifies this`states
      ensures forall k: Key :: Get(states, k) == if k.0 == entity then None else Get(old(states), k)
      ensures forall t: Tree, p: string :: View(t, states, entity, p) == Fresh(t)
    {
      states := map k | k in states && k.0 != entity :: states[k];
      forall t: Tree, p: string ensures View(t, states, entity, p) == Fresh(t) {
        ViewOfNothing(t, states, entity, p);
      }
    }

    /** Drops the entry of the node at `key`. */
    method RemoveEntry(key: Key, ghost t: Tree, ghost start: States)
      requires SameOff(t, key.0, key.1, start, states)
      modifies this`states
      ensures View(t, states, key.0, key.1) == View(t, old(states), key.0, key.1).(own := None)
      ensures SameOff(t, key.0, key.1, start, states)
    {
      assert |key.1 + START| > |key.1|;
      states := states - {key};
      ViewOfOwn(t, key.0, key.1, old(states), states);
      SameOffTransitive(t, key.0, key.1, start, old(states), states);
    }

    /** Overwrites the entry of the node at `key`. */
    method PutEntry(key: Key, state: NodeState, ghost t: Tree, ghost start: States)
      requires SameOff(t, key.0, key.1, start, states)
      modifies this`states
      ensures View(t, states, key.0, key.1) == View(t, old(states), key.0, key.1).(own := Some(state))
      ensures SameOff(t, key.0, key.1, start, states)
    {
      assert |key.1 + START| > |key.1|;
      states := states[key := state];
      ViewOfOwn(t, key.0, key.1, old(states), states);
      SameOffTransitive(t, key.0, key.1, start, old(states), states);
    }

    /** One tick of `tree` for the entity of `ctx`. */
    method Run(engine: ScriptEngine, tree: Node, ghost t: Tree, ctx: Context) returns (result: BtResult)
      requires Resolves(subtrees, tree, t)
      requires Within(engine.oracle, t, ctx, View(t, states, ctx.entity, "root"), Effects(engine.log, None))
      modifies this`states, this`pending, engine`log
      ensures RunsTo(engine.oracle, t, ctx, "root", old(states), Effects(old(engine.log), None),
                     result.status, states, Effects(engine.log, result.updatedData))
      ensures pending == None
    {
      pending := None;
      var status := RunNode(engine, tree, t, ctx, "root");
      result := BtResult(status, pending);
      pending := None;
    }

    method RunNode(engine: ScriptEngine, node: Node, ghost t: Tree, ctx: Context, path: string)
      returns (status: Status)
      requires Resolves(subtrees, node, t) && Within(engine.oracle, t, ctx, View(t, states, ctx.entity, path), Fx(engine))
      modifies this`states, this`pending, engine`log
      ensures RunsTo(engine.oracle, t, ctx, path, old(states), old(Fx(engine)), status, states, Fx(engine))
      decreases t, 1
    {
      match node
      case Sequence(children) => status := RunSequence(engine, children, t.kids, ctx, path);
      case Selector(children) => status := RunSelector(engine, children, t.kids, ctx, path);
      case Action(name) => status := RunAction(engine, name, ctx);
      case Condition(name) => status := RunCondition(engine, name, ctx);
      case Utility(options) => status := RunUtility(engine, options, ctx);
      case Decorator(kind, child) => status := RunDecorator(engine, kind, child, t.kid, ctx, path);
      case ForceSequence(children) => status := RunForceSequence(engine, children, t.kids, ctx, path);
      case Wait(ticks) => status := RunWait(ticks, ctx, path);
      case Succeed => status := Success;
      case Fail => status := Failure;
      case Subtree(name) => status := RunSubtree(engine, name, t, ctx, path);
    }

    method RunSequence(engine: ScriptEngine, children: seq<Node>, ghost kids: seq<Tree>, ctx: Context, path: string)
      returns (status: Status)
      requires ResolvesAll(subtrees, children, kids)
      requires var m := View(Composite(Success, kids), states, ctx.entity, path);
               CompositeWithin(engine.oracle, Success, kids, IndexOf(m), ctx, m, Fx(engine))
      modifies this`states, this`pending, engine`log
      ensures var t := Composite(Success, kids);
              var m := View(t, old(states), ctx.entity, path);
              Did(t, ctx.entity, path, old(states),
                  RunComposite(engine.oracle, Success, kids, IndexOf(m), ctx, m, old(Fx(engine))),
                  status, states, Fx(engine))
      decreases kids, 0
    {
      hide View, SameOff, IsKey, TreeSemantics.Run, Fits, Resolves, Within;
      ghost var t, e := Composite(Success, kids), ctx.entity;
      ghost var m := View(t, states, e, path);
      ViewOwn(t, states, e, path);
      ghost var goal := RunComposite(engine.oracle, Success, kids, IndexOf(m), ctx, m, Fx(engine));
      var stateKey := (ctx.entity, path);
      var i := Get(states, stateKey).GetOr(DEFAULT_STATE).childIndex;
      while i < |children|
        invariant goal == RunComposite(engine.oracle, Success, kids, i, ctx, View(t, states, e, path), Fx(engine))
        invariant CompositeWithin(engine.oracle, Success, kids, i, ctx, View(t, states, e, path), Fx(engine))
        invariant SameOff(t, e, path, old(states), states)
      {
        var childPath := path + "/seq_" + Decimal(i);
        assert childPath == path + Edge(t, i);
        ViewKid(t, states, e, path, i);
        ghost var before, fx := states, Fx(engine);
        status := RunNode(engine, children[i], kids[i], ctx, childPath);
        KidRan(engine.oracle, t, ctx, path, old(states), before, fx, i, status, states, Fx(engine));
        ViewOwn(t, before, e, path);
        ViewOwn(t, states, e, path);
        match status {
          case Failure =>
            RemoveEntry(stateKey, t, old(states));
            return Failure;
          case Running =>
            PutEntry(stateKey, Get(states, stateKey).GetOr(DEFAULT_STATE).(childIndex := i), t, old(states));
            return Running;
          case Success =>
        }
        i := i + 1;
      }
      RemoveEntry(stateKey, t, old(states));
      status := Success;
    }

    method RunSelector(engine: ScriptEngine, children: seq<Node>, ghost kids: seq<Tree>, ctx: Context, path: string)
      returns (status: Status)
      requires ResolvesAll(subtrees, children, kids)
      requires var m := View(Composite(Failure, kids), states, ctx.entity, path);
               CompositeWithin(engine.oracle, Failure, kids, IndexOf(m), ctx, m, Fx(engine))
      modifies this`states, this`pending, engine`log
      ensures var t := Composite(Failure, kids);
              var m := View(t, old(states), ctx.entity, path);
              Did(t, ctx.entity, path, old(states),
                  RunComposite(engine.oracle, Failure, kids, IndexOf(m), ctx, m, old(Fx(engine))),
                  status, states, Fx(engine))
      decreases kids, 0
    {
      hide View, SameOff, IsKey, TreeSemantics.Run, Fits, Resolves, Within;
      ghost var t, e := Composite(Failure, kids), ctx.entity;
      ghost var m := View(t, states, e, path);
      ViewOwn(t, states, e, path);
      ghost var goal := RunComposite(engine.oracle, Failure, kids, IndexOf(m), ctx, m, Fx(engine));
      var stateKey := (ctx.entity, path);
      var i := Get(states, stateKey).GetOr(DEFAULT_STATE).childIndex;
      while i < |children|
        invariant goal == RunComposite(engine.oracle, Failure, kids, i, ctx, View(t, states, e, path), Fx(engine))
        invariant CompositeWithin(engine.oracle, Failure, kids, i, ctx, View(t, states, e, path), Fx(engine))
        invariant SameOff(t, e, path, old(states), states)
      {
        var childPath := path + "/sel_" + Decimal(i);
        assert childPath == path + Edge(t, i);
        ViewKid(t, states, e, path, i);
        ghost var before, fx := states, Fx(engine);
        status := RunNode(engine, children[i], kids[i], ctx, childPath);
        KidRan(engine.oracle, t, ctx, path, old(states), before, fx, i, status, states, Fx(engine));
        ViewOwn(t, before, e, path);
        ViewOwn(t, states, e, path);
        match status {
          case Success =>
            RemoveEntry(stateKey, t, old(states));
            return Success;
          case Running =>
            PutEntry(stateKey, Get(states, stateKey).GetOr(DEFAULT_STATE).(childIndex := i), t, old(states));
            return Running;
          case Failure =>
        }
        i := i + 1;
      }
      RemoveEntry(stateKey, t, old(states));
      status := Failure;
    }

    method RunForceSequence(engine: ScriptEngine, children: seq<Node>, ghost kids: seq<Tree>, ctx: Context, path: string)
      returns (status: Status)
      requires ResolvesAll(subtrees, children, kids)
      requires ForceWithin(engine.oracle, kids, 0, ctx, View(Force(kids), states, ctx.entity, path), Fx(engine))
      modifies this`states, this`pending, engine`log
      ensures var t := Force(kids);
              var m := View(t, old(states), ctx.entity, path);
              Did(t, ctx.entity, path, old(states),
                  RunForce(engine.oracle, kids, 0, false, true, ctx, m, old(Fx(engine))),
                  status, states, Fx(engine))
      decreases kids, 0
    {
      hide View, SameOff, IsKey, TreeSemantics.Run, Fits, Resolves, Within;
      ghost var t, e := Force(kids), ctx.entity;
      ViewOwn(t, states, e, path);
      ghost var goal := RunForce(engine.oracle, kids, 0, false, true, ctx, View(t, states, e, path), Fx(engine));
      var anyRunning, allSuccess := false, true;
      for i := 0 to |children|
        invariant goal == RunForce(engine.oracle, kids, i, anyRunning, allSuccess, ctx,
                                   View(t, states, e, path), Fx(engine))
        invariant ForceWithin(engine.oracle, kids, i, ctx, View(t, states, e, path), Fx(engine))
        invariant SameOff(t, e, path, old(states), states)
      {
        var childPath := path + "/force_" + Decimal(i);
        assert childPath == path + Edge(t, i);
        ViewKid(t, states, e, path, i);
        ghost var before, fx := states, Fx(engine);
        var s := RunNode(engine, children[i], kids[i], ctx, childPath);
        KidRan(engine.oracle, t, ctx, path, old(states), before, fx, i, s, states, Fx(engine));
        match s {
          case Running => anyRunning := true;
          case Failure => allSuccess := false;
          case Success =>
        }
      }
      status := if anyRunning then Running else if allSuccess then Success else Failure;
    }

    method RunAction(engine: ScriptEngine, name: string, ctx: Context) returns (status: Status)
      modifies this`pending, engine`log
      ensures (status, Fx(engine)) == TreeSemantics.RunAction(engine.oracle, name, ctx, old(Fx(engine)))
    {
      if !ctx.scriptFound {
        return Failure;
      }
      var reply := engine.Ask(ActionCall(name, ctx));
      match reply.data {
        case Some(data) =>
          match pending {
            case Some(existing) => pending := Some(existing + data);
            case None => pending := Some(data);
          }
        case None =>
      }
      status := reply.status;
    }

    method RunCondition(engine: ScriptEngine, name: string, ctx: Context) returns (status: Status)
      modifies engine`log
      ensures (status, Fx(engine)) == TreeSemantics.RunCondition(engine.oracle, name, ctx, old(Fx(engine)))
    {
      if !ctx.scriptFound {
        return Failure;
      }
      var reply := engine.Ask(ConditionCall(name, ctx));
      status := if reply.holds then Success else Failure;
    }

    method RunUtility(engine: ScriptEngine, options: seq<UtilityOption>, ctx: Context) returns (status: Status)
      modifies this`pending, engine`log
      ensures (status, Fx(engine)) == TreeSemantics.RunUtility(engine.oracle, options, ctx, old(Fx(engine)))
    {
      if options == [] || !ctx.scriptFound {
        return Failure;
      }
      ghost var (o, log) := (engine.oracle, engine.log);
      var scores: seq<Utility.UtilityScore> := [];
      for i := 0 to |options|
        invariant (scores, engine.log) == Utility.ScoreAll(o, options[..i], ctx, log) && pending == old(pending)
      {
        assert options[..i + 1][..i] == options[..i];
        var considered := RunConsiderations(engine, options[i].considerations, ctx);
        scores := scores + [Utility.Score(options[i], considered)];
      }
      assert options[..|options|] == options;
      match Utility.Best(scores) {
        case Some(i) => status := RunAction(engine, scores[i].option.action, ctx);
        case None => status := Failure;
      }
    }

    /** Calls the considerations of one option. One that fails scores zero. */
    method RunConsiderations(engine: ScriptEngine, names: seq<string>, ctx: Context) returns (scores: seq<real>)
      modifies engine`log
      ensures (scores, engine.log) == Utility.Consider(engine.oracle, names, ctx, old(engine.log))
    {
      scores := [];
      for i := 0 to |names|
        invariant (scores, engine.log) == Utility.Consider(engine.oracle, names[..i], ctx, old(engine.log))
      {
        assert names[..i + 1][..i] == names[..i];
        var reply := engine.Ask(ConsiderCall(names[i], ctx));
        scores := scores + [Utility.ClampUnit(reply.score.GetOr(0.0))];
      }
      assert names[..|names|] == names;
    }

    /** The decorator answers from memory, or its child stays within its expansion. */
    ghost predicate DecoratorWithin(engine: ScriptEngine, kind: DecoratorKind, kid: Tree, ctx: Context, path: string)
      reads this`states, this`pending, engine`log
    {
      var m := View(Deco(kind, kid), states, ctx.entity, path);
      Blocked(kind, ctx, m) || Within(engine.oracle, kid, ctx, m.kids[0], Fx(engine))
    }

    method RunDecorator(engine: ScriptEngine, kind: DecoratorKind, child: Node, ghost kid: Tree, ctx: Context, path: string)
      returns (status: Status)
      requires Resolves(subtrees, child, kid) && DecoratorWithin(engine, kind, kid, ctx, path)
      modifies this`states, this`pending, engine`log
      ensures RunsTo(engine.oracle, Deco(kind, kid), ctx, path,
                     old(states), old(Fx(engine)), status, states, Fx(engine))
      decreases kid, 4
    {
      hide View, SameOff, IsKey, Resolves, Within;
      ghost var t := Deco(kind, kid);
      ghost var m := View(t, states, ctx.entity, path);
      assert TreeSemantics.Run(engine.oracle, t, ctx, m, Fx(engine)) == RunDeco(engine.oracle, kind, kid, ctx, m, Fx(engine));
      match kind {
        case Invert =>
          var s := RunOnlyChild(engine, t, child, kid, ctx, path, old(states));
          status := match s case Success => Failure case Failure => Success case Running => Running;
        case AlwaysSucceed =>
          var _ := RunOnlyChild(engine, t, child, kid, ctx, path, old(states));
          status := Success;
        case AlwaysFail =>
          var _ := RunOnlyChild(engine, t, child, kid, ctx, path, old(states));
          status := Failure;
        case UntilFail =>
          var s := RunOnlyChild(engine, t, child, kid, ctx, path, old(states));
          status := if s == Failure then Success else Running;
        case Repeat(count) => status := RunRepeat(engine, count, child, kid, ctx, path);
        case Cooldown(seconds) => status := RunCooldown(engine, seconds, child, kid, ctx, path);
        case RunOnce => status := RunRunOnce(engine, child, kid, ctx, path);
        case Timeout(limit) => status := RunTimeout(engine, limit, child, kid, ctx, path);
      }
    }

    /** Runs the child of a decorator. */
    method RunOnlyChild(engine: ScriptEngine, ghost t: Tree, child: Node, ghost kid: Tree, ctx: Context, path: string,
                        ghost start: States)
      returns (status: Status)
      requires t.Deco? && t.kid == kid && Resolves(subtrees, child, kid)
      requires Within(engine.oracle, kid, ctx, View(t, states, ctx.entity, path).kids[0], Fx(engine))
      requires SameOff(t, ctx.entity, path, start, states)
      modifies this`states, this`pending, engine`log
      ensures var m := View(t, old(states), ctx.entity, path);
              var r := TreeSemantics.Run(engine.oracle, kid, ctx, m.kids[0], old(Fx(engine)));
              && status == r.status && Fx(engine) == r.fx
              && View(t, states, ctx.entity, path) == m.(kids := [r.mem])
      ensures SameOff(t, ctx.entity, path, start, states)
      decreases kid, 2
    {
      var childPath := path + "/child";
      assert childPath == path + Edge(t, 0);
      assert Kids(t)[0] == kid;
      status := RunNode(engine, child, kid, ctx, childPath);
      KidRan(engine.oracle, t, ctx, path, start, old(states), old(Fx(engine)), 0, status, states, Fx(engine));
    }

    method RunRepeat(engine: ScriptEngine, count: Option<nat>, child: Node, ghost kid: Tree, ctx: Context, path: string)
      returns (status: Status)
      requires Resolves(subtrees, child, kid) && DecoratorWithin(engine, Repeat(count), kid, ctx, path)
      modifies this`states, this`pending, engine`log
      ensures var t := Deco(Repeat(count), kid);
              var m := View(t, old(states), ctx.entity, path);
              Did(t, ctx.entity, path, old(states),
                  TreeSemantics.RunRepeat(engine.oracle, count, kid, ctx, m, old(Fx(engine))),
                  status, states, Fx(engine))
      decreases kid, 3
    {
      hide View, SameOff, IsKey, TreeSemantics.Run, Fits, Resolves, Within;
      ghost var t := Deco(Repeat(count), kid);
      var stateKey := (ctx.entity, path);
      ViewOwn(t, states, ctx.entity, path);
      if count.Some? && stateKey in states && states[stateKey].repeatCount >= count.value {
        RemoveEntry(stateKey, t, old(states));
        return Success;
      }
      status := RunOnlyChild(engine, t, child, kid, ctx, path, old(states));
      ViewOwn(t, states, ctx.entity, path);
      match status {
        case Success =>
          var state := Get(states, stateKey).GetOr(DEFAULT_STATE);
          PutEntry(stateKey, state.(repeatCount := state.repeatCount + 1), t, old(states));
          status := Running;
        case Failure =>
          RemoveEntry(stateKey, t, old(states));
        case Running =>
      }
    }

    method RunCooldown(engine: ScriptEngine, seconds: real, child: Node, ghost kid: Tree, ctx: Context, path: string)
      returns (status: Status)
      requires Resolves(subtrees, child, kid) && DecoratorWithin(engine, Cooldown(seconds), kid, ctx, path)
      modifies this`states, this`pending, engine`log
      ensures var t := Deco(Cooldown(seconds), kid);
              var m := View(t, old(states), ctx.entity, path);
              Did(t, ctx.entity, path, old(states),
                  TreeSemantics.RunCooldown(engine.oracle, seconds, kid, ctx, m, old(Fx(engine))),
                  status, states, Fx(engine))
      decreases kid, 3
    {
      hide View, SameOff, IsKey, TreeSemantics.Run, Fits, Resolves, Within;
      ghost var t := Deco(Cooldown(seconds), kid);
      var stateKey := (ctx.entity, path);
      ViewOwn(t, states, ctx.entity, path);
      if stateKey in states {
        var last := states[stateKey].lastExecution;
        if last.Some? && ctx.gameTime - last.value < seconds {
          return Failure;
        }
      }
      status := RunOnlyChild(engine, t, child, kid, ctx, path, old(states));
      ViewOwn(t, states, ctx.entity, path);
      if status == Success {
        PutEntry(stateKey, Get(states, stateKey).GetOr(DEFAULT_STATE).(lastExecution := Some(ctx.gameTime)), t, old(states));
      }
    }

    method RunRunOnce(engine: ScriptEngine, child: Node, ghost kid: Tree, ctx: Context, path: string)
      returns (status: Status)
      requires Resolves(subtrees, child, kid) && DecoratorWithin(engine, RunOnce, kid, ctx, path)
      modifies this`states, this`pending, engine`log
      ensures var t := Deco(RunOnce, kid);
              var m := View(t, old(states), ctx.entity, path);
              Did(t, ctx.entity, path, old(states),
                  TreeSemantics.RunRunOnce(engine.oracle, kid, ctx, m, old(Fx(engine))),
                  status, states, Fx(engine))
      decreases kid, 3
    {
      hide View, SameOff, IsKey, TreeSemantics.Run, Fits, Resolves, Within;
      ghost var t := Deco(RunOnce, kid);
      var stateKey := (ctx.entity, path);
      ViewOwn(t, states, ctx.entity, path);
      if stateKey in states && states[stateKey].storedResult.Some? {
        return states[stateKey].storedResult.value;
      }
      status := RunOnlyChild(engine, t, child, kid, ctx, path, old(states));
      ViewOwn(t, states, ctx.entity, path);
      if status != Running {
        PutEntry(stateKey, Get(states, stateKey).GetOr(DEFAULT_STATE).(storedResult := Some(status)), t, old(states));
      }
    }

    method RunTimeout(engine: ScriptEngine, limit: real, child: Node, ghost kid: Tree, ctx: Context, path: string)
      returns (status: Status)
      requires Resolves(subtrees, child, kid) && DecoratorWithin(engine, Timeout(limit), kid, ctx, path)
      modifies this`states, this`pending, engine`log
      ensures var t := Deco(Timeout(limit), kid);
              var m := View(t, old(states), ctx.entity, path);
              Did(t, ctx.entity, path, old(states),
                  TreeSemantics.RunTimeout(engine.oracle, limit, kid, ctx, m, old(Fx(engine))),
                  status, states, Fx(engine))
      decreases kid, 3
    {
      hide View, SameOff, IsKey, TreeSemantics.Run, Fits, Resolves, Within;
      ghost var t, e := Deco(Timeout(limit), kid), ctx.entity;
      var timeKey := (ctx.entity, path + "_start");
      assert |path + "_start"| > |path|;
      ViewOwn(t, states, e, path);
      if timeKey in states {
        var start := states[timeKey].lastExecution;
        if start.Some? && ctx.gameTime - start.value > limit {
          return Failure;
        }
      }
      var state := Get(states, timeKey).GetOr(DEFAULT_STATE);
      if state.lastExecution.None? {
        state := state.(lastExecution := Some(ctx.gameTime));
      }
      states := states[timeKey := state];
      ViewOfOwn(t, e, path, old(states), states);
      status := RunOnlyChild(engine, t, child, kid, ctx, path, old(states));
      if status != Running {
        ghost var before := states;
        states := states - {timeKey};
        ViewOwn(t, before, e, path);
        ViewOfOwn(t, e, path, before, states);
        SameOffTransitive(t, e, path, old(states), before, states);
      }
    }

    method RunWait(ticks: nat, ctx: Context, path: string) returns (status: Status)
      modifies this`states
      ensures var (s, m) := RunDelay(ticks, View(Delay(ticks), old(states), ctx.entity, path));
              && status == s
              && View(Delay(ticks), states, ctx.entity, path) == m
              && SameOff(Delay(ticks), ctx.entity, path, old(states), states)
    {
      ghost var t, e := Delay(ticks), ctx.entity;
      var stateKey := (ctx.entity, path);
      var state := Get(states, stateKey).GetOr(DEFAULT_STATE);
      var waited := state.ticksWaited + 1;
      states := states[stateKey := state.(ticksWaited := waited)];
      if waited >= ticks {
        states := states - {stateKey};
        status := Success;
      } else {
        status := Running;
      }
      ViewOfOwn(t, e, path, old(states), states);
    }

    method RunSubtree(engine: ScriptEngine, name: string, ghost t: Tree, ctx: Context, path: string)
      returns (status: Status)
      requires Resolves(subtrees, Subtree(name), t) && Within(engine.oracle, t, ctx, View(t, states, ctx.entity, path), Fx(engine))
      modifies this`states, this`pending, engine`log
      ensures RunsTo(engine.oracle, t, ctx, path, old(states), old(Fx(engine)), status, states, Fx(engine))
      decreases t, 0
    {
      if name in subtrees {
        var subtreePath := path + "/sub_" + name;
        assert subtreePath == path + Edge(t, 0);
        assert Kids(t)[0] == t.body;
        status := RunNode(engine, subtrees[name], t.body, ctx, subtreePath);
        KidRan(engine.oracle, t, ctx, path, old(states), old(states), old(Fx(engine)), 0, status, states, Fx(engine));
      } else {
        status := Failure;
      }
    }
  }

  /** Running one child moves the view of the parent by that child's outcome only. */
  lemma KidRan(o: Oracle, t: Tree, ctx: Context, p: string, start: States,
               before: States, fx: Effects, i: nat, s: Status, after: States, fx': Effects)
    requires i < |Kids(t)| && SameOff(t, ctx.entity, p, start, before)
    requires RunsTo(o, Kids(t)[i], ctx, p + Edge(t, i), before, fx, s, after, fx')
    ensures SameOff(t, ctx.entity, p, start, after)
    ensures var m := View(t, before, ctx.entity, p);
            var r := TreeSemantics.Run(o, Kids(t)[i], ctx, m.kids[i], fx);
            && s == r.status && fx' == r.fx
            && View(t, after, ctx.entity, p) == m.(kids := m.kids[i := r.mem])
  {
    ViewOfKid(t, ctx.entity, p, before, after, i);
    SameOffTransitive(t, ctx.entity, p, start, before, after);
  }

  lemma {:induction false} ViewOfNothing(t: Tree, states: States, e: Id, p: string)
    requires forall k: string :: Get(states, (e, k)) == None
    ensures View(t, states, e, p) == Fresh(t)
    decreases t
  {
    forall i | 0 <= i < |Kids(t)|
      ensures View(Kids(t)[i], states, e, p + Edge(t, i)) == Fresh(Kids(t)[i])
    {
      ViewOfNothing(Kids(t)[i], states, e, p + Edge(t, i));
    }
  }
}
