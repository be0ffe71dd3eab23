/** What a tick asks and what it collects: the calls of leaves, the option a utility node takes, and the data
    handed out after a run from the replies to the actions called in it. */
module TreeData {
  import opened Prelude
  import opened BehaviorTree
  import opened TreeSemantics
  import Utility

  /** The reply to call `k` of a log. */
  function ReplyAt(o: Oracle, log: seq<Call>, k: nat): Reply
    requires k < |log|
  {
    o(log[..k + 1])
  }

  lemma SameReply(o: Oracle, before: seq<Call>, after: seq<Call>, k: nat)
    requires before <= after && k < |before|
    ensures ReplyAt(o, before, k) == ReplyAt(o, after, k)
  {
    assert before[..k + 1] == after[..k + 1];
  }

  lemma LastReply(o: Oracle, log: seq<Call>)
    requires log != []
    ensures ReplyAt(o, log, |log| - 1) == o(log)
  {
    assert log[..|log| - 1 + 1] == log;
  }

  // ---------- leaves ----------

  /** A leaf asks its script once about the tick it runs in, if there is one, and answers what it is told;
      only an action's data is kept. */
  lemma LeavesAnswer(o: Oracle, name: string, ctx: Context, m: Mem, fx: Effects)
    ensures Fits(ActionLeaf(name), m) ==>
              var r := Run(o, ActionLeaf(name), ctx, m, fx);
              if ctx.scriptFound then r.fx.log == fx.log + [ActionCall(name, ctx)] && r.status == o(r.fx.log).status
              else r == Out(Failure, m, fx)
    ensures Fits(ConditionLeaf(name), m) ==>
              var r := Run(o, ConditionLeaf(name), ctx, m, fx);
              && r.fx.pending == fx.pending && r.status != Running
              && if ctx.scriptFound then r.fx.log == fx.log + [ConditionCall(name, ctx)] && (r.status == Success <==> o(r.fx.log).holds)
                 else r == Out(Failure, m, fx)
  {
  }

  // ---------- a utility node ----------

  /** The calls of the considerations of one option, and of all options, in order. */
  function Asks(names: seq<string>, ctx: Context): (calls: seq<Call>)
    ensures |calls| == |names| && forall c | c in calls :: c.ConsiderCall? && c.at == ctx
  {
    seq(|names|, i requires 0 <= i < |names| => ConsiderCall(names[i], ctx))
  }

  function Considerations(options: seq<UtilityOption>, ctx: Context): (calls: seq<Call>)
    ensures forall c | c in calls :: c.ConsiderCall? && c.at == ctx
  {
    if options == [] then []
    else Considerations(options[..|options| - 1], ctx) + Asks(options[|options| - 1].considerations, ctx)
  }

  function ScoreAt(o: Oracle, log: seq<Call>, k: nat): real
    requires k < |log|
  {
    Utility.ClampUnit(ReplyAt(o, log, k).score.GetOr(0.0))
  }

  /** The scores that the replies to `n` calls from `at` on give. */
  function ScoresIn(o: Oracle, log: seq<Call>, at: nat, n: nat): (scores: seq<real>)
    requires at + n <= |log|
    ensures |scores| == n
  {
    seq(n, i requires 0 <= i < n => ScoreAt(o, log, at + i))
  }

  lemma ScoresStay(o: Oracle, before: seq<Call>, after: seq<Call>, at: nat, n: nat)
    requires before <= after && at + n <= |before|
    ensures ScoresIn(o, before, at, n) == ScoresIn(o, after, at, n)
  {
    hide ReplyAt, Utility.ClampUnit;
    forall k: nat | k < |before| ensures ScoreAt(o, before, k) == ScoreAt(o, after, k) {
      SameReply(o, before, after, k);
    }
  }

  lemma {:induction false} ConsiderCalls(o: Oracle, names: seq<string>, ctx: Context, log: seq<Call>)
    ensures Utility.Consider(o, names, ctx, log).1 == log + Asks(names, ctx)
    ensures Utility.Consider(o, names, ctx, log).0 == ScoresIn(o, log + Asks(names, ctx), |log|, |names|)
    decreases |names|
  {
    var after := log + Asks(names, ctx);
    if names != [] {
      var (front, last) := (names[..|names| - 1], names[|names| - 1]);
      var before := log + Asks(front, ctx);
      ConsiderCalls(o, front, ctx, log);
      assert after == before + [ConsiderCall(last, ctx)];
      ScoresStay(o, before, after, |log|, |front|);
      LastReply(o, after);
      assert ScoresIn(o, after, |log|, |names|) == ScoresIn(o, after, |log|, |front|) + [ScoreAt(o, after, |after| - 1)];
    } else {
      assert log + [] == log;
    }
  }

  /** The option's considerations were the calls from `at` on, and its score is the product of what they were
      answered, times its weight. */
  ghost predicate ScoredBy(o: Oracle, option: UtilityOption, log: seq<Call>, at: nat, s: Utility.UtilityScore) {
    var n := |option.considerations|;
    at + n <= |log| && s == Utility.Score(option, ScoresIn(o, log, at, n))
  }

  /** Where the considerations of option `i` begin. */
  function Offset(options: seq<UtilityOption>, ctx: Context, log: seq<Call>, i: nat): nat
    requires i <= |options|
  {
    |log| + |Considerations(options[..i], ctx)|
  }

  lemma OffsetFront(front: seq<UtilityOption>, last: UtilityOption, ctx: Context, log: seq<Call>, i: nat)
    requires i <= |front|
    ensures Offset(front + [last], ctx, log, i) == Offset(front, ctx, log, i)
  {
    assert (front + [last])[..i] == front[..i];
  }

  ghost predicate AllScored(o: Oracle, options: seq<UtilityOption>, ctx: Context, log: seq<Call>, asked: seq<Call>, scores: seq<Utility.UtilityScore>)
    requires |scores| == |options|
  {
    forall i | 0 <= i < |options| :: ScoredBy(o, options[i], asked, Offset(options, ctx, log, i), scores[i])
  }

  lemma AllScoredSnoc(o: Oracle, front: seq<UtilityOption>, last: UtilityOption, ctx: Context, log: seq<Call>,
                      before: seq<Call>, after: seq<Call>, scores: seq<Utility.UtilityScore>, s: Utility.UtilityScore)
    requires |scores| == |front| && before <= after && |before| == Offset(front, ctx, log, |front|)
    requires AllScored(o, front, ctx, log, before, scores) && ScoredBy(o, last, after, |before|, s)
    ensures AllScored(o, front + [last], ctx, log, after, scores + [s])
  {
    hide ScoredBy, Offset;
    var options := front + [last];
    forall i | 0 <= i < |options| ensures ScoredBy(o, options[i], after, Offset(options, ctx, log, i), (scores + [s])[i]) {
      OffsetFront(front, last, ctx, log, i);
      if i < |front| {
        ScoreStays(o, front[i], before, after, Offset(front, ctx, log, i), scores[i]);
      }
    }
  }

  lemma {:induction false} ScoreCalls(o: Oracle, options: seq<UtilityOption>, ctx: Context, log: seq<Call>)
    ensures var (scores, after) := Utility.ScoreAll(o, options, ctx, log);
            |scores| == |options| && after == log + Considerations(options, ctx) && AllScored(o, options, ctx, log, after, scores)
    decreases |options|
  {
    hide Utility.Consider, Utility.Score, ScoresIn, Asks, AllScored;
    if options == [] {
      assert AllScored(o, [], ctx, log, log, []) by { NothingScored(o, ctx, log); }
    } else {
      var (front, last) := (options[..|options| - 1], options[|options| - 1]);
      ScoreCalls(o, front, ctx, log);
      var (scores, before) := Utility.ScoreAll(o, front, ctx, log);
      var after := before + Asks(last.considerations, ctx);
      ConsiderCalls(o, last.considerations, ctx, before);
      assert front[..|front|] == front && options == front + [last];
      AllScoredSnoc(o, front, last, ctx, log, before, after, scores, Utility.Score(last, ScoresIn(o, after, |before|, |last.considerations|)));
    }
  }

  lemma NothingScored(o: Oracle, ctx: Context, log: seq<Call>)
    ensures AllScored(o, [], ctx, log, log, [])
  {
  }

  lemma ScoreStays(o: Oracle, option: UtilityOption, before: seq<Call>, after: seq<Call>, at: nat, s: Utility.UtilityScore)
    requires before <= after && ScoredBy(o, option, before, at, s)
    ensures ScoredBy(o, option, after, at, s)
  {
    ScoresStay(o, before, after, at, |option.considerations|);
    hide ScoresIn, Utility.Score;
  }

  ghost predicate IsChosen(scores: seq<Utility.UtilityScore>, i: nat) {
    && i < |scores| && scores[i].final > 0.0
    && (forall j | 0 <= j < |scores| :: scores[j].final <= scores[i].final)
    && (forall j | i < j < |scores| :: scores[j].final < scores[i].final)
  }

  ghost predicate NoneScores(scores: seq<Utility.UtilityScore>) {
    forall i | 0 <= i < |scores| :: scores[i].final <= 0.0
  }

  /** What a utility node answers once its considerations have been `asked`: it fails if no score is above
      zero; otherwise it calls the action of the last option with the highest score, and answers what it is told. */
  ghost predicate ActsOn(o: Oracle, options: seq<UtilityOption>, ctx: Context, asked: Effects, scores: seq<Utility.UtilityScore>,
                         s: Status, after: Effects)
    requires |scores| == |options|
  {
    if NoneScores(scores) then s == Failure && after == asked
    else exists i: nat :: IsChosen(scores, i) && after.log == asked.log + [ActionCall(options[i].action, ctx)] && s == o(after.log).status
  }

  /** A utility node calls every consideration of every option in order, and acts on the scores. */
  lemma UtilityAnswers(o: Oracle, options: seq<UtilityOption>, ctx: Context, m: Mem, fx: Effects)
    requires Fits(UtilityLeaf(options), m)
    ensures var r := Run(o, UtilityLeaf(options), ctx, m, fx);
            && r.mem == m
            && if options == [] || !ctx.scriptFound then r.status == Failure && r.fx == fx
               else
                 var asked := fx.(log := fx.log + Considerations(options, ctx));
                 exists scores | |scores| == |options| ::
                   AllScored(o, options, ctx, fx.log, asked.log, scores) && ActsOn(o, options, ctx, asked, scores, r.status, r.fx)
  {
    var r := Run(o, UtilityLeaf(options), ctx, m, fx);
    assert (r.status, r.fx) == RunUtility(o, options, ctx, fx) && r.mem == m;
    hide Run;
    if options != [] && ctx.scriptFound {
      var (scores, log) := Utility.ScoreAll(o, options, ctx, fx.log);
      ScoreCalls(o, options, ctx, fx.log);
      ActsOnScores(o, options, ctx, fx, scores, log);
      hide ActsOn, AllScored, RunUtility, Considerations;
    }
  }

  lemma ActsOnScores(o: Oracle, options: seq<UtilityOption>, ctx: Context, fx: Effects, scores: seq<Utility.UtilityScore>, log: seq<Call>)
    requires options != [] && ctx.scriptFound && (scores, log) == Utility.ScoreAll(o, options, ctx, fx.log)
    requires |scores| == |options| && AllScored(o, options, ctx, fx.log, log, scores)
    ensures var (s, after) := RunUtility(o, options, ctx, fx); ActsOn(o, options, ctx, fx.(log := log), scores, s, after)
  {
    Utility.BestIsHighest(scores);
    var best := Utility.Best(scores);
    if best.Some? {
      assert scores[best.value].option == options[best.value] by { OptionOf(o, options, ctx, fx.log, log, scores, best.value); }
      hide Utility.ScoreAll, Utility.Best, AllScored, ActsOn, RunAction;
      ActsOnChosen(o, options, ctx, fx.(log := log), scores, best.value);
    } else {
      hide Utility.ScoreAll, Utility.Best, AllScored, RunAction;
      assert NoneScores(scores);
    }
  }

  lemma OptionOf(o: Oracle, options: seq<UtilityOption>, ctx: Context, log: seq<Call>, asked: seq<Call>, scores: seq<Utility.UtilityScore>, i: nat)
    requires |scores| == |options| && i < |options| && AllScored(o, options, ctx, log, asked, scores)
    ensures scores[i].option == options[i]
  {
    hide Offset;
    assert ScoredBy(o, options[i], asked, Offset(options, ctx, log, i), scores[i]);
  }

  lemma ActsOnChosen(o: Oracle, options: seq<UtilityOption>, ctx: Context, asked: Effects, scores: seq<Utility.UtilityScore>, i: nat)
    requires |scores| == |options| && ctx.scriptFound && IsChosen(scores, i)
    ensures var (s, after) := RunAction(o, options[i].action, ctx, asked); ActsOn(o, options, ctx, asked, scores, s, after)
  {
    hide Merge;
    assert !NoneScores(scores);
  }

  // ---------- the data of a tick ----------

  /** What the replies to the actions called since `n` add up to. */
  function Gathered(o: Oracle, pending: Option<Data>, log: seq<Call>, n: nat): Option<Data> {
    if |log| <= n then pending
    else
      var before := Gathered(o, pending, log[..|log| - 1], n);
      if log[|log| - 1].ActionCall? then Merge(before, o(log).data) else before
  }

  /** What was last said about a key. */
  function LastSaid(o: Oracle, log: seq<Call>, n: nat, key: string): Option<string> {
    if |log| <= n then None
    else if log[|log| - 1].ActionCall? && key in o(log).data.GetOr(map[]) then Some(o(log).data.value[key])
    else LastSaid(o, log[..|log| - 1], n, key)
  }

  ghost predicate SomeData(o: Oracle, log: seq<Call>, n: nat) {
    exists k :: n <= k < |log| && log[k].ActionCall? && ReplyAt(o, log, k).data.Some?
  }

  lemma SomeDataSnoc(o: Oracle, log: seq<Call>, n: nat)
    requires n < |log|
    ensures SomeData(o, log, n) <==> SomeData(o, log[..|log| - 1], n) || (log[|log| - 1].ActionCall? && o(log).data.Some?)
  {
    var front := log[..|log| - 1];
    LastReply(o, log);
    forall k: nat | k < |front| ensures ReplyAt(o, front, k) == ReplyAt(o, log, k) {
      SameReply(o, front, log, k);
    }
  }

  /** The data collected from nothing, key by key: the last reply that has the key decides. */
  lemma {:induction false} GatheredByKey(o: Oracle, log: seq<Call>, n: nat)
    ensures Gathered(o, None, log, n).Some? <==> SomeData(o, log, n)
    ensures forall key :: Get(Gathered(o, None, log, n).GetOr(map[]), key) == LastSaid(o, log, n, key)
    decreases |log|
  {
    if n < |log| {
      GatheredByKey(o, log[..|log| - 1], n);
      SomeDataSnoc(o, log, n);
      hide SomeData;
    }
  }

  /** Only calls about this tick are added, and the data is what the replies to them add up to. */
  ghost predicate Grew(o: Oracle, ctx: Context, fx: Effects, after: Effects) {
    && fx.log <= after.log
    && (forall k | |fx.log| <= k < |after.log| :: after.log[k].at == ctx)
    && after.pending == Gathered(o, fx.pending, after.log, |fx.log|)
  }

  lemma GrewNothing(o: Oracle, ctx: Context, fx: Effects)
    ensures Grew(o, ctx, fx, fx)
  {
  }

  lemma {:induction false} GatheredInParts(o: Oracle, pending: Option<Data>, log: seq<Call>, i: nat, j: nat)
    requires i <= j <= |log|
    ensures Gathered(o, pending, log, i) == Gathered(o, Gathered(o, pending, log[..j], i), log, j)
    decreases |log|
  {
    hide Merge;
    if j < |log| {
      GatheredInParts(o, pending, log[..|log| - 1], i, j);
      assert log[..|log| - 1][..j] == log[..j];
    } else {
      assert log[..j] == log;
    }
  }

  lemma GrewOn(o: Oracle, ctx: Context, a: Effects, b: Effects, c: Effects)
    requires Grew(o, ctx, a, b) && Grew(o, ctx, b, c)
    ensures Grew(o, ctx, a, c)
  {
    assert c.log[..|b.log|] == b.log;
    GatheredInParts(o, a.pending, c.log, |a.log|, |b.log|);
    hide Gathered;
  }

  lemma GrewByAction(o: Oracle, name: string, ctx: Context, fx: Effects)
    ensures Grew(o, ctx, fx, TreeSemantics.RunAction(o, name, ctx, fx).1)
  {
    hide Merge;
    var log := fx.log + [ActionCall(name, ctx)];
    assert log[..|log| - 1] == fx.log;
    assert Gathered(o, fx.pending, fx.log, |fx.log|) == fx.pending;
  }

  lemma {:induction false} GatheredNothing(o: Oracle, pending: Option<Data>, log: seq<Call>, n: nat)
    requires forall k | n <= k < |log| :: !log[k].ActionCall?
    ensures Gathered(o, pending, log, n) == pending
    decreases |log|
  {
    if n < |log| {
      GatheredNothing(o, pending, log[..|log| - 1], n);
    }
  }

  lemma GrewByUtility(o: Oracle, options: seq<UtilityOption>, ctx: Context, fx: Effects)
    ensures Grew(o, ctx, fx, TreeSemantics.RunUtility(o, options, ctx, fx).1)
  {
    hide TreeSemantics.RunAction, Grew, Utility.Best, Utility.ScoreAll;
    if options == [] || !ctx.scriptFound {
      GrewNothing(o, ctx, fx);
    } else {
      var (scores, log) := Utility.ScoreAll(o, options, ctx, fx.log);
      GrewByScoring(o, options, ctx, fx);
      var best := Utility.Best(scores);
      if best.Some? {
        GrewByAction(o, scores[best.value].option.action, ctx, fx.(log := log));
        GrewOn(o, ctx, fx, fx.(log := log), TreeSemantics.RunAction(o, scores[best.value].option.action, ctx, fx.(log := log)).1);
      }
    }
  }

  lemma GrewByScoring(o: Oracle, options: seq<UtilityOption>, ctx: Context, fx: Effects)
    ensures Grew(o, ctx, fx, fx.(log := Utility.ScoreAll(o, options, ctx, fx.log).1))
  {
    ScoreCalls(o, options, ctx, fx.log);
    var after := fx.log + Considerations(options, ctx);
    hide Considerations, Utility.ScoreAll, AllScored;
    forall k | |fx.log| <= k < |after| ensures after[k].ConsiderCall? && after[k].at == ctx {
      assert after[k] == Considerations(options, ctx)[k - |fx.log|];
    }
    GatheredNothing(o, fx.pending, after, |fx.log|);
  }

  /** Whatever the tree: a tick adds calls about itself to the log, and to the data what the replies to its
      actions say. */
  lemma {:induction false} RunGrows(o: Oracle, t: Tree, ctx: Context, m: Mem, fx: Effects)
    requires Fits(t, m)
    ensures Grew(o, ctx, fx, Run(o, t, ctx, m, fx).fx)
    decreases t, 0
  {
    hide Grew, TreeSemantics.RunAction, TreeSemantics.RunUtility;
    match t
    case Composite(goOn, kids) => CompositeGrows(o, goOn, kids, IndexOf(m), ctx, m, fx);
    case Force(kids) => ForceGrows(o, kids, 0, false, true, ctx, m, fx);
    case Deco(kind, kid) =>
      assert Kids(t) == [kid];
      GrewNothing(o, ctx, fx);
      RunGrows(o, kid, ctx, m.kids[0], fx);
      DecoCalls(o, kind, kid, ctx, m, fx);
    case ActionLeaf(name) => GrewByAction(o, name, ctx, fx);
    case ConditionLeaf(name) => GrewByCondition(o, name, ctx, m, fx);
    case UtilityLeaf(options) => GrewByUtility(o, options, ctx, fx);
    case Sub(_, body) =>
      assert Kids(t) == [body];
      RunGrows(o, body, ctx, m.kids[0], fx);
    case _ => GrewNothing(o, ctx, fx);
  }

  lemma GrewByCondition(o: Oracle, name: string, ctx: Context, m: Mem, fx: Effects)
    ensures Grew(o, ctx, fx, RunCondition(o, name, ctx, fx).1)
  {
    var log := fx.log + [ConditionCall(name, ctx)];
    assert log[..|log| - 1] == fx.log;
  }

  /** A decorator makes the calls of its child, or none. */
  lemma DecoCalls(o: Oracle, kind: DecoratorKind, kid: Tree, ctx: Context, m: Mem, fx: Effects)
    requires Fits(Deco(kind, kid), m)
    ensures |m.kids| == 1 && Fits(kid, m.kids[0])
    ensures Run(o, Deco(kind, kid), ctx, m, fx).fx == if Blocked(kind, ctx, m) then fx else Run(o, kid, ctx, m.kids[0], fx).fx
  {
    assert Kids(Deco(kind, kid)) == [kid];
    assert Run(o, Deco(kind, kid), ctx, m, fx) == RunDeco(o, kind, kid, ctx, m, fx);
    match kind
    case Repeat(count) => assert RunDeco(o, kind, kid, ctx, m, fx) == RunRepeat(o, count, kid, ctx, m, fx);
    case Cooldown(seconds) => assert RunDeco(o, kind, kid, ctx, m, fx) == RunCooldown(o, seconds, kid, ctx, m, fx);
    case RunOnce => assert RunDeco(o, kind, kid, ctx, m, fx) == RunRunOnce(o, kid, ctx, m, fx);
    case Timeout(limit) => assert RunDeco(o, kind, kid, ctx, m, fx) == RunTimeout(o, limit, kid, ctx, m, fx);
    case _ =>
  }

  lemma {:induction false} CompositeGrows(o: Oracle, goOn: Status, kids: seq<Tree>, i: nat, ctx: Context, m: Mem, fx: Effects)
    requires Fits(Composite(goOn, kids), m)
    ensures Grew(o, ctx, fx, RunComposite(o, goOn, kids, i, ctx, m, fx).fx)
    decreases kids, |kids| - i
  {
    hide Grew, Run;
    assert Kids(Composite(goOn, kids)) == kids;
    if i >= |kids| {
      GrewNothing(o, ctx, fx);
    } else {
      RunGrows(o, kids[i], ctx, m.kids[i], fx);
      var r := Run(o, kids[i], ctx, m.kids[i], fx);
      if r.status != Running && r.status == goOn {
        var n := m.(kids := m.kids[i := r.mem]);
        CompositeGrows(o, goOn, kids, i + 1, ctx, n, r.fx);
        GrewOn(o, ctx, fx, r.fx, RunComposite(o, goOn, kids, i + 1, ctx, n, r.fx).fx);
      }
    }
  }

  lemma {:induction false} ForceGrows(o: Oracle, kids: seq<Tree>, i: nat, x: bool, y: bool, ctx: Context, m: Mem, fx: Effects)
    requires Fits(Force(kids), m)
    ensures Grew(o, ctx, fx, RunForce(o, kids, i, x, y, ctx, m, fx).fx)
    decreases kids, |kids| - i
  {
    hide Grew, Run;
    assert Kids(Force(kids)) == kids;
    if i >= |kids| {
      GrewNothing(o, ctx, fx);
    } else {
      RunGrows(o, kids[i], ctx, m.kids[i], fx);
      var r := Run(o, kids[i], ctx, m.kids[i], fx);
      var n := m.(kids := m.kids[i := r.mem]);
      ForceGrows(o, kids, i + 1, x || r.status == Running, y && r.status != Failure, ctx, n, r.fx);
      GrewOn(o, ctx, fx, r.fx, RunForce(o, kids, i + 1, x || r.status == Running, y && r.status != Failure, ctx, n, r.fx).fx);
    }
  }

  /** The data handed out after a run is what the replies to the actions called in it say, key by key: there
      is some exactly when some reply has some, and of two replies that have a key the later one decides. */
  lemma TickData(o: Oracle, t: Tree, ctx: Context, m: Mem, log: seq<Call>)
    requires Fits(t, m)
    ensures var fx := Tick(o, t, ctx, m, log).fx;
            && log <= fx.log && (forall k | |log| <= k < |fx.log| :: fx.log[k].at == ctx)
            && (fx.pending.Some? <==> SomeData(o, fx.log, |log|))
            && forall key :: Get(fx.pending.GetOr(map[]), key) == LastSaid(o, fx.log, |log|, key)
  {
    RunGrows(o, t, ctx, m, Effects(log, None));
    GatheredByKey(o, Tick(o, t, ctx, m, log).fx.log, |log|);
    hide Run, SomeData, LastSaid, Gathered;
  }
}
