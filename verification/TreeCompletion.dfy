/** A node that completes leaves nothing behind: once it returns Success or Failure there is no child
    index, repeat count or wait count at or below it. The three decorators that complete over a Running
    child are admitted only over children that count nothing, and shown to break it over others. */
module TreeCompletion {
  import opened Prelude
  import opened BehaviorTree
  import opened TreeSemantics
  import opened NodePaths
  import opened TreeHistory

  /** Nothing that counts children, repetitions or ticks, and no timeout. */
  ghost predicate CountsNothing(t: Tree)
    decreases t
  {
    && !t.Composite? && !t.Delay? && (t.Deco? ==> !t.kind.Repeat? && !t.kind.Timeout?)
    && forall i | 0 <= i < |Kids(t)| :: CountsNothing(Kids(t)[i])
  }

  /** The decorators that may complete while their child is Running. */
  predicate Masks(kind: DecoratorKind) {
    kind.Timeout? || kind.AlwaysSucceed? || kind.AlwaysFail?
  }

  /** These have only children that count nothing. */
  ghost predicate MasksNoCount(t: Tree)
    decreases t
  {
    && (t.Deco? && Masks(t.kind) ==> CountsNothing(t.kid))
    && forall i | 0 <= i < |Kids(t)| :: MasksNoCount(Kids(t)[i])
  }

  /** Every expansion is well formed, so only the masks matter. */
  ghost predicate Unmasked(t: Tree) {
    WellFormed(t) && MasksNoCount(t)
  }

  /** What a completed node may keep of its own: the time of a cooldown, the result of a run-once. */
  ghost predicate KeptOnly(t: Tree, own: Option<NodeState>) {
    match own
    case None => true
    case Some(s) =>
      t.Deco? && match t.kind
                 case Cooldown(_) => s == DEFAULT_STATE.(lastExecution := s.lastExecution)
                 case RunOnce => s == DEFAULT_STATE.(storedResult := s.storedResult)
                 case _ => false
  }

  /** An expired timeout keeps its start time. */
  ghost predicate StartKept(t: Tree, start: Option<NodeState>) {
    start.Some? ==> t.Deco? && t.kind.Timeout?
  }

  ghost predicate Clean(t: Tree, m: Mem)
    requires Fits(t, m)
    decreases t
  {
    && KeptOnly(t, m.own)
    && StartKept(t, m.start)
    && forall i | 0 <= i < |Kids(t)| :: Clean(Kids(t)[i], m.kids[i])
  }

  /** What the node itself holds between ticks, `now` being the time of the last tick. */
  ghost predicate OwnSound(t: Tree, m: Mem, now: real)
    requires Fits(t, m)
  {
    match t
    case Composite(_, kids) =>
      && (m.own.Some? ==> IndexOf(m) < |kids| && m.own.value == DEFAULT_STATE.(childIndex := IndexOf(m)))
      && forall j | 0 <= j < |kids| && (m.own.None? || j != IndexOf(m)) :: Clean(kids[j], m.kids[j])
    case Deco(Repeat(count), kid) =>
      m.own.Some? ==>
        && m.own.value == DEFAULT_STATE.(repeatCount := m.own.value.repeatCount)
        && (count.Some? && m.own.value.repeatCount >= count.value ==> Clean(kid, m.kids[0]))
    case Deco(Cooldown(seconds), kid) =>
      && KeptOnly(t, m.own)
      && (m.own.Some? && m.own.value.lastExecution.Some? && now - m.own.value.lastExecution.value < seconds
          ==> Clean(kid, m.kids[0]))
    case Deco(RunOnce, kid) =>
      && KeptOnly(t, m.own)
      && (m.own.Some? && m.own.value.storedResult.Some? ==> Clean(kid, m.kids[0]))
    case Delay(_) => m.own.Some? ==> m.own.value == DEFAULT_STATE.(ticksWaited := m.own.value.ticksWaited)
    case _ => m.own.None?
  }

  ghost predicate Sound(t: Tree, m: Mem, now: real)
    requires Fits(t, m)
    decreases t
  {
    && OwnSound(t, m, now)
    && StartKept(t, m.start)
    && forall i | 0 <= i < |Kids(t)| :: Sound(Kids(t)[i], m.kids[i], now)
  }

  lemma {:induction false} CleanIsSound(t: Tree, m: Mem, now: real)
    requires Fits(t, m) && Clean(t, m)
    ensures Sound(t, m, now)
    decreases t
  {
    forall i | 0 <= i < |Kids(t)| ensures Sound(Kids(t)[i], m.kids[i], now) {
      CleanIsSound(Kids(t)[i], m.kids[i], now);
    }
    match t
    case Composite(_, kids) => assert forall j | 0 <= j < |kids| :: Kids(t)[j] == kids[j];
    case Deco(_, kid) => assert Kids(t)[0] == kid;
    case _ =>
  }

  /** What counts nothing is clean in every state. */
  lemma {:induction false} CountlessIsClean(t: Tree, m: Mem, now: real)
    requires Fits(t, m) && CountsNothing(t) && Sound(t, m, now)
    ensures Clean(t, m)
    decreases t
  {
    forall i | 0 <= i < |Kids(t)| ensures Clean(Kids(t)[i], m.kids[i]) {
      CountlessIsClean(Kids(t)[i], m.kids[i], now);
    }
  }

  lemma {:induction false} SoundLater(t: Tree, m: Mem, now: real, later: real)
    requires Fits(t, m) && Sound(t, m, now) && now <= later
    ensures Sound(t, m, later)
    decreases t
  {
    forall i | 0 <= i < |Kids(t)| ensures Sound(Kids(t)[i], m.kids[i], later) {
      SoundLater(Kids(t)[i], m.kids[i], now, later);
    }
  }

  lemma {:induction false} FreshIsClean(t: Tree)
    ensures Clean(t, Fresh(t))
    decreases t
  {
    forall i | 0 <= i < |Kids(t)| ensures Clean(Kids(t)[i], Fresh(t).kids[i]) {
      FreshIsClean(Kids(t)[i]);
    }
  }

  /** What one tick at time `now` must establish. */
  ghost predicate Good(t: Tree, r: Out, now: real)
    requires Fits(t, r.mem)
  {
    Sound(t, r.mem, now) && (r.status != Running ==> Clean(t, r.mem))
  }

  lemma {:induction false} TickKeepsSound(o: Oracle, t: Tree, ctx: Context, m: Mem, fx: Effects, past: real)
    requires Fits(t, m) && Unmasked(t) && Sound(t, m, past) && past <= ctx.gameTime
    ensures Good(t, Run(o, t, ctx, m, fx), ctx.gameTime)
    decreases t, 0
  {
    SoundLater(t, m, past, ctx.gameTime);
    var now := ctx.gameTime;
    match t
    case Composite(goOn, kids) =>
      assert forall j | 0 <= j < |kids| :: Kids(t)[j] == kids[j];
      CompositeKeepsSound(o, goOn, kids, IndexOf(m), ctx, m, fx);
    case Force(kids) =>
      assert forall j | 0 <= j < |kids| :: Kids(t)[j] == kids[j];
      ForceKeepsSound(o, kids, 0, false, true, ctx, m, fx);
    case Deco(kind, kid) =>
      DecoKeepsSound(o, kind, kid, ctx, m, fx);
    case Sub(_, body) =>
      assert Kids(t)[0] == body;
      TickKeepsSound(o, body, ctx, m.kids[0], fx, now);
    case _ =>
  }

  /** A composite that stops at child `i`, or forgets where it was. */
  lemma CompositeStops(goOn: Status, kids: seq<Tree>, i: nat, m: Mem, now: real)
    requires Fits(Composite(goOn, kids), m) && m.start.None?
    requires forall j | 0 <= j < |kids| :: Fits(kids[j], m.kids[j]) && Sound(kids[j], m.kids[j], now)
    requires forall j | 0 <= j < |kids| && (j != i || m.own.None?) :: Clean(kids[j], m.kids[j])
    requires m.own.Some? ==> i < |kids| && m.own.value == DEFAULT_STATE.(childIndex := i)
    ensures Sound(Composite(goOn, kids), m, now)
    ensures m.own.None? ==> Clean(Composite(goOn, kids), m)
  {
    assert Kids(Composite(goOn, kids)) == kids;
  }

  lemma {:induction false} CompositeKeepsSound(o: Oracle, goOn: Status, kids: seq<Tree>, i: nat, ctx: Context, m: Mem, fx: Effects)
    requires goOn != Running && Fits(Composite(goOn, kids), m) && m.start.None?
    requires m.own.Some? ==> m.own.value == DEFAULT_STATE.(childIndex := IndexOf(m))
    requires forall j | 0 <= j < |kids| :: Unmasked(kids[j]) && Fits(kids[j], m.kids[j]) && Sound(kids[j], m.kids[j], ctx.gameTime)
    requires forall j | 0 <= j < |kids| && j != i :: Clean(kids[j], m.kids[j])
    ensures Good(Composite(goOn, kids), RunComposite(o, goOn, kids, i, ctx, m, fx), ctx.gameTime)
    decreases kids, |kids| - i
  {
    hide Sound, Clean, WellFormed, MasksNoCount, Run;
    var t := Composite(goOn, kids);
    assert Kids(t) == kids;
    if i >= |kids| {
      CompositeStops(goOn, kids, 0, m.(own := None), ctx.gameTime);
    } else {
      TickKeepsSound(o, kids[i], ctx, m.kids[i], fx, ctx.gameTime);
      var r := Run(o, kids[i], ctx, m.kids[i], fx);
      var m' := m.(kids := m.kids[i := r.mem]);
      if r.status == Running {
        CompositeStops(goOn, kids, i, m'.(own := Some(m.own.GetOr(DEFAULT_STATE).(childIndex := i))), ctx.gameTime);
      } else if r.status != goOn {
        CompositeStops(goOn, kids, i, m'.(own := None), ctx.gameTime);
      } else {
        forall j | 0 <= j < |kids| && j != i + 1 ensures Clean(kids[j], m'.kids[j]) {
          assert j == i || m'.kids[j] == m.kids[j];
        }
        CompositeKeepsSound(o, goOn, kids, i + 1, ctx, m', r.fx);
      }
    }
  }

  lemma {:induction false} ForceKeepsSound(o: Oracle, kids: seq<Tree>, i: nat, anyRunning: bool, allSuccess: bool,
                                           ctx: Context, m: Mem, fx: Effects)
    requires Fits(Force(kids), m) && m.start.None? && m.own.None? && i <= |kids|
    requires forall j | 0 <= j < |kids| :: Unmasked(kids[j]) && Fits(kids[j], m.kids[j]) && Sound(kids[j], m.kids[j], ctx.gameTime)
    requires anyRunning || forall j | 0 <= j < i :: Clean(kids[j], m.kids[j])
    ensures Good(Force(kids), RunForce(o, kids, i, anyRunning, allSuccess, ctx, m, fx), ctx.gameTime)
    decreases kids, |kids| - i
  {
    var t := Force(kids);
    assert Kids(t) == kids;
    if i < |kids| {
      TickKeepsSound(o, kids[i], ctx, m.kids[i], fx, ctx.gameTime);
      var r := Run(o, kids[i], ctx, m.kids[i], fx);
      ForceKeepsSound(o, kids, i + 1, anyRunning || r.status == Running, allSuccess && r.status != Failure,
                      ctx, m.(kids := m.kids[i := r.mem]), r.fx);
    }
  }

  lemma {:induction false} DecoKeepsSound(o: Oracle, kind: DecoratorKind, kid: Tree, ctx: Context, m: Mem, fx: Effects)
    requires Fits(Deco(kind, kid), m) && Unmasked(Deco(kind, kid)) && Sound(Deco(kind, kid), m, ctx.gameTime)
    ensures Good(Deco(kind, kid), RunDeco(o, kind, kid, ctx, m, fx), ctx.gameTime)
    decreases kid, 1
  {
    assert Kids(Deco(kind, kid))[0] == kid;
    TickKeepsSound(o, kid, ctx, m.kids[0], fx, ctx.gameTime);
    if Masks(kind) {
      CountlessIsClean(kid, Run(o, kid, ctx, m.kids[0], fx).mem, ctx.gameTime);
      CountlessIsClean(kid, m.kids[0], ctx.gameTime);
    }
    hide Run, WellFormed, MasksNoCount, RunDeco, Good;
    match kind
    case Repeat(count) => RepeatKeepsSound(o, count, kid, ctx, m, fx);
    case Cooldown(seconds) => CooldownKeepsSound(o, seconds, kid, ctx, m, fx);
    case RunOnce => RunOnceKeepsSound(o, kid, ctx, m, fx);
    case Timeout(limit) => TimeoutKeepsSound(o, limit, kid, ctx, m, fx);
    case _ => StatelessKeepsSound(o, kind, kid, ctx, m, fx);
  }

  /** The decorator is sound, and running its child leaves that good. */
  ghost predicate ChildGood(o: Oracle, kind: DecoratorKind, kid: Tree, ctx: Context, m: Mem, fx: Effects) {
    && Fits(Deco(kind, kid), m) && Sound(Deco(kind, kid), m, ctx.gameTime)
    && |m.kids| == 1 && Fits(kid, m.kids[0]) && Sound(kid, m.kids[0], ctx.gameTime)
    && Good(kid, Run(o, kid, ctx, m.kids[0], fx), ctx.gameTime)
    && (Masks(kind) ==> Clean(kid, m.kids[0]) && Clean(kid, Run(o, kid, ctx, m.kids[0], fx).mem))
  }

  lemma RepeatKeepsSound(o: Oracle, count: Option<nat>, kid: Tree, ctx: Context, m: Mem, fx: Effects)
    requires ChildGood(o, Repeat(count), kid, ctx, m, fx)
    ensures Good(Deco(Repeat(count), kid), RunDeco(o, Repeat(count), kid, ctx, m, fx), ctx.gameTime)
  {
    assert Kids(Deco(Repeat(count), kid)) == [kid];
    assert RunDeco(o, Repeat(count), kid, ctx, m, fx) == RunRepeat(o, count, kid, ctx, m, fx);
    hide Run;
  }

  lemma CooldownKeepsSound(o: Oracle, seconds: real, kid: Tree, ctx: Context, m: Mem, fx: Effects)
    requires ChildGood(o, Cooldown(seconds), kid, ctx, m, fx)
    ensures Good(Deco(Cooldown(seconds), kid), RunDeco(o, Cooldown(seconds), kid, ctx, m, fx), ctx.gameTime)
  {
    assert Kids(Deco(Cooldown(seconds), kid)) == [kid];
    assert RunDeco(o, Cooldown(seconds), kid, ctx, m, fx) == RunCooldown(o, seconds, kid, ctx, m, fx);
    hide Run;
  }

  lemma RunOnceKeepsSound(o: Oracle, kid: Tree, ctx: Context, m: Mem, fx: Effects)
    requires ChildGood(o, RunOnce, kid, ctx, m, fx)
    ensures Good(Deco(RunOnce, kid), RunDeco(o, RunOnce, kid, ctx, m, fx), ctx.gameTime)
  {
    assert Kids(Deco(RunOnce, kid)) == [kid];
    assert RunDeco(o, RunOnce, kid, ctx, m, fx) == RunRunOnce(o, kid, ctx, m, fx);
    hide Run;
  }

  lemma TimeoutKeepsSound(o: Oracle, limit: real, kid: Tree, ctx: Context, m: Mem, fx: Effects)
    requires ChildGood(o, Timeout(limit), kid, ctx, m, fx)
    ensures Good(Deco(Timeout(limit), kid), RunDeco(o, Timeout(limit), kid, ctx, m, fx), ctx.gameTime)
  {
    assert Kids(Deco(Timeout(limit), kid)) == [kid];
    assert RunDeco(o, Timeout(limit), kid, ctx, m, fx) == RunTimeout(o, limit, kid, ctx, m, fx);
    hide Run;
  }

  lemma StatelessKeepsSound(o: Oracle, kind: DecoratorKind, kid: Tree, ctx: Context, m: Mem, fx: Effects)
    requires ChildGood(o, kind, kid, ctx, m, fx) && !kind.Repeat? && !kind.Cooldown? && !kind.RunOnce? && !kind.Timeout?
    ensures Good(Deco(kind, kid), RunDeco(o, kind, kid, ctx, m, fx), ctx.gameTime)
  {
    assert Kids(Deco(kind, kid)) == [kid];
    hide Run;
  }

  /** In every state a run of ticks can reach, with time not going backwards. */
  lemma {:induction false} ReachableSound(o: Oracle, t: Tree, ctxs: seq<Context>, m: Mem, log: seq<Call>, past: real)
    requires Fits(t, m) && Unmasked(t) && Sound(t, m, past)
    requires TimesAscend(ctxs) && (ctxs != [] ==> past <= ctxs[0].gameTime)
    ensures Sound(t, After(o, t, ctxs, m, log).0, if ctxs == [] then past else ctxs[|ctxs| - 1].gameTime)
    decreases |ctxs|
  {
    if ctxs != [] {
      TickKeepsSound(o, t, ctxs[0], m, Effects(log, None), past);
      var r := Tick(o, t, ctxs[0], m, log);
      ReachableSound(o, t, ctxs[1..], r.mem, r.fx.log, ctxs[0].gameTime);
    }
  }

  /** What holds of a tree holds of each of its nodes. */
  lemma {:induction false} SoundAt(t: Tree, m: Mem, now: real, a: seq<nat>)
    requires IsAddress(t, a) && Fits(t, m) && Unmasked(t) && Sound(t, m, now)
    ensures Unmasked(NodeAt(t, a)) && Sound(NodeAt(t, a), MemAt(t, m, a), now)
    decreases |a|
  {
    if a != [] {
      SoundAt(Kids(t)[a[0]], m.kids[a[0]], now, a[1..]);
    }
  }

  /** One tick leaves every node that it completes clean, and every node sound. */
  lemma TickCleans(o: Oracle, t: Tree, ctx: Context, m: Mem, fx: Effects, past: real, a: seq<nat>)
    requires IsAddress(t, a) && Fits(t, m) && Unmasked(t) && Sound(t, m, past) && past <= ctx.gameTime
    requires Visit(o, t, ctx, m, fx, a).Some? && Visit(o, t, ctx, m, fx, a).value.status != Running
    ensures Clean(NodeAt(t, a), MemAt(t, Run(o, t, ctx, m, fx).mem, a))
  {
    SoundAt(t, m, past, a);
    MemoryChangesByVisit(o, t, ctx, m, fx, a);
    var fx' := VisitIsTick(o, t, ctx, m, fx, a);
    hide Visit, MemAt, NodeAt, Run, Sound, Clean;
    TickKeepsSound(o, NodeAt(t, a), ctx, MemAt(t, m, a), fx', past);
  }

  /** Clean completion: start from nothing, run any ticks, and look at the next one. Every node of the tree
      that it reaches and that completes leaves nothing behind, at it or below. */
  lemma CleanCompletion(o: Oracle, t: Tree, ctxs: seq<Context>, last: Context, log: seq<Call>, a: seq<nat>)
    requires Unmasked(t) && TimesAscend(ctxs + [last]) && IsAddress(t, a)
    ensures var (m, log') := After(o, t, ctxs, Fresh(t), log);
            var v := Visit(o, t, last, m, Effects(log', None), a);
            v.Some? && v.value.status != Running ==> Clean(NodeAt(t, a), MemAt(t, Tick(o, t, last, m, log').mem, a))
  {
    var past := if ctxs == [] then last.gameTime else ctxs[0].gameTime;
    FreshIsClean(t);
    CleanIsSound(t, Fresh(t), past);
    assert forall i | 0 <= i < |ctxs| :: (ctxs + [last])[i] == ctxs[i];
    ReachableSound(o, t, ctxs, Fresh(t), log, past);
    var (m, log') := After(o, t, ctxs, Fresh(t), log);
    assert ctxs != [] ==> (ctxs + [last])[|ctxs| - 1].gameTime <= (ctxs + [last])[|ctxs|].gameTime;
    hide Visit, MemAt, NodeAt, Run, Sound, Clean, Unmasked;
    if Visit(o, t, last, m, Effects(log', None), a).Some? && Visit(o, t, last, m, Effects(log', None), a).value.status != Running {
      TickCleans(o, t, last, m, Effects(log', None), if ctxs == [] then past else ctxs[|ctxs| - 1].gameTime, a);
    }
  }

  /** Without cooldowns, run-onces and timeouts a completed tree holds nothing at all: it starts over. */
  ghost predicate Forgetful(t: Tree)
    decreases t
  {
    && !(t.Deco? && (t.kind.Cooldown? || t.kind.RunOnce? || t.kind.Timeout?))
    && forall i | 0 <= i < |Kids(t)| :: Forgetful(Kids(t)[i])
  }

  lemma {:induction false} CleanForgetfulIsFresh(t: Tree, m: Mem)
    requires Fits(t, m) && Forgetful(t)
    ensures Clean(t, m) <==> m == Fresh(t)
    decreases t
  {
    forall i | 0 <= i < |Kids(t)| ensures Clean(Kids(t)[i], m.kids[i]) <==> m.kids[i] == Fresh(Kids(t)[i]) {
      CleanForgetfulIsFresh(Kids(t)[i], m.kids[i]);
    }
    assert Fresh(t).kids == seq(|Kids(t)|, i requires 0 <= i < |Kids(t)| => Fresh(Kids(t)[i]));
    if Clean(t, m) {
      assert m.kids == Fresh(t).kids;
    }
  }

  /** Under the path of the node there is no entry, or that of a cooldown or run-once with nothing else in
      it, and no start time but that of a timeout. */
  ghost predicate CleanAt(t: Tree, s: States, e: Id, p: string, a: seq<nat>)
    requires IsAddress(t, a)
  {
    KeptOnly(NodeAt(t, a), Get(s, (e, PathOf(t, p, a)))) && StartKept(NodeAt(t, a), Get(s, (e, PathOf(t, p, a) + START)))
  }

  lemma CleanBelow(t: Tree, s: States, e: Id, p: string, i: nat, a: seq<nat>)
    requires i < |Kids(t)| && IsAddress(Kids(t)[i], a)
    ensures IsAddress(t, [i] + a) && (CleanAt(t, s, e, p, [i] + a) <==> CleanAt(Kids(t)[i], s, e, p + Edge(t, i), a))
  {
    hide KeptOnly, Edge;
    assert ([i] + a)[1..] == a;
  }

  lemma CleanHere(t: Tree, s: States, e: Id, p: string)
    ensures IsAddress(t, [])
    ensures var m := View(t, s, e, p); CleanAt(t, s, e, p, []) <==> KeptOnly(t, m.own) && StartKept(t, m.start)
  {
    hide KeptOnly;
    assert p + "" == p;
  }

  /** On the runner's own map, a clean memory is one that is clean at the path of every node. */
  lemma {:induction false} CleanOnTheMap(t: Tree, s: States, e: Id, p: string)
    ensures Clean(t, View(t, s, e, p)) <==> forall a: seq<nat> | IsAddress(t, a) :: CleanAt(t, s, e, p, a)
    decreases t
  {
    hide KeptOnly, CleanAt, Edge, IsAddress;
    var m := View(t, s, e, p);
    CleanHere(t, s, e, p);
    forall i | 0 <= i < |Kids(t)| {
      CleanOnTheMap(Kids(t)[i], s, e, p + Edge(t, i));
    }
    if Clean(t, m) {
      forall a: seq<nat> | IsAddress(t, a) ensures CleanAt(t, s, e, p, a) {
        if a != [] {
          AddressBelow(t, a);
          assert Clean(Kids(t)[a[0]], m.kids[a[0]]);
          CleanBelow(t, s, e, p, a[0], a[1..]);
          assert a == [a[0]] + a[1..];
        }
      }
    }
    if forall a: seq<nat> | IsAddress(t, a) :: CleanAt(t, s, e, p, a) {
      forall i | 0 <= i < |Kids(t)| ensures Clean(Kids(t)[i], m.kids[i]) {
        forall a: seq<nat> | IsAddress(Kids(t)[i], a) ensures CleanAt(Kids(t)[i], s, e, p + Edge(t, i), a) {
          CleanBelow(t, s, e, p, i, a);
        }
      }
    }
  }

  lemma AddressBelow(t: Tree, a: seq<nat>)
    requires IsAddress(t, a) && a != []
    ensures a[0] < |Kids(t)| && IsAddress(Kids(t)[a[0]], a[1..])
  {
  }

  /** A decorator over a child that goes on waiting: the child's count goes up, whatever is reported. */
  lemma WaitUnder(o: Oracle, kind: DecoratorKind, ticks: nat, ctx: Context, m: Mem, fx: Effects)
    requires kind.AlwaysSucceed? || kind.AlwaysFail? || (kind.Timeout? && m.start.None?)
    requires Fits(Deco(kind, Delay(ticks)), m) && m.kids[0].own.GetOr(DEFAULT_STATE).ticksWaited + 1 < ticks
    ensures var r := Run(o, Deco(kind, Delay(ticks)), ctx, m, fx);
            && r.mem.kids[0].own == Some(m.kids[0].own.GetOr(DEFAULT_STATE).(ticksWaited := m.kids[0].own.GetOr(DEFAULT_STATE).ticksWaited + 1))
            && if kind.Timeout? then r.status == Running && r.mem.start == Some(DEFAULT_STATE.(lastExecution := Some(ctx.gameTime)))
               else r.status != Running
  {
    var k := Run(o, Delay(ticks), ctx, m.kids[0], fx);
    assert k.status == Running;
    assert Run(o, Deco(kind, Delay(ticks)), ctx, m, fx) == RunDeco(o, kind, Delay(ticks), ctx, m, fx);
    if kind.Timeout? {
      assert RunDeco(o, kind, Delay(ticks), ctx, m, fx) == RunTimeout(o, kind.limit, Delay(ticks), ctx, m, fx);
    }
  }

  lemma TimeoutExpires(o: Oracle, limit: real, kid: Tree, ctx: Context, m: Mem, fx: Effects)
    requires Fits(Deco(Timeout(limit), kid), m) && m.start.Some? && m.start.value.lastExecution.Some?
    requires ctx.gameTime - m.start.value.lastExecution.value > limit
    ensures Run(o, Deco(Timeout(limit), kid), ctx, m, fx) == Out(Failure, m, fx)
  {
    assert Run(o, Deco(Timeout(limit), kid), ctx, m, fx) == RunDeco(o, Timeout(limit), kid, ctx, m, fx)
        == RunTimeout(o, limit, kid, ctx, m, fx);
  }

  lemma WaitingIsNotClean(kind: DecoratorKind, ticks: nat, m: Mem)
    requires Fits(Deco(kind, Delay(ticks)), m) && m.kids[0].own.Some?
    ensures !Clean(Deco(kind, Delay(ticks)), m)
  {
    assert Kids(Deco(kind, Delay(ticks)))[0] == Delay(ticks);
    assert !Clean(Delay(ticks), m.kids[0]);
  }

  /** Each of the three excluded decorators completes over a child that is still waiting: forcing a
      status does at once, a timeout on the first tick past its limit. */
  lemma MasksLeaveWaits(o: Oracle, kind: DecoratorKind, ticks: nat, early: Context, late: Context, log: seq<Call>)
    requires ticks > 2
    requires kind.Timeout? ==> late.gameTime - early.gameTime > kind.limit
    requires kind.AlwaysSucceed? || kind.AlwaysFail? || kind.Timeout?
    ensures var t := Deco(kind, Delay(ticks));
            var r := Tick(o, t, early, Fresh(t), log);
            var q := Tick(o, t, late, r.mem, r.fx.log);
            && q.status != Running
            && q.mem.kids[0].own.Some? && q.mem.kids[0].own.value.ticksWaited > 0
            && !Clean(t, q.mem)
  {
    var t := Deco(kind, Delay(ticks));
    assert Fresh(t).kids[0] == Fresh(Kids(t)[0]) && Kids(t)[0] == Delay(ticks);
    hide Run, Clean;
    var r := Tick(o, t, early, Fresh(t), log);
    WaitUnder(o, kind, ticks, early, Fresh(t), Effects(log, None));
    if kind.Timeout? {
      TimeoutExpires(o, kind.limit, Delay(ticks), late, r.mem, Effects(r.fx.log, None));
    } else {
      WaitUnder(o, kind, ticks, late, r.mem, Effects(r.fx.log, None));
    }
    WaitingIsNotClean(kind, ticks, Tick(o, t, late, r.mem, r.fx.log).mem);
  }
}
