/** Exact timing of waits, over any contexts: how many ticks a sequence of waits and a repeated wait
    take from fresh memory. */
module TreeTiming {
  import opened Prelude
  import opened BehaviorTree
  import opened TreeSemantics

  /** The number of ticks `Wait(w)` takes on its own: it cannot finish before its first tick. */
  function Span(w: nat): (n: nat)
    ensures n >= 1
  {
    if w == 0 then 1 else w
  }

  function Waits(ws: seq<nat>): (ts: seq<Tree>)
    ensures |ts| == |ws| && forall i | 0 <= i < |ws| :: ts[i] == Delay(ws[i])
  {
    seq(|ws|, i requires 0 <= i < |ws| => Delay(ws[i]))
  }

  /** The ticks by which the waits from `i` on hold up a sequence: a wait starts on the tick on which
      the one before it ends. */
  function HeldUp(ws: seq<nat>, i: nat): nat
    decreases |ws| - i
  {
    if i >= |ws| then 0 else Span(ws[i]) - 1 + HeldUp(ws, i + 1)
  }

  /** Running until the last tick, which succeeds. */
  ghost predicate SucceedsLast(ss: seq<Status>) {
    && |ss| > 0
    && ss[|ss| - 1] == Success
    && forall k | 0 <= k < |ss| - 1 :: ss[k] == Running
  }

  function Waited(m: Mem): nat {
    m.own.GetOr(DEFAULT_STATE).ticksWaited
  }

  // ---------- a sequence of waits ----------

  /** Wait `i` has been waiting for `a` ticks, and the later ones have not started. */
  ghost predicate WaitingAt(ws: seq<nat>, m: Mem, i: nat, a: nat) {
    && Fits(Composite(Success, Waits(ws)), m)
    && (i < |ws| ==> Waited(m.kids[i]) == a < Span(ws[i]))
    && forall j | i < j < |ws| :: Waited(m.kids[j]) == 0
  }

  /** The ticks left, the successful one included. */
  function Left(ws: seq<nat>, i: nat, a: nat): int {
    if i >= |ws| then 1 else Span(ws[i]) - a + HeldUp(ws, i + 1)
  }

  lemma RunOfWait(o: Oracle, w: nat, ctx: Context, m: Mem, fx: Effects)
    requires Fits(Delay(w), m)
    ensures var r := Run(o, Delay(w), ctx, m, fx);
            && r.fx == fx
            && if Waited(m) + 1 >= w then r.status == Success && Waited(r.mem) == 0
               else r.status == Running && Waited(r.mem) == Waited(m) + 1
  {
  }

  lemma {:induction false} SequenceTick(o: Oracle, ws: seq<nat>, i: nat, a: nat, ctx: Context, m: Mem, fx: Effects)
    returns (j: nat, b: nat)
    requires WaitingAt(ws, m, i, a) && i <= |ws|
    ensures var r := RunComposite(o, Success, Waits(ws), i, ctx, m, fx);
            if Left(ws, i, a) == 1 then r.status == Success
            else r.status == Running && WaitingAt(ws, r.mem, j, b) && IndexOf(r.mem) == j < |ws|
                 && Left(ws, j, b) == Left(ws, i, a) - 1
    decreases |ws| - i
  {
    hide Run;
    j, b := i, a + 1;
    if i < |ws| {
      RunOfWait(o, ws[i], ctx, m.kids[i], fx);
      var t := Composite(Success, Waits(ws));
      assert Kids(t)[i] == Delay(ws[i]);
      var r := Run(o, Waits(ws)[i], ctx, m.kids[i], fx);
      var m' := m.(kids := m.kids[i := r.mem]);
      if a + 1 >= ws[i] {
        assert r.status == Success;
        j, b := SequenceTick(o, ws, i + 1, 0, ctx, m', r.fx);
      }
    }
  }

  lemma {:induction false} SequenceFrom(o: Oracle, ws: seq<nat>, i: nat, a: nat, ctxs: seq<Context>, m: Mem, log: seq<Call>)
    requires WaitingAt(ws, m, i, a) && IndexOf(m) == i <= |ws| && |ctxs| == Left(ws, i, a)
    ensures SucceedsLast(Statuses(o, Composite(Success, Waits(ws)), ctxs, m, log))
    decreases |ctxs|
  {
    var t := Composite(Success, Waits(ws));
    var j, b := SequenceTick(o, ws, i, a, ctxs[0], m, Effects(log, None));
    var r := Tick(o, t, ctxs[0], m, log);
    if |ctxs| > 1 {
      SequenceFrom(o, ws, j, b, ctxs[1..], r.mem, r.fx.log);
    }
  }

  /** A sequence of waits succeeds on exactly tick 1 + the sum of max(w, 1) - 1. */
  lemma SequenceOfWaits(o: Oracle, ws: seq<nat>, ctxs: seq<Context>, log: seq<Call>)
    requires |ctxs| == 1 + HeldUp(ws, 0)
    ensures SucceedsLast(Statuses(o, Composite(Success, Waits(ws)), ctxs, Fresh(Composite(Success, Waits(ws))), log))
  {
    var t := Composite(Success, Waits(ws));
    forall j | 0 <= j < |ws| ensures Waited(Fresh(t).kids[j]) == 0 {
      assert Fresh(t).kids[j] == Fresh(Kids(t)[j]);
    }
    SequenceFrom(o, ws, 0, 0, ctxs, Fresh(t), log);
  }

  // ---------- a repeated wait ----------

  function Repeated(n: nat, w: nat): Tree { Deco(Repeat(Some(n)), Delay(w)) }

  /** `q` repetitions are done and the next has been waiting for `a` ticks. */
  ghost predicate RepeatingAt(m: Mem, n: nat, w: nat, q: nat, a: nat) {
    && Fits(Repeated(n, w), m)
    && (if q == 0 then m.own.None? else m.own.Some? && m.own.value.repeatCount == q)
    && Waited(m.kids[0]) == a < Span(w)
  }

  /** The repetitions that happen: the count is only looked at once one has succeeded, so `Repeat(0)`
      still runs its child to one success. */
  function Times(n: nat): nat { if n == 0 then 1 else n }

  lemma RepeatTick(o: Oracle, n: nat, w: nat, q: nat, a: nat, ctx: Context, m: Mem, fx: Effects)
    requires RepeatingAt(m, n, w, q, a) && q < Times(n)
    ensures var r := Run(o, Repeated(n, w), ctx, m, fx);
            && r.status == Running
            && if a + 1 == Span(w) then RepeatingAt(r.mem, n, w, q + 1, 0) else RepeatingAt(r.mem, n, w, q, a + 1)
  {
    assert Kids(Repeated(n, w)) == [Delay(w)];
    var r := Run(o, Delay(w), ctx, m.kids[0], fx);
    assert r.status == if a + 1 == Span(w) then Success else Running;
    assert Run(o, Repeated(n, w), ctx, m, fx) == RunDeco(o, Repeat(Some(n)), Delay(w), ctx, m, fx)
        == RunRepeat(o, Some(n), Delay(w), ctx, m, fx);
  }

  lemma RepeatEnds(o: Oracle, n: nat, w: nat, ctx: Context, m: Mem, fx: Effects)
    requires RepeatingAt(m, n, w, Times(n), 0)
    ensures Fits(Repeated(n, w), m) && Run(o, Repeated(n, w), ctx, m, fx).status == Success
  {
    assert Kids(Repeated(n, w)) == [Delay(w)];
    assert Run(o, Repeated(n, w), ctx, m, fx) == RunDeco(o, Repeat(Some(n)), Delay(w), ctx, m, fx)
        == RunRepeat(o, Some(n), Delay(w), ctx, m, fx);
  }

  lemma TicksLeft(rounds: int, span: int)
    requires rounds >= 1 && span >= 1
    ensures rounds * span == (rounds - 1) * span + span && (rounds - 1) * span >= 0
  {
  }

  lemma {:induction false} RepeatFrom(o: Oracle, n: nat, w: nat, q: nat, a: nat, ctxs: seq<Context>, m: Mem, log: seq<Call>)
    requires Fits(Repeated(n, w), m) && RepeatingAt(m, n, w, q, a) && q <= Times(n) && (q == Times(n) ==> a == 0) && a < Span(w)
    requires |ctxs| == (Times(n) - q) * Span(w) - a + 1
    ensures SucceedsLast(Statuses(o, Repeated(n, w), ctxs, m, log))
    ensures RepeatingAt(After(o, Repeated(n, w), ctxs[..|ctxs| - 1], m, log).0, n, w, Times(n), 0)
    decreases |ctxs|
  {
    hide Run, RepeatingAt, Fits;
    var t := Repeated(n, w);
    if q == Times(n) {
      RepeatEnds(o, n, w, ctxs[0], m, Effects(log, None));
      assert ctxs[..|ctxs| - 1] == [];
    } else {
      TicksLeft(Times(n) - q, Span(w));
      RepeatTick(o, n, w, q, a, ctxs[0], m, Effects(log, None));
      var r := Tick(o, t, ctxs[0], m, log);
      var (q', a') := if a + 1 == Span(w) then (q + 1, 0) else (q, a + 1);
      RepeatFrom(o, n, w, q', a', ctxs[1..], r.mem, r.fx.log);
      assert ctxs[..|ctxs| - 1][1..] == ctxs[1..][..|ctxs[1..]| - 1];
      assert ctxs[..|ctxs| - 1][0] == ctxs[0];
    }
  }

  /** `Repeat(n)` over `Wait(w)` succeeds on exactly tick max(n, 1) * max(w, 1) + 1, having counted
      max(n, 1) successes of its child: n of them when n >= 1, and one for `Repeat(0)`. */
  lemma RepeatOfWait(o: Oracle, n: nat, w: nat, ctxs: seq<Context>, log: seq<Call>)
    requires |ctxs| == Times(n) * Span(w) + 1
    ensures SucceedsLast(Statuses(o, Repeated(n, w), ctxs, Fresh(Repeated(n, w)), log))
    ensures var m := After(o, Repeated(n, w), ctxs[..|ctxs| - 1], Fresh(Repeated(n, w)), log).0;
            m.own.Some? && m.own.value.repeatCount == Times(n)
  {
    var t := Repeated(n, w);
    assert Kids(t) == [Delay(w)];
    assert Fresh(t).kids[0] == Fresh(Delay(w));
    RepeatFrom(o, n, w, 0, 0, ctxs, Fresh(t), log);
  }

  // ---------- repeating zero times ----------

  /** The two counts differ only where a repeat remembers zero successes, which it never does. */
  lemma RepeatZeroTick(o: Oracle, kid: Tree, ctx: Context, m: Mem, fx: Effects)
    requires Fits(Deco(Repeat(Some(0)), kid), m) && (m.own.Some? ==> m.own.value.repeatCount > 0)
    ensures Fits(Deco(Repeat(Some(1)), kid), m)
    ensures var r := Run(o, Deco(Repeat(Some(0)), kid), ctx, m, fx);
            && r == Run(o, Deco(Repeat(Some(1)), kid), ctx, m, fx)
            && (r.mem.own.Some? ==> r.mem.own.value.repeatCount > 0)
  {
    var (t, u) := (Deco(Repeat(Some(0)), kid), Deco(Repeat(Some(1)), kid));
    assert Kids(t) == [kid] && Kids(u) == [kid];
    assert Run(o, t, ctx, m, fx) == RunDeco(o, t.kind, kid, ctx, m, fx) == RunRepeat(o, Some(0), kid, ctx, m, fx);
    assert Run(o, u, ctx, m, fx) == RunDeco(o, u.kind, kid, ctx, m, fx) == RunRepeat(o, Some(1), kid, ctx, m, fx);
  }

  lemma {:induction false} RepeatZeroFrom(o: Oracle, kid: Tree, ctxs: seq<Context>, m: Mem, log: seq<Call>)
    requires Fits(Deco(Repeat(Some(0)), kid), m) && Fits(Deco(Repeat(Some(1)), kid), m)
    requires m.own.Some? ==> m.own.value.repeatCount > 0
    ensures Statuses(o, Deco(Repeat(Some(0)), kid), ctxs, m, log) == Statuses(o, Deco(Repeat(Some(1)), kid), ctxs, m, log)
    ensures After(o, Deco(Repeat(Some(0)), kid), ctxs, m, log) == After(o, Deco(Repeat(Some(1)), kid), ctxs, m, log)
    decreases |ctxs|
  {
    hide Run, Fits;
    if ctxs != [] {
      RepeatZeroTick(o, kid, ctxs[0], m, Effects(log, None));
      var r := Tick(o, Deco(Repeat(Some(0)), kid), ctxs[0], m, log);
      RepeatZeroFrom(o, kid, ctxs[1..], r.mem, r.fx.log);
    }
  }

  /** Over any run from fresh memory and whatever the child is, repeating zero times is repeating once: the
      same statuses, calls and memory. */
  lemma RepeatZeroIsOne(o: Oracle, kid: Tree, ctxs: seq<Context>, log: seq<Call>)
    ensures var (t, u) := (Deco(Repeat(Some(0)), kid), Deco(Repeat(Some(1)), kid));
            && Fresh(t) == Fresh(u)
            && Statuses(o, t, ctxs, Fresh(t), log) == Statuses(o, u, ctxs, Fresh(u), log)
            && After(o, t, ctxs, Fresh(t), log) == After(o, u, ctxs, Fresh(u), log)
  {
    var (t, u) := (Deco(Repeat(Some(0)), kid), Deco(Repeat(Some(1)), kid));
    assert Kids(t) == Kids(u);
    assert Fresh(t).kids == Fresh(u).kids;
    RepeatZeroFrom(o, kid, ctxs, Fresh(t), log);
  }
}
