/** What a tick answers: the status of every node it reaches, from those of the children it visits. */
module TreeOutcome {
  import opened Prelude
  import opened BehaviorTree
  import opened TreeSemantics
  import opened NodePaths
  import opened TreeHistory

  // ---------- children of a node anywhere ----------

  lemma {:induction false} ChildAddress(t: Tree, a: seq<nat>, k: nat)
    requires IsAddress(t, a) && k < |Kids(NodeAt(t, a))|
    ensures IsAddress(t, a + [k])
    decreases |a|
  {
    if a == [] {
      assert ([] + [k])[1..] == [] && IsAddress(Kids(t)[k], []);
    } else {
      assert (a + [k])[1..] == a[1..] + [k];
      ChildAddress(Kids(t)[a[0]], a[1..], k);
    }
  }

  /** What child `k` of the node at `a` returns in a tick, or None if the tick does not visit it. */
  ghost function ChildStatus(o: Oracle, t: Tree, ctx: Context, m: Mem, fx: Effects, a: seq<nat>, k: nat): Option<Status>
    requires IsAddress(t, a) && Fits(t, m) && k < |Kids(NodeAt(t, a))|
  {
    ChildAddress(t, a, k);
    match Visit(o, t, ctx, m, fx, a + [k])
    case None => None
    case Some(v) => Some(v.status)
  }

  /** The same for a child of the root. */
  ghost function Said(o: Oracle, t: Tree, ctx: Context, m: Mem, fx: Effects, k: nat): Option<Status>
    requires Fits(t, m) && k < |Kids(t)|
  {
    match Entry(o, t, ctx, m, fx, k)
    case None => None
    case Some(g) => Some(Run(o, Kids(t)[k], ctx, m.kids[k], g).status)
  }

  lemma ChildOfRoot(o: Oracle, t: Tree, ctx: Context, m: Mem, fx: Effects, k: nat)
    requires Fits(t, m) && k < |Kids(t)|
    ensures IsAddress(t, []) && NodeAt(t, []) == t && ChildStatus(o, t, ctx, m, fx, [], k) == Said(o, t, ctx, m, fx, k)
  {
    var a := [k];
    assert [] + [k] == a && a[1..] == [] && a[0] == k && IsAddress(Kids(t)[k], []);
    if Entry(o, t, ctx, m, fx, k).Some? {
      var g := Entry(o, t, ctx, m, fx, k).value;
      assert Visit(o, Kids(t)[k], ctx, m.kids[k], g, []) == Some(Run(o, Kids(t)[k], ctx, m.kids[k], g));
    }
  }

  /** A visit of a node is a tick of it, and its children are visited as in that tick. */
  lemma {:induction false} ChildrenOfVisit(o: Oracle, t: Tree, ctx: Context, m: Mem, fx: Effects, a: seq<nat>) returns (g: Effects)
    requires IsAddress(t, a) && Fits(t, m) && Visit(o, t, ctx, m, fx, a).Some?
    ensures Visit(o, t, ctx, m, fx, a).value == Run(o, NodeAt(t, a), ctx, MemAt(t, m, a), g)
    ensures forall k: nat | k < |Kids(NodeAt(t, a))| ::
              ChildStatus(o, t, ctx, m, fx, a, k) == Said(o, NodeAt(t, a), ctx, MemAt(t, m, a), g, k)
    decreases |a|
  {
    if a == [] {
      g := fx;
      forall k: nat | k < |Kids(t)| ensures ChildStatus(o, t, ctx, m, fx, a, k) == Said(o, t, ctx, m, fx, k) {
        ChildOfRoot(o, t, ctx, m, fx, k);
      }
    } else {
      var kid, n, f := Kids(t)[a[0]], m.kids[a[0]], Entry(o, t, ctx, m, fx, a[0]).value;
      g := ChildrenOfVisit(o, kid, ctx, n, f, a[1..]);
      forall k: nat | k < |Kids(NodeAt(t, a))|
        ensures ChildStatus(o, t, ctx, m, fx, a, k) == ChildStatus(o, kid, ctx, n, f, a[1..], k)
      {
        ChildAddress(t, a, k);
        ChildAddress(kid, a[1..], k);
        assert (a + [k])[1..] == a[1..] + [k];
      }
    }
  }

  // ---------- force sequences ----------

  /** What child `k` returns when the children from `i` on are run in turn. */
  ghost function ForceStatus(o: Oracle, kids: seq<Tree>, i: nat, ctx: Context, m: Mem, fx: Effects, k: nat): Option<Status>
    requires Fits(Force(kids), m) && k < |kids|
  {
    assert Kids(Force(kids)) == kids;
    match ForceEntry(o, kids, i, ctx, m, fx, k)
    case None => None
    case Some(g) => Some(Run(o, kids[k], ctx, m.kids[k], g).status)
  }

  /** The first of them that returns `s`, or the number of children. */
  ghost function FirstWith(o: Oracle, kids: seq<Tree>, i: nat, ctx: Context, m: Mem, fx: Effects, s: Status): nat
    requires Fits(Force(kids), m)
    decreases |kids| - i
  {
    assert Kids(Force(kids)) == kids;
    if i >= |kids| then |kids|
    else
      var r := Run(o, kids[i], ctx, m.kids[i], fx);
      if r.status == s then i else FirstWith(o, kids, i + 1, ctx, m, r.fx, s)
  }

  lemma ForceNext(o: Oracle, kids: seq<Tree>, i: nat, ctx: Context, m: Mem, fx: Effects, k: nat)
    requires Fits(Force(kids), m) && i <= k < |kids|
    ensures Kids(Force(kids)) == kids
    ensures var r := Run(o, kids[i], ctx, m.kids[i], fx);
            ForceStatus(o, kids, i, ctx, m, fx, k) == if k == i then Some(r.status) else ForceStatus(o, kids, i + 1, ctx, m, r.fx, k)
  {
    hide Run;
  }

  lemma {:induction false} FirstFound(o: Oracle, kids: seq<Tree>, i: nat, ctx: Context, m: Mem, fx: Effects, s: Status, k: nat)
    requires Fits(Force(kids), m) && i <= k < |kids|
    ensures var first := FirstWith(o, kids, i, ctx, m, fx, s);
            && i <= first <= |kids| && ForceStatus(o, kids, i, ctx, m, fx, k).Some?
            && (k < first ==> ForceStatus(o, kids, i, ctx, m, fx, k) != Some(s))
            && (k == first ==> ForceStatus(o, kids, i, ctx, m, fx, k) == Some(s))
    decreases |kids| - i
  {
    ForceNext(o, kids, i, ctx, m, fx, k);
    hide Run, Fits, ForceStatus;
    var r := Run(o, kids[i], ctx, m.kids[i], fx);
    if i < k {
      FirstFound(o, kids, i + 1, ctx, m, r.fx, s, k);
    } else if r.status != s && i + 1 < |kids| {
      FirstFound(o, kids, i + 1, ctx, m, r.fx, s, i + 1);
    }
  }

  lemma {:induction false} ForceFrom(o: Oracle, kids: seq<Tree>, i: nat, x: bool, y: bool, ctx: Context, m: Mem, n: Mem, fx: Effects)
    requires Fits(Force(kids), m) && Fits(Force(kids), n)
    requires forall k | i <= k < |kids| :: n.kids[k] == m.kids[k]
    ensures var s := RunForce(o, kids, i, x, y, ctx, n, fx).status;
            && (s == Running <==> x || FirstWith(o, kids, i, ctx, m, fx, Running) < |kids|)
            && (s == Success ==> y && FirstWith(o, kids, i, ctx, m, fx, Failure) >= |kids|)
            && (s == Failure ==> !y || FirstWith(o, kids, i, ctx, m, fx, Failure) < |kids|)
    decreases |kids| - i
  {
    assert Kids(Force(kids)) == kids;
    if i < |kids| {
      hide Run;
      var r := Run(o, kids[i], ctx, n.kids[i], fx);
      ForceFrom(o, kids, i + 1, x || r.status == Running, y && r.status != Failure, ctx, m, n.(kids := n.kids[i := r.mem]), r.fx);
    }
  }

  /** A force sequence anywhere in a tree visits every child. It is Running exactly when a child is; otherwise
      it succeeds exactly when all of them do, and fails exactly when one of them does. */
  lemma ForceAnswers(o: Oracle, t: Tree, ctx: Context, m: Mem, fx: Effects, a: seq<nat>)
    requires IsAddress(t, a) && Fits(t, m) && NodeAt(t, a).Force? && Visit(o, t, ctx, m, fx, a).Some?
    ensures var (n, s) := (|Kids(NodeAt(t, a))|, Visit(o, t, ctx, m, fx, a).value.status);
            && (forall k: nat | k < n :: ChildStatus(o, t, ctx, m, fx, a, k).Some?)
            && (s == Running <==> exists k: nat :: k < n && ChildStatus(o, t, ctx, m, fx, a, k) == Some(Running))
            && (s == Success <==> forall k: nat | k < n :: ChildStatus(o, t, ctx, m, fx, a, k) == Some(Success))
            && (s == Failure <==> s != Running && exists k: nat :: k < n && ChildStatus(o, t, ctx, m, fx, a, k) == Some(Failure))
  {
    var running, failing := ForceVisit(o, t, ctx, m, fx, a);
    hide ChildStatus, Visit, Fits, NodeAt, IsAddress, Kids;
    assert running < |Kids(NodeAt(t, a))| ==> ChildStatus(o, t, ctx, m, fx, a, running) == Some(Running);
    assert failing < |Kids(NodeAt(t, a))| ==> ChildStatus(o, t, ctx, m, fx, a, failing) == Some(Failure);
    if Visit(o, t, ctx, m, fx, a).value.status == Success {
      forall k: nat | k < |Kids(NodeAt(t, a))| ensures ChildStatus(o, t, ctx, m, fx, a, k) == Some(Success) {
        var c := ChildStatus(o, t, ctx, m, fx, a, k).value;
        assert c == Success || c == Failure || c == Running;
      }
    }
  }

  /** The first Running and the first failing child in one visit of a force sequence. */
  lemma ForceVisit(o: Oracle, t: Tree, ctx: Context, m: Mem, fx: Effects, a: seq<nat>) returns (running: nat, failing: nat)
    requires IsAddress(t, a) && Fits(t, m) && NodeAt(t, a).Force? && Visit(o, t, ctx, m, fx, a).Some?
    ensures var (n, s) := (|Kids(NodeAt(t, a))|, Visit(o, t, ctx, m, fx, a).value.status);
            && (s == Running <==> running < n) && (s == Success ==> failing >= n) && (s == Failure ==> failing < n)
            && forall k: nat | k < n ::
                 var c := ChildStatus(o, t, ctx, m, fx, a, k);
                 && c.Some? && (k < running ==> c != Some(Running)) && (k == running ==> c == Some(Running))
                 && (k < failing ==> c != Some(Failure)) && (k == failing ==> c == Some(Failure))
  {
    var (node, n) := (NodeAt(t, a), MemAt(t, m, a));
    var kids := node.kids;
    var g := ChildrenOfVisit(o, t, ctx, m, fx, a);
    assert node == Force(kids) && Kids(node) == kids && Run(o, node, ctx, n, g) == RunForce(o, kids, 0, false, true, ctx, n, g);
    running, failing := FirstWith(o, kids, 0, ctx, n, g, Running), FirstWith(o, kids, 0, ctx, n, g, Failure);
    ForceFrom(o, kids, 0, false, true, ctx, n, n, g);
    hide Run, RunForce, FirstWith, Visit, ChildStatus, NodeAt, MemAt, IsAddress;
    forall k: nat | k < |kids|
      ensures ChildStatus(o, t, ctx, m, fx, a, k) == ForceStatus(o, kids, 0, ctx, n, g, k)
      ensures var c := ForceStatus(o, kids, 0, ctx, n, g, k);
              && c.Some? && (k < running ==> c != Some(Running)) && (k == running ==> c == Some(Running))
              && (k < failing ==> c != Some(Failure)) && (k == failing ==> c == Some(Failure))
    {
      FirstFound(o, kids, 0, ctx, n, g, Running, k);
      FirstFound(o, kids, 0, ctx, n, g, Failure, k);
    }
  }

  // ---------- sequences and selectors ----------

  ghost function CompositeStatus(o: Oracle, goOn: Status, kids: seq<Tree>, i: nat, ctx: Context, m: Mem, fx: Effects, k: nat): Option<Status>
    requires Fits(Composite(goOn, kids), m) && k < |kids|
  {
    assert Kids(Composite(goOn, kids)) == kids;
    match CompositeEntry(o, goOn, kids, i, ctx, m, fx, k)
    case None => None
    case Some(g) => Some(Run(o, kids[k], ctx, m.kids[k], g).status)
  }

  /** The first child from `i` on that does not let the composite go on, or the number of children. */
  ghost function Stop(o: Oracle, goOn: Status, kids: seq<Tree>, i: nat, ctx: Context, m: Mem, fx: Effects): nat
    requires Fits(Composite(goOn, kids), m)
    decreases |kids| - i
  {
    assert Kids(Composite(goOn, kids)) == kids;
    if i >= |kids| then |kids|
    else
      var r := Run(o, kids[i], ctx, m.kids[i], fx);
      if r.status != goOn then i else Stop(o, goOn, kids, i + 1, ctx, m, r.fx)
  }

  lemma CompositeNext(o: Oracle, goOn: Status, kids: seq<Tree>, i: nat, ctx: Context, m: Mem, fx: Effects, k: nat)
    requires Fits(Composite(goOn, kids), m) && i <= k < |kids| && goOn != Running
    ensures Kids(Composite(goOn, kids)) == kids
    ensures var r := Run(o, kids[i], ctx, m.kids[i], fx);
            CompositeStatus(o, goOn, kids, i, ctx, m, fx, k) ==
              if k == i then Some(r.status) else if r.status != goOn then None else CompositeStatus(o, goOn, kids, i + 1, ctx, m, r.fx, k)
  {
    hide Run;
  }

  lemma {:induction false} StopFound(o: Oracle, goOn: Status, kids: seq<Tree>, i: nat, ctx: Context, m: Mem, fx: Effects, k: nat)
    requires Fits(Composite(goOn, kids), m) && i <= k < |kids| && goOn != Running
    ensures var (stop, c) := (Stop(o, goOn, kids, i, ctx, m, fx), CompositeStatus(o, goOn, kids, i, ctx, m, fx, k));
            && i <= stop <= |kids| && (c.Some? <==> k <= stop)
            && (k < stop ==> c == Some(goOn)) && (k == stop ==> c != Some(goOn))
    decreases |kids| - i
  {
    CompositeNext(o, goOn, kids, i, ctx, m, fx, k);
    hide Run, Fits, CompositeStatus;
    var r := Run(o, kids[i], ctx, m.kids[i], fx);
    if r.status == goOn && i < k {
      StopFound(o, goOn, kids, i + 1, ctx, m, r.fx, k);
    } else if r.status == goOn && i + 1 < |kids| {
      StopFound(o, goOn, kids, i + 1, ctx, m, r.fx, i + 1);
    }
  }

  lemma {:induction false} CompositeFrom(o: Oracle, goOn: Status, kids: seq<Tree>, i: nat, ctx: Context, m: Mem, n: Mem, fx: Effects)
    requires Fits(Composite(goOn, kids), m) && Fits(Composite(goOn, kids), n) && goOn != Running
    requires forall k | i <= k < |kids| :: n.kids[k] == m.kids[k]
    ensures var (stop, r) := (Stop(o, goOn, kids, i, ctx, m, fx), RunComposite(o, goOn, kids, i, ctx, n, fx));
            && (if stop < |kids| then Some(r.status) == CompositeStatus(o, goOn, kids, i, ctx, m, fx, stop) else r.status == goOn)
            && (if r.status == Running then IndexOf(r.mem) == stop else r.mem.own.None?)
    decreases |kids| - i
  {
    assert Kids(Composite(goOn, kids)) == kids;
    if i < |kids| {
      hide Run;
      CompositeNext(o, goOn, kids, i, ctx, m, fx, i);
      var r := Run(o, kids[i], ctx, n.kids[i], fx);
      if r.status == goOn {
        CompositeFrom(o, goOn, kids, i + 1, ctx, m, n.(kids := n.kids[i := r.mem]), r.fx);
        var stop := Stop(o, goOn, kids, i + 1, ctx, m, r.fx);
        if stop < |kids| {
          StopFound(o, goOn, kids, i + 1, ctx, m, r.fx, |kids| - 1);
          CompositeNext(o, goOn, kids, i, ctx, m, fx, stop);
        }
      }
      hide CompositeStatus, Fits;
    }
  }

  /** A sequence (selector) anywhere in a tree visits its children from the remembered one on, each next one
      exactly as long as all before succeed (fail). It succeeds (fails) exactly when all of those do, and
      otherwise returns what the last one it visits does, remembering that one if it is Running. */
  lemma CompositeAnswers(o: Oracle, t: Tree, ctx: Context, m: Mem, fx: Effects, a: seq<nat>)
    requires IsAddress(t, a) && Fits(t, m) && Visit(o, t, ctx, m, fx, a).Some?
    requires NodeAt(t, a).Composite? && NodeAt(t, a).goOn != Running
    ensures var (n, i, goOn) := (|Kids(NodeAt(t, a))|, IndexOf(MemAt(t, m, a)), NodeAt(t, a).goOn);
            var v := Visit(o, t, ctx, m, fx, a).value;
            && (forall k: nat | k < n :: ChildStatus(o, t, ctx, m, fx, a, k).Some? <==>
                  i <= k && forall j: nat | i <= j < k :: ChildStatus(o, t, ctx, m, fx, a, j) == Some(goOn))
            && (v.status == goOn <==> forall k: nat | i <= k < n :: ChildStatus(o, t, ctx, m, fx, a, k) == Some(goOn))
            && (v.status != goOn ==> exists k :: StopsAt(o, t, ctx, m, fx, a, k))
            && (v.status != Running ==> v.mem.own.None?)
  {
    hide Visit, ChildStatus, Fits, NodeAt, MemAt, IsAddress, IndexOf, Kids;
    var stop := CompositeVisit(o, t, ctx, m, fx, a);
    if Visit(o, t, ctx, m, fx, a).value.status != NodeAt(t, a).goOn {
      assert StopsAt(o, t, ctx, m, fx, a, stop);
    }
  }

  /** The child at which a sequence or selector stops. */
  ghost predicate StopsAt(o: Oracle, t: Tree, ctx: Context, m: Mem, fx: Effects, a: seq<nat>, k: nat)
    requires IsAddress(t, a) && Fits(t, m) && Visit(o, t, ctx, m, fx, a).Some?
  {
    var v := Visit(o, t, ctx, m, fx, a).value;
    && k < |Kids(NodeAt(t, a))| && ChildStatus(o, t, ctx, m, fx, a, k) == Some(v.status)
    && (v.status == Running ==> IndexOf(v.mem) == k)
  }

  /** Where one visit of a sequence or selector stops. */
  lemma CompositeVisit(o: Oracle, t: Tree, ctx: Context, m: Mem, fx: Effects, a: seq<nat>) returns (stop: nat)
    requires IsAddress(t, a) && Fits(t, m) && Visit(o, t, ctx, m, fx, a).Some?
    requires NodeAt(t, a).Composite? && NodeAt(t, a).goOn != Running
    ensures var (n, i, goOn) := (|Kids(NodeAt(t, a))|, IndexOf(MemAt(t, m, a)), NodeAt(t, a).goOn);
            var v := Visit(o, t, ctx, m, fx, a).value;
            && (i < n ==> i <= stop)
            && (forall k: nat | k < n ::
                  var c := ChildStatus(o, t, ctx, m, fx, a, k);
                  (c.Some? <==> i <= k <= stop) && (i <= k < stop ==> c == Some(goOn)) && (i <= k == stop ==> c != Some(goOn)))
            && (if stop < n then Some(v.status) == ChildStatus(o, t, ctx, m, fx, a, stop) && i <= stop else v.status == goOn)
            && (if v.status == Running then IndexOf(v.mem) == stop else v.mem.own.None?)
  {
    var (node, n) := (NodeAt(t, a), MemAt(t, m, a));
    var (goOn, kids, i) := (node.goOn, node.kids, IndexOf(n));
    var g := ChildrenOfVisit(o, t, ctx, m, fx, a);
    assert Kids(node) == kids && node == Composite(goOn, kids);
    assert Run(o, node, ctx, n, g) == RunComposite(o, goOn, kids, i, ctx, n, g);
    stop := Stop(o, goOn, kids, i, ctx, n, g);
    CompositeFrom(o, goOn, kids, i, ctx, n, n, g);
    hide Run, RunComposite, Stop, Visit, ChildStatus, NodeAt, MemAt, IsAddress, IndexOf;
    forall k: nat | k < |kids|
      ensures ChildStatus(o, t, ctx, m, fx, a, k) == CompositeStatus(o, goOn, kids, i, ctx, n, g, k)
      ensures if i <= k
              then StopFacts(goOn, i, k, stop, |kids|, CompositeStatus(o, goOn, kids, i, ctx, n, g, k))
              else CompositeStatus(o, goOn, kids, i, ctx, n, g, k).None?
    {
      if i <= k {
        StopFound(o, goOn, kids, i, ctx, n, g, k);
      }
    }
  }

  predicate StopFacts(goOn: Status, i: nat, k: nat, stop: nat, n: nat, c: Option<Status>) {
    i <= stop <= n && (c.Some? <==> k <= stop) && (k < stop ==> c == Some(goOn)) && (k == stop ==> c != Some(goOn))
  }

  // ---------- decorators and subtrees ----------

  /** What a decorator returns, by what its child returns in the same tick (None: it is not run). */
  ghost predicate DecoratorSays(kind: DecoratorKind, child: Option<Status>, s: Status) {
    match kind
    case Invert => child.Some? && (s == Success <==> child == Some(Failure)) && (s == Failure <==> child == Some(Success))
    case AlwaysSucceed => child.Some? && s == Success
    case AlwaysFail => child.Some? && s == Failure
    case UntilFail => child.Some? && s != Failure && (s == Success <==> child == Some(Failure))
    case Repeat(_) => (s == Success <==> child.None?) && (s == Failure <==> child == Some(Failure))
    case RunOnce => child.Some? ==> child == Some(s)
    case Cooldown(_) => if child.None? then s == Failure else child == Some(s)
    case Timeout(_) => if child.None? then s == Failure else child == Some(s)
  }

  lemma DecoratorFrom(o: Oracle, kind: DecoratorKind, kid: Tree, ctx: Context, m: Mem, fx: Effects)
    requires Fits(Deco(kind, kid), m)
    ensures |Kids(Deco(kind, kid))| == 1
    ensures DecoratorSays(kind, Said(o, Deco(kind, kid), ctx, m, fx, 0), Run(o, Deco(kind, kid), ctx, m, fx).status)
  {
    var t := Deco(kind, kid);
    assert Kids(t) == [kid];
    assert Run(o, t, ctx, m, fx) == RunDeco(o, kind, kid, ctx, m, fx);
    match kind
    case Repeat(count) => assert RunDeco(o, kind, kid, ctx, m, fx) == RunRepeat(o, count, kid, ctx, m, fx);
    case Cooldown(seconds) => assert RunDeco(o, kind, kid, ctx, m, fx) == RunCooldown(o, seconds, kid, ctx, m, fx);
    case RunOnce => assert RunDeco(o, kind, kid, ctx, m, fx) == RunRunOnce(o, kid, ctx, m, fx);
    case Timeout(limit) => assert RunDeco(o, kind, kid, ctx, m, fx) == RunTimeout(o, limit, kid, ctx, m, fx);
    case _ =>
  }

  /** A decorator or subtree reference anywhere in a tree. */
  lemma WrapperAnswers(o: Oracle, t: Tree, ctx: Context, m: Mem, fx: Effects, a: seq<nat>)
    requires IsAddress(t, a) && Fits(t, m) && Visit(o, t, ctx, m, fx, a).Some?
    requires NodeAt(t, a).Deco? || NodeAt(t, a).Sub?
    ensures |Kids(NodeAt(t, a))| == 1
    ensures var (child, s) := (ChildStatus(o, t, ctx, m, fx, a, 0), Visit(o, t, ctx, m, fx, a).value.status);
            if NodeAt(t, a).Deco? then DecoratorSays(NodeAt(t, a).kind, child, s) else child == Some(s)
  {
    var (node, n) := (NodeAt(t, a), MemAt(t, m, a));
    var g := ChildrenOfVisit(o, t, ctx, m, fx, a);
    if node.Deco? {
      assert node == Deco(node.kind, node.kid);
      DecoratorFrom(o, node.kind, node.kid, ctx, n, g);
    } else {
      assert Kids(node) == [node.body];
      assert Run(o, node, ctx, n, g).status == Run(o, node.body, ctx, n.kids[0], g).status;
    }
    hide Run, Visit, ChildStatus, DecoratorSays, Fits, NodeAt, MemAt, IsAddress;
  }
}
