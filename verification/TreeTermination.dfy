/** When a node has a whole expansion. Every method of the runner descends an expansion that its tick does
    not leave, so it terminates; a whole expansion is good for every tick, and a node has one exactly when
    it reaches no cycle of subtree references. Without one a tick may still terminate, namely within a
    partial expansion (TreeExpansion). */
module TreeTermination {
  import opened BehaviorTree
  import opened TreeSemantics
  import opened BehaviorRunner

  /** `name` is referenced somewhere in `node`. */
  ghost predicate Refers(node: Node, name: string)
    decreases node
  {
    match node
    case Subtree(n) => n == name
    case Decorator(_, child) => Refers(child, name)
    case Sequence(children) => exists i :: 0 <= i < |children| && Refers(children[i], name)
    case Selector(children) => exists i :: 0 <= i < |children| && Refers(children[i], name)
    case ForceSequence(children) => exists i :: 0 <= i < |children| && Refers(children[i], name)
    case _ => false
  }

  /** A walk along references between registered subtrees. */
  ghost predicate IsWalk(reg: Registry, w: seq<string>) {
    && (forall i | 0 <= i < |w| :: w[i] in reg)
    && (forall i | 0 <= i < |w| - 1 :: Refers(reg[w[i]], w[i + 1]))
  }

  /** A walk that starts with a reference of the node. */
  ghost predicate WalkFrom(reg: Registry, node: Node, w: seq<string>) {
    w != [] && IsWalk(reg, w) && Refers(node, w[0])
  }

  ghost predicate ReachesCycle(reg: Registry, node: Node) {
    exists w: seq<string>, i :: WalkFrom(reg, node, w) && 0 <= i < |w| - 1 && w[i] == w[|w| - 1]
  }

  ghost predicate Acyclic(reg: Registry) {
    forall w: seq<string> | |w| > 1 && IsWalk(reg, w) :: w[0] != w[|w| - 1]
  }

  ghost predicate Expands(reg: Registry, node: Node) {
    exists t :: Resolves(reg, node, t) && Whole(t)
  }

  /** A node has a whole expansion if and only if no cycle can be reached from it. */
  lemma ExpandsIffNoCycle(reg: Registry, node: Node)
    ensures Expands(reg, node) <==> !ReachesCycle(reg, node)
  {
    hide Refers, Resolves, Whole, WalkFrom;
    if Expands(reg, node) {
      var t :| Resolves(reg, node, t) && Whole(t);
      forall w: seq<string>, i | WalkFrom(reg, node, w) && 0 <= i < |w| - 1 ensures w[i] != w[|w| - 1] {
        NoReturn(reg, node, t, w, i);
      }
    } else if !ReachesCycle(reg, node) {
      var t := ExpandWithoutCycle(reg, node);
    }
  }

  /** Along a walk from a node with a whole expansion, expansions get smaller, so no name comes again. */
  lemma NoReturn(reg: Registry, node: Node, t: Tree, w: seq<string>, i: nat)
    requires Resolves(reg, node, t) && Whole(t) && WalkFrom(reg, node, w) && i < |w| - 1
    ensures w[i] != w[|w| - 1]
  {
    hide Refers, Resolves, Whole, Size;
    WalkTail(reg, w, i);
    assert w[..i + 1][i] == w[i];
    var u := WalkDescends(reg, node, t, w[..i + 1]);
    var v := WalkDescends(reg, reg[w[i]], u, w[i + 1..]);
    if w[i] == w[|w| - 1] {
      ExpansionUnique(reg, reg[w[i]], u, v);
    }
  }

  lemma ExpandWithoutCycle(reg: Registry, node: Node) returns (t: Tree)
    requires !ReachesCycle(reg, node)
    ensures Resolves(reg, node, t) && Whole(t)
  {
    hide Refers, Resolves, Whole;
    var names := set n | n in reg.Keys && Reachable(reg, node, n);
    ReachableClosed(reg, node, names);
    var rank := RankAll(reg, names, map[], names);
    var bound := UpperBound(rank);
    forall r | r in reg && Refers(node, r) ensures r in rank {
      assert WalkFrom(reg, node, [r]) && [r][0] == r;
    }
    t := Expand(reg, rank, bound, node);
  }

  /** So every node a caller may pass has one if and only if the registry has no cycle. */
  lemma TerminatesIffAcyclic(reg: Registry)
    ensures Acyclic(reg) <==> forall node: Node :: Expands(reg, node)
  {
    hide Refers, Expands;
    if Acyclic(reg) {
      forall node: Node ensures Expands(reg, node) {
        forall w: seq<string>, i | WalkFrom(reg, node, w) && 0 <= i < |w| - 1 ensures w[i] != w[|w| - 1] {
          assert IsWalk(reg, w[i..]) && w[i..][0] == w[i];
        }
        ExpandsIffNoCycle(reg, node);
      }
    }
    if forall node: Node :: Expands(reg, node) {
      forall w: seq<string> | |w| > 1 && IsWalk(reg, w) ensures w[0] != w[|w| - 1] {
        ExpandsIffNoCycle(reg, Subtree(w[0]));
        SubtreeRefers(w[0]);
        assert WalkFrom(reg, Subtree(w[0]), w);
      }
    }
  }

  lemma SubtreeRefers(name: string)
    ensures Refers(Subtree(name), name)
  {
  }

  lemma WalkTail(reg: Registry, w: seq<string>, i: nat)
    requires IsWalk(reg, w) && i < |w| - 1
    ensures WalkFrom(reg, reg[w[i]], w[i + 1..]) && IsWalk(reg, w[..i + 1])
  {
    hide Refers;
  }

  // ---------- what a node reaches ----------

  ghost predicate Reachable(reg: Registry, node: Node, name: string) {
    exists w: seq<string> :: WalkFrom(reg, node, w) && w[|w| - 1] == name
  }

  /** What is reachable refers to what is reachable, and has no cycle. */
  ghost predicate Closed(reg: Registry, names: set<string>) {
    && names <= reg.Keys
    && (forall n, r | n in names && r in reg && Refers(reg[n], r) :: r in names)
    && forall w: seq<string> | |w| > 1 && IsWalk(reg, w) && w[0] in names :: w[0] != w[|w| - 1]
  }

  lemma ReachableClosed(reg: Registry, node: Node, names: set<string>)
    requires !ReachesCycle(reg, node) && names == set n | n in reg.Keys && Reachable(reg, node, n)
    ensures Closed(reg, names)
  {
    hide Refers;
    forall n, r | n in names && r in reg && Refers(reg[n], r) ensures r in names {
      var w :| WalkFrom(reg, node, w) && w[|w| - 1] == n;
      assert WalkFrom(reg, node, w + [r]) && (w + [r])[|w|] == r;
    }
    forall c: seq<string> | |c| > 1 && IsWalk(reg, c) && c[0] in names ensures c[0] != c[|c| - 1] {
      var w :| WalkFrom(reg, node, w) && w[|w| - 1] == c[0];
      var all := w + c[1..];
      assert forall i | |w| - 1 <= i < |all| :: all[i] == c[i - (|w| - 1)];
      assert forall i | 0 <= i < |w| :: all[i] == w[i];
      forall i | 0 <= i < |all| - 1 ensures Refers(reg[all[i]], all[i + 1]) {
        if i >= |w| - 1 {
          assert all[i + 1] == c[i - (|w| - 1) + 1];
        } else {
          assert all[i + 1] == w[i + 1];
        }
      }
      assert WalkFrom(reg, node, all);
      assert all[|w| - 1] == c[0] && all[|all| - 1] == c[|c| - 1];
    }
  }

  // ---------- names without a cycle can be ranked ----------

  /** References from a ranked subtree lead to ranked subtrees of lower rank. */
  ghost predicate Ranked(reg: Registry, rank: map<string, nat>) {
    forall n, r | n in rank && r in reg && n in reg && Refers(reg[n], r) :: r in rank && rank[r] < rank[n]
  }

  lemma {:induction false} UpperBound(rank: map<string, nat>) returns (bound: nat)
    ensures forall n | n in rank :: rank[n] < bound
    decreases |rank|
  {
    if rank == map[] {
      bound := 0;
    } else {
      var n :| n in rank;
      var b := UpperBound(rank - {n});
      bound := b + rank[n] + 1;
      forall m | m in rank ensures rank[m] < bound {
        if m != n {
          assert (rank - {n})[m] == rank[m];
        }
      }
    }
  }

  /** Extends a ranking to the subtrees in `todo`, one whose references are all ranked at a time. */
  lemma {:induction false} RankAll(reg: Registry, names: set<string>, rank: map<string, nat>, todo: set<string>)
    returns (full: map<string, nat>)
    requires Closed(reg, names) && Ranked(reg, rank)
    requires rank.Keys + todo == names && rank.Keys !! todo
    ensures Ranked(reg, full) && full.Keys == names
    decreases todo
  {
    hide Refers;
    if todo == {} {
      full := rank;
    } else {
      var n := FindSink(reg, names, todo);
      var bound := UpperBound(rank);
      assert forall r | r in reg && Refers(reg[n], r) :: r in rank;
      full := RankAll(reg, names, rank[n := bound], todo - {n});
    }
  }

  /** Some subtree of a non-empty set refers to no subtree of the set. */
  lemma FindSink(reg: Registry, names: set<string>, todo: set<string>) returns (n: string)
    requires Closed(reg, names) && todo != {} && todo <= names
    ensures n in todo && forall r | r in todo :: !Refers(reg[n], r)
  {
    hide Refers;
    if forall n | n in todo :: HasReference(reg, n, todo) {
      var cycle := FindCycle(reg, todo);
      assert false;
    }
    n :| n in todo && !HasReference(reg, n, todo);
  }

  lemma FindCycle(reg: Registry, todo: set<string>) returns (cycle: seq<string>)
    requires todo != {} && todo <= reg.Keys
    requires forall n | n in todo :: HasReference(reg, n, todo)
    ensures |cycle| > 1 && IsWalk(reg, cycle) && cycle[0] in todo && cycle[0] == cycle[|cycle| - 1]
  {
    hide Refers;
    var w := LongWalk(reg, todo, |todo|);
    var i, j := Pigeonhole(w, todo);
    cycle := w[i..j + 1];
  }

  ghost predicate HasReference(reg: Registry, n: string, todo: set<string>)
    requires n in reg
  {
    exists r :: r in todo && Refers(reg[n], r)
  }

  lemma {:induction false} LongWalk(reg: Registry, todo: set<string>, steps: nat) returns (w: seq<string>)
    requires todo != {} && todo <= reg.Keys
    requires forall n | n in todo :: HasReference(reg, n, todo)
    ensures |w| == steps + 1 && IsWalk(reg, w) && forall i | 0 <= i < |w| :: w[i] in todo
  {
    hide Refers;
    if steps == 0 {
      var n :| n in todo;
      w := [n];
    } else {
      var v := LongWalk(reg, todo, steps - 1);
      assert HasReference(reg, v[|v| - 1], todo);
      var r :| r in todo && Refers(reg[v[|v| - 1]], r);
      w := v + [r];
    }
  }

  lemma {:induction false} Pigeonhole(w: seq<string>, s: set<string>) returns (i: nat, j: nat)
    requires |w| > |s| && forall k | 0 <= k < |w| :: w[k] in s
    ensures i < j < |w| && w[i] == w[j]
    decreases |w|
  {
    var last := w[|w| - 1];
    if k :| 0 <= k < |w| - 1 && w[k] == last {
      i, j := k, |w| - 1;
    } else {
      i, j := Pigeonhole(w[..|w| - 1], s - {last});
    }
  }

  // ---------- what is ranked expands ----------

  lemma {:induction false} Expand(reg: Registry, rank: map<string, nat>, bound: nat, node: Node) returns (t: Tree)
    requires Ranked(reg, rank) && rank.Keys <= reg.Keys
    requires forall r | r in reg && Refers(node, r) :: r in rank && rank[r] < bound
    ensures Resolves(reg, node, t) && Whole(t)
    decreases bound, node, 1
  {
    match node
    case Sequence(children) => var ts := ExpandAll(reg, rank, bound, node, children); t := Composite(Success, ts);
    case Selector(children) => var ts := ExpandAll(reg, rank, bound, node, children); t := Composite(Failure, ts);
    case ForceSequence(children) => var ts := ExpandAll(reg, rank, bound, node, children); t := Force(ts);
    case Decorator(kind, child) => var u := Expand(reg, rank, bound, child); t := Deco(kind, u);
    case Action(name) => t := ActionLeaf(name);
    case Condition(name) => t := ConditionLeaf(name);
    case Utility(options) => t := UtilityLeaf(options);
    case Wait(ticks) => t := Delay(ticks);
    case Succeed => t := Constant(Success);
    case Fail => t := Constant(Failure);
    case Subtree(name) =>
      if name in reg {
        var u := Expand(reg, rank, rank[name], reg[name]);
        t := Sub(name, u);
      } else {
        t := Constant(Failure);
      }
  }

  lemma {:induction false} ExpandAll(reg: Registry, rank: map<string, nat>, bound: nat, parent: Node, nodes: seq<Node>)
    returns (ts: seq<Tree>)
    requires Ranked(reg, rank) && rank.Keys <= reg.Keys
    requires forall i | 0 <= i < |nodes| :: nodes[i] < parent
    requires forall i, r | 0 <= i < |nodes| && r in reg && Refers(nodes[i], r) :: r in rank && rank[r] < bound
    ensures ResolvesAll(reg, nodes, ts) && forall i | 0 <= i < |ts| :: Whole(ts[i])
    decreases bound, parent, 0, |nodes|
  {
    if nodes == [] {
      ts := [];
    } else {
      var rest := ExpandAll(reg, rank, bound, parent, nodes[..|nodes| - 1]);
      var t := Expand(reg, rank, bound, nodes[|nodes| - 1]);
      ts := rest + [t];
    }
  }

  // ---------- a cycle has no expansion ----------

  ghost function Size(t: Tree): nat
    decreases t, |Kids(t)| + 1
  {
    1 + SizeUpTo(t, |Kids(t)|)
  }

  ghost function SizeUpTo(t: Tree, n: nat): nat
    requires n <= |Kids(t)|
    decreases t, n
  {
    if n == 0 then 0 else SizeUpTo(t, n - 1) + Size(Kids(t)[n - 1])
  }

  lemma {:induction false} KidSmaller(t: Tree, n: nat, i: nat)
    requires i < n <= |Kids(t)|
    ensures Size(Kids(t)[i]) <= SizeUpTo(t, n)
    decreases n
  {
    if i < n - 1 {
      KidSmaller(t, n - 1, i);
    }
  }

  lemma {:induction false} ExpansionUnique(reg: Registry, node: Node, t: Tree, u: Tree)
    requires Resolves(reg, node, t) && Resolves(reg, node, u) && Whole(t) && Whole(u)
    ensures t == u
    decreases t
  {
    match node
    case Sequence(children) => ExpansionsUnique(reg, children, t.kids, u.kids, t, u);
    case Selector(children) => ExpansionsUnique(reg, children, t.kids, u.kids, t, u);
    case ForceSequence(children) => ExpansionsUnique(reg, children, t.kids, u.kids, t, u);
    case Decorator(_, child) =>
      assert Kids(t)[0] == t.kid && Kids(u)[0] == u.kid;
      ExpansionUnique(reg, child, t.kid, u.kid);
    case Subtree(name) =>
      if name in reg {
        assert Kids(t)[0] == t.body && Kids(u)[0] == u.body;
        ExpansionUnique(reg, reg[name], t.body, u.body);
      }
    case _ =>
  }

  lemma {:induction false} ExpansionsUnique(reg: Registry, nodes: seq<Node>, ts: seq<Tree>, us: seq<Tree>, t: Tree, u: Tree)
    requires ResolvesAll(reg, nodes, ts) && ResolvesAll(reg, nodes, us)
    requires Kids(t) == ts && Kids(u) == us && Whole(t) && Whole(u)
    ensures ts == us
    decreases ts
  {
    forall i | 0 <= i < |ts| ensures ts[i] == us[i] {
      assert Kids(t)[i] == ts[i] && Kids(u)[i] == us[i];
      ExpansionUnique(reg, nodes[i], ts[i], us[i]);
    }
  }

  /** The whole expansion of a node holds that of everything it refers to. */
  lemma {:induction false} ReferenceIsSmaller(reg: Registry, node: Node, t: Tree, name: string) returns (u: Tree)
    requires Resolves(reg, node, t) && Whole(t) && Refers(node, name) && name in reg
    ensures Resolves(reg, reg[name], u) && Whole(u) && Size(u) < Size(t)
    decreases t
  {
    match node
    case Subtree(_) =>
      u := t.body;
      assert Kids(t)[0] == u;
      KidSmaller(t, 1, 0);
    case Decorator(_, child) =>
      assert Kids(t)[0] == t.kid;
      u := ReferenceIsSmaller(reg, child, t.kid, name);
      KidSmaller(t, 1, 0);
    case Sequence(children) =>
      u := ReferenceOfChild(reg, children, t.kids, t, name);
    case Selector(children) =>
      u := ReferenceOfChild(reg, children, t.kids, t, name);
    case ForceSequence(children) =>
      u := ReferenceOfChild(reg, children, t.kids, t, name);
  }

  lemma {:induction false} ReferenceOfChild(reg: Registry, nodes: seq<Node>, ts: seq<Tree>, t: Tree, name: string) returns (u: Tree)
    requires ResolvesAll(reg, nodes, ts) && Kids(t) == ts && Whole(t) && name in reg
    requires exists i :: 0 <= i < |nodes| && Refers(nodes[i], name)
    ensures Resolves(reg, reg[name], u) && Whole(u) && Size(u) < Size(t)
    decreases ts
  {
    var i :| 0 <= i < |nodes| && Refers(nodes[i], name);
    assert Kids(t)[i] == ts[i];
    u := ReferenceIsSmaller(reg, nodes[i], ts[i], name);
    KidSmaller(t, |ts|, i);
  }

  lemma {:induction false} WalkDescends(reg: Registry, node: Node, t: Tree, w: seq<string>) returns (u: Tree)
    requires Resolves(reg, node, t) && Whole(t) && WalkFrom(reg, node, w)
    ensures Resolves(reg, reg[w[|w| - 1]], u) && Whole(u) && Size(u) < Size(t)
    decreases |w|
  {
    hide Refers, Resolves, Size, Whole;
    var last := w[|w| - 1];
    if |w| == 1 {
      u := ReferenceIsSmaller(reg, node, t, last);
    } else {
      assert WalkFrom(reg, node, w[..|w| - 1]) && w[..|w| - 1][|w| - 2] == w[|w| - 2];
      assert Refers(reg[w[|w| - 2]], w[|w| - 2 + 1]);
      var v := WalkDescends(reg, node, t, w[..|w| - 1]);
      u := ReferenceIsSmaller(reg, reg[w[|w| - 2]], v, last);
    }
  }
}
