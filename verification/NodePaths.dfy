/** The string keys under which the runner keeps node memory, and the proof that the keys of
    distinct nodes of one tree never collide. */
module NodePaths {
  import opened Prelude
  import opened BehaviorTree
  import opened TreeSemantics

  type Key = (Id, string)
  type States = map<Key, NodeState>

  // ---------- rendering ----------

  function Digit(d: nat): char
    requires d < 10
  {
    ['0', '1', '2', '3', '4', '5', '6', '7', '8', '9'][d]
  }

  predicate IsDigit(c: char) { '0' <= c <= '9' }

  function Decimal(n: nat): (s: string)
    ensures |s| >= 1 && forall i | 0 <= i < |s| :: IsDigit(s[i])
  {
    if n < 10 then [Digit(n)] else Decimal(n / 10) + [Digit(n % 10)]
  }

  lemma {:induction false} DecimalInjective(a: nat, b: nat)
    requires Decimal(a) == Decimal(b)
    ensures a == b
  {
    var s := Decimal(a);
    assert s[|s| - 1] == Digit(a % 10) == Digit(b % 10);
    if a >= 10 && b >= 10 {
      assert Decimal(a / 10) == s[..|s| - 1] == Decimal(b / 10);
      DecimalInjective(a / 10, b / 10);
    }
  }

  /** What the path of child `i` adds to the path of its parent. */
  function Edge(t: Tree, i: nat): string {
    if t.Composite? || t.Force? then Stem(t) + Decimal(i) else Stem(t)
  }

  function Stem(t: Tree): (s: string)
    ensures |s| > 0 && s[0] == '/'
  {
    match t
    case Composite(goOn, _) => if goOn == Success then "/seq_" else "/sel_"
    case Force(_) => "/force_"
    case Sub(name, _) => "/sub_" + name
    case _ => "/child"
  }

  const START := "_start"

  /** `k` is one of the keys of the tree rooted at path `p`. */
  ghost predicate IsKey(t: Tree, p: string, k: string)
    decreases t
  {
    || k == p
    || k == p + START
    || exists i :: 0 <= i < |Kids(t)| && IsKey(Kids(t)[i], p + Edge(t, i), k)
  }

  /** `k` is `p`, or continues it with a separator. */
  predicate Under(p: string, k: string) {
    && |p| <= |k|
    && k[..|p|] == p
    && (|k| == |p| || k[|p|] == '/' || k[|p|] == '_')
  }

  lemma {:induction false} UnderEdge(p: string, e: string, k: string)
    requires Under(p + e, k) && |e| > 0 && e[0] == '/'
    ensures Under(p, k) && k != p && k != p + START
  {
    assert k[..|p|] == (p + e)[..|p|] == p;
    assert k[|p|] == (p + e)[|p|] == '/';
  }

  /** Every key of a tree lies under its path, so it extends that path. */
  lemma {:induction false} KeysUnder(t: Tree, p: string, k: string)
    requires IsKey(t, p, k)
    ensures Under(p, k)
    decreases t
  {
    if k != p && k != p + START {
      var i :| 0 <= i < |Kids(t)| && IsKey(Kids(t)[i], p + Edge(t, i), k);
      KeysUnder(Kids(t)[i], p + Edge(t, i), k);
      UnderEdge(p, Edge(t, i), k);
    }
  }

  /** Two numbered continuations of one path that meet are the same: a digit never ends one. */
  lemma NumberedEdgesApart(q: string, i: nat, j: nat, k: string)
    requires Under(q + Decimal(i), k) && Under(q + Decimal(j), k)
    ensures i == j
  {
    var a, b := q + Decimal(i), q + Decimal(j);
    assert forall n | |q| <= n < |a| :: k[n] == k[..|a|][n] == a[n] == Decimal(i)[n - |q|];
    assert forall n | |q| <= n < |b| :: k[n] == k[..|b|][n] == b[n] == Decimal(j)[n - |q|];
    assert |a| == |b|;
    assert a == b;
    assert Decimal(i) == a[|q|..] && Decimal(j) == b[|q|..];
    DecimalInjective(i, j);
  }

  lemma EdgesApart(t: Tree, p: string, i: nat, j: nat, k: string)
    requires i < |Kids(t)| && j < |Kids(t)|
    requires Under(p + Edge(t, i), k) && Under(p + Edge(t, j), k)
    ensures i == j
  {
    if t.Composite? || t.Force? {
      hide Under, Decimal;
      var q := p + Stem(t);
      assert p + Edge(t, i) == q + Decimal(i) by { Associates(p, Stem(t), Decimal(i)); }
      assert p + Edge(t, j) == q + Decimal(j) by { Associates(p, Stem(t), Decimal(j)); }
      NumberedEdgesApart(q, i, j, k);
    } else {
      hide *;
      assert |Kids(t)| <= 1 by { OneKid(t); }
    }
  }

  lemma Associates(a: string, b: string, c: string)
    ensures a + (b + c) == (a + b) + c
  {
  }

  lemma OneKid(t: Tree)
    requires !t.Composite? && !t.Force?
    ensures |Kids(t)| <= 1
  {
  }

  /** A key of a child is neither a key of the node itself nor a key of another child. */
  lemma ChildKeysApart(t: Tree, p: string, i: nat, k: string)
    requires i < |Kids(t)| && IsKey(Kids(t)[i], p + Edge(t, i), k)
    ensures k != p && k != p + START
    ensures forall j | 0 <= j < |Kids(t)| && j != i :: !IsKey(Kids(t)[j], p + Edge(t, j), k)
  {
    KeysUnder(Kids(t)[i], p + Edge(t, i), k);
    UnderEdge(p, Edge(t, i), k);
    forall j | 0 <= j < |Kids(t)| && IsKey(Kids(t)[j], p + Edge(t, j), k)
      ensures j == i
    {
      KeysUnder(Kids(t)[j], p + Edge(t, j), k);
      EdgesApart(t, p, i, j, k);
    }
  }

  // ---------- distinct nodes have distinct keys ----------

  /** `a` leads from the root of `t` to one of its nodes. */
  ghost predicate IsAddress(t: Tree, a: seq<nat>)
    decreases |a|
  {
    a == [] || (a[0] < |Kids(t)| && IsAddress(Kids(t)[a[0]], a[1..]))
  }

  ghost function NodeAt(t: Tree, a: seq<nat>): Tree
    requires IsAddress(t, a)
    decreases |a|
  {
    if a == [] then t else NodeAt(Kids(t)[a[0]], a[1..])
  }

  ghost function MemAt(t: Tree, m: Mem, a: seq<nat>): (n: Mem)
    requires IsAddress(t, a) && Fits(t, m)
    ensures Fits(NodeAt(t, a), n)
    decreases |a|
  {
    if a == [] then m else MemAt(Kids(t)[a[0]], m.kids[a[0]], a[1..])
  }

  /** The path the runner renders for the node at address `a`. */
  ghost function PathOf(t: Tree, p: string, a: seq<nat>): string
    requires IsAddress(t, a)
    decreases |a|
  {
    if a == [] then p else PathOf(Kids(t)[a[0]], p + Edge(t, a[0]), a[1..])
  }

  /** The key of a node: its memory, or the start time of a timeout. */
  ghost function KeyOf(t: Tree, p: string, a: seq<nat>, start: bool): string
    requires IsAddress(t, a)
  {
    PathOf(t, p, a) + if start then START else ""
  }

  lemma {:induction false} AddressIsKey(t: Tree, p: string, a: seq<nat>, start: bool)
    requires IsAddress(t, a)
    ensures IsKey(t, p, KeyOf(t, p, a, start))
    decreases |a|
  {
    if a == [] {
      assert p + "" == p;
    } else {
      AddressIsKey(Kids(t)[a[0]], p + Edge(t, a[0]), a[1..], start);
    }
  }

  /** Rendering is injective on the nodes of a tree, start keys included, whatever names the
      subtrees have. */
  lemma {:induction false} KeysDistinct(t: Tree, p: string, a: seq<nat>, sa: bool, b: seq<nat>, sb: bool)
    requires IsAddress(t, a) && IsAddress(t, b)
    requires KeyOf(t, p, a, sa) == KeyOf(t, p, b, sb)
    ensures a == b && sa == sb
    decreases |a|
  {
    var k := KeyOf(t, p, a, sa);
    if a != [] {
      var i := a[0];
      AddressIsKey(Kids(t)[i], p + Edge(t, i), a[1..], sa);
      ChildKeysApart(t, p, i, k);
      if b != [] {
        AddressIsKey(Kids(t)[b[0]], p + Edge(t, b[0]), b[1..], sb);
        assert b[0] == i;
        KeysDistinct(Kids(t)[i], p + Edge(t, i), a[1..], sa, b[1..], sb);
        assert a == [i] + a[1..] && b == [i] + b[1..];
      }
    } else if b != [] {
      AddressIsKey(Kids(t)[b[0]], p + Edge(t, b[0]), b[1..], sb);
      ChildKeysApart(t, p, b[0], k);
    }
  }

  // ---------- the memory of a tree inside the flat map ----------

  /** What the flat map holds for entity `e` and the tree rooted at path `p`. */
  ghost function View(t: Tree, states: States, e: Id, p: string): (m: Mem)
    ensures Fits(t, m)
    decreases t
  {
    Mem(Get(states, (e, p)), Get(states, (e, p + START)),
        seq(|Kids(t)|, i requires 0 <= i < |Kids(t)| => View(Kids(t)[i], states, e, p + Edge(t, i))))
  }

  lemma ViewOwn(t: Tree, states: States, e: Id, p: string)
    ensures View(t, states, e, p).own == Get(states, (e, p))
    ensures View(t, states, e, p).start == Get(states, (e, p + START))
    ensures SameOff(t, e, p, states, states)
  {
  }

  lemma ViewKid(t: Tree, states: States, e: Id, p: string, i: nat)
    requires i < |Kids(t)|
    ensures |View(t, states, e, p).kids| == |Kids(t)|
    ensures View(t, states, e, p).kids[i] == View(Kids(t)[i], states, e, p + Edge(t, i))
  {
  }

  /** Nothing changed apart from the keys of this tree, for this entity. */
  ghost predicate SameOff(t: Tree, e: Id, p: string, before: States, after: States) {
    forall k: Key :: !(k.0 == e && IsKey(t, p, k.1)) ==> Get(after, k) == Get(before, k)
  }

  /** A run that began with `before` ended with the outcome `out`, and touched nothing else. */
  ghost predicate Did(t: Tree, e: Id, p: string, before: States, out: Out, s: Status, after: States, fx: Effects) {
    && s == out.status
    && fx == out.fx
    && View(t, after, e, p) == out.mem
    && SameOff(t, e, p, before, after)
  }

  /** One tick of `t` at path `p` turns one flat map into another. The view and the frame
      together determine the new map. */
  ghost predicate RunsTo(o: Oracle, t: Tree, ctx: Context, p: string,
                         before: States, fx: Effects, s: Status, after: States, fx': Effects)
  {
    Did(t, ctx.entity, p, before, Run(o, t, ctx, View(t, before, ctx.entity, p), fx), s, after, fx')
  }

  lemma {:induction false} ViewDetermined(t: Tree, e: Id, p: string, s1: States, s2: States)
    requires forall k | IsKey(t, p, k) :: Get(s1, (e, k)) == Get(s2, (e, k))
    ensures View(t, s1, e, p) == View(t, s2, e, p)
    decreases t
  {
    assert IsKey(t, p, p) && IsKey(t, p, p + START);
    forall i | 0 <= i < |Kids(t)|
      ensures View(Kids(t)[i], s1, e, p + Edge(t, i)) == View(Kids(t)[i], s2, e, p + Edge(t, i))
    {
      forall k | IsKey(Kids(t)[i], p + Edge(t, i), k)
        ensures Get(s1, (e, k)) == Get(s2, (e, k))
      {
        assert IsKey(t, p, k);
      }
      ViewDetermined(Kids(t)[i], e, p + Edge(t, i), s1, s2);
    }
  }

  lemma {:induction false} ViewDetermines(t: Tree, e: Id, p: string, s1: States, s2: States, k: string)
    requires View(t, s1, e, p) == View(t, s2, e, p) && IsKey(t, p, k)
    ensures Get(s1, (e, k)) == Get(s2, (e, k))
    decreases t
  {
    if k != p && k != p + START {
      var i :| 0 <= i < |Kids(t)| && IsKey(Kids(t)[i], p + Edge(t, i), k);
      assert View(Kids(t)[i], s1, e, p + Edge(t, i)) == View(t, s1, e, p).kids[i];
      assert View(Kids(t)[i], s2, e, p + Edge(t, i)) == View(t, s2, e, p).kids[i];
      ViewDetermines(Kids(t)[i], e, p + Edge(t, i), s1, s2, k);
    }
  }

  lemma SameEntries(a: States, b: States)
    requires forall k: Key :: Get(a, k) == Get(b, k)
    ensures a == b
  {
    assert forall k: Key :: k in a <==> Get(a, k).Some?;
    assert forall k: Key :: k in b <==> Get(b, k).Some?;
    assert forall k: Key | k in a :: a[k] == Get(a, k).value;
    assert forall k: Key | k in b :: b[k] == Get(b, k).value;
  }

  /** A tick has exactly one outcome on the flat map. */
  lemma RunsToDetermined(o: Oracle, t: Tree, ctx: Context, p: string, before: States, fx: Effects,
                         s1: Status, a1: States, f1: Effects, s2: Status, a2: States, f2: Effects)
    requires RunsTo(o, t, ctx, p, before, fx, s1, a1, f1)
    requires RunsTo(o, t, ctx, p, before, fx, s2, a2, f2)
    ensures s1 == s2 && a1 == a2 && f1 == f2
  {
    forall k: Key ensures Get(a1, k) == Get(a2, k) {
      if k.0 == ctx.entity && IsKey(t, p, k.1) {
        ViewDetermines(t, ctx.entity, p, a1, a2, k.1);
      }
    }
    SameEntries(a1, a2);
  }

  // ---------- how the view changes when the map does ----------

  /** Only child `i` was touched: the view changes in that child only. */
  lemma ViewOfKid(t: Tree, e: Id, p: string, before: States, after: States, i: nat)
    requires i < |Kids(t)|
    requires SameOff(Kids(t)[i], e, p + Edge(t, i), before, after)
    ensures SameOff(t, e, p, before, after)
    ensures var m := View(t, before, e, p);
            View(t, after, e, p) == m.(kids := m.kids[i := View(Kids(t)[i], after, e, p + Edge(t, i))])
  {
    var kid, q := Kids(t)[i], p + Edge(t, i);
    forall k | IsKey(kid, q, k) ensures k != p && k != p + START {
      ChildKeysApart(t, p, i, k);
    }
    assert Get(after, (e, p)) == Get(before, (e, p));
    assert Get(after, (e, p + START)) == Get(before, (e, p + START));
    forall j | 0 <= j < |Kids(t)| && j != i
      ensures View(Kids(t)[j], after, e, p + Edge(t, j)) == View(Kids(t)[j], before, e, p + Edge(t, j))
    {
      forall k | IsKey(Kids(t)[j], p + Edge(t, j), k)
        ensures Get(after, (e, k)) == Get(before, (e, k))
      {
        ChildKeysApart(t, p, j, k);
        assert !IsKey(kid, q, (e, k).1);
      }
      ViewDetermined(Kids(t)[j], e, p + Edge(t, j), after, before);
    }
    forall k: Key | !(k.0 == e && IsKey(t, p, k.1)) ensures Get(after, k) == Get(before, k) {
      assert IsKey(kid, q, k.1) ==> IsKey(t, p, k.1);
    }
  }

  /** Only the node's own two keys were touched: the children's views stay. */
  lemma ViewOfOwn(t: Tree, e: Id, p: string, before: States, after: States)
    requires forall k: Key | k != (e, p) && k != (e, p + START) :: Get(after, k) == Get(before, k)
    ensures SameOff(t, e, p, before, after)
    ensures View(t, after, e, p) == Mem(Get(after, (e, p)), Get(after, (e, p + START)), View(t, before, e, p).kids)
  {
    assert IsKey(t, p, p) && IsKey(t, p, p + START);
    forall j | 0 <= j < |Kids(t)|
      ensures View(Kids(t)[j], after, e, p + Edge(t, j)) == View(Kids(t)[j], before, e, p + Edge(t, j))
    {
      forall k | IsKey(Kids(t)[j], p + Edge(t, j), k)
        ensures Get(after, (e, k)) == Get(before, (e, k))
      {
        ChildKeysApart(t, p, j, k);
      }
      ViewDetermined(Kids(t)[j], e, p + Edge(t, j), after, before);
    }
  }

  lemma SameOffTransitive(t: Tree, e: Id, p: string, s1: States, s2: States, s3: States)
    requires SameOff(t, e, p, s1, s2) && SameOff(t, e, p, s2, s3)
    ensures SameOff(t, e, p, s1, s3)
  {
    forall k: Key | !(k.0 == e && IsKey(t, p, k.1)) ensures Get(s3, k) == Get(s1, k) {
      assert Get(s2, k) == Get(s1, k);
    }
  }
}
