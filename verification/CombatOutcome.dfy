/** A combat round is fair (simulation.rs): every fighter with a target fires, also when it has been
    destroyed before its turn, so who survives, and with what, does not depend on the order in which the
    ships of the sector are iterated. */
module CombatOutcome {
  import opened Prelude
  import opened Ships
  import opened World
  import opened Playtest
  import opened Combat

  // ---------- hits add up ----------

  /** Two hits are one hit of their sum, as long as no hit heals. */
  lemma HitsAddUp(ship: Ship, a: real, b: real)
    requires a >= 0.0 && b >= 0.0
    ensures Hit(Hit(ship, a), b) == Hit(ship, a + b)
    ensures Hit(ship, a + b).hull <= Hit(ship, a).hull
  {
  }

  /** A hit depends on, and changes, hull and shields only. */
  ghost predicate SameCondition(a: Ship, b: Ship) {
    a.hull == b.hull && a.shield == b.shield
  }

  lemma HitsAlike(a: Ship, b: Ship, damage: real)
    requires SameCondition(a, b)
    ensures SameCondition(Hit(a, damage), Hit(b, damage))
  {
  }

  function DamageTo(actions: seq<Action>, t: Id): real {
    if actions == [] then 0.0
    else
      var (front, last) := (DamageTo(actions[..|actions| - 1], t), actions[|actions| - 1]);
      if last.target == t then front + last.damage else front
  }

  /** What becomes of a ship at which this much damage is aimed: nothing if there is none, and otherwise
      what one hit of the whole damage does. */
  ghost predicate Suffers(before: map<Id, Ship>, after: map<Id, Ship>, t: Id, damage: real)
    requires t in before
  {
    if damage == 0.0 then t in after && SameCondition(after[t], before[t])
    else
      && (t in after <==> Hit(before[t], damage).hull > 0.0)
      && (t in after ==> SameCondition(after[t], Hit(before[t], damage)))
  }

  /** A strike at another ship leaves this one as it is, but for its status. */
  lemma StrikeElsewhere(p: Playtest, s: Id, a: Action, t: Id)
    requires a.target != t
    ensures var after := Strike(p, s, a).world.ships;
            (t in after <==> t in p.world.ships) && (t in after ==> SameCondition(after[t], p.world.ships[t]))
  {
    hide Hit, Unindex;
  }

  lemma StrikeHere(p: Playtest, s: Id, a: Action)
    requires a.target in p.world.ships
    ensures var (before, after) := (p.world.ships, Strike(p, s, a).world.ships);
            && (a.target in after <==> Hit(before[a.target], a.damage).hull > 0.0)
            && (a.target in after ==> SameCondition(after[a.target], Hit(before[a.target], a.damage)))
  {
    hide Hit, Unindex;
  }

  /** Any list of strikes, in any order: a ship suffers the sum of what is aimed at it. */
  lemma {:induction false} StrikesOutcome(p: Playtest, s: Id, actions: seq<Action>, t: Id)
    requires Strong(actions) && t in p.world.ships
    ensures DamageTo(actions, t) >= 0.0
    ensures Suffers(p.world.ships, Strikes(p, s, actions).world.ships, t, DamageTo(actions, t))
  {
    hide Strike, Hit;
    if actions != [] {
      var (front, last) := (actions[..|actions| - 1], actions[|actions| - 1]);
      var middle := Strikes(p, s, front);
      StrikesOutcome(p, s, front, t);
      if last.target != t {
        StrikeElsewhere(middle, s, last, t);
      } else {
        var d := DamageTo(front, t);
        HitsAddUp(p.world.ships[t], d, last.damage);
        if t in middle.world.ships {
          StrikeHere(middle, s, last);
          HitsAlike(middle.world.ships[t], if d == 0.0 then p.world.ships[t] else Hit(p.world.ships[t], d), last.damage);
        } else {
          NobodyReturns(middle, s, last, t);
        }
      }
    }
  }

  lemma NobodyReturns(p: Playtest, s: Id, a: Action, t: Id)
    requires t !in p.world.ships
    ensures t !in Strike(p, s, a).world.ships
  {
  }

  // ---------- what is aimed at a ship ----------

  /** What one ship of the sector fires at `t` in a round. */
  function Shot(w: World, s: Id, id: Id, t: Id): real {
    if Fights(w.ships, id) && HasTarget(w, s, w.ships[id]) && w.ships[id].lockedTarget == Some(t)
    then Stats(w.ships[id].shipClass).attack else 0.0
  }

  function Incoming(w: World, s: Id, order: seq<Id>, t: Id): real {
    if order == [] then 0.0 else Incoming(w, s, order[..|order| - 1], t) + Shot(w, s, order[|order| - 1], t)
  }

  lemma {:induction false} IncomingIsDamage(w: World, s: Id, order: seq<Id>, t: Id)
    ensures DamageTo(Actions(w, s, order), t) == Incoming(w, s, order, t)
  {
    hide Stats;
    if order != [] {
      IncomingIsDamage(w, s, order[..|order| - 1], t);
    }
  }

  lemma {:induction false} IncomingWithout(w: World, s: Id, order: seq<Id>, i: nat, t: Id)
    requires i < |order|
    ensures Incoming(w, s, order, t) == Incoming(w, s, order[..i] + order[i + 1..], t) + Shot(w, s, order[i], t)
    decreases |order|
  {
    hide Shot;
    var n := |order| - 1;
    var rest := order[..i] + order[i + 1..];
    if i < n {
      IncomingWithout(w, s, order[..n], i, t);
      assert rest[..n - 1] == order[..n][..i] + order[..n][i + 1..];
    } else {
      assert rest == order[..n];
    }
  }

  /** Two iterations of the same ships. */
  lemma {:induction false} IncomingAnyOrder(w: World, s: Id, a: seq<Id>, b: seq<Id>, ids: set<Id>, t: Id)
    requires Enumerates(a, ids) && Enumerates(b, ids)
    ensures Incoming(w, s, a, t) == Incoming(w, s, b, t)
    decreases |a|
  {
    hide Shot;
    if a != [] {
      var n := |a| - 1;
      var x := a[n];
      assert x in ids && x in b;
      var i :| 0 <= i < |b| && b[i] == x;
      IncomingWithout(w, s, b, i, t);
      FrontEnumerates(a, ids);
      RestEnumerates(b, ids, i);
      IncomingAnyOrder(w, s, a[..n], b[..i] + b[i + 1..], ids - {x}, t);
    }
  }

  lemma FrontEnumerates(order: seq<Id>, ids: set<Id>)
    requires Enumerates(order, ids) && order != []
    ensures Enumerates(order[..|order| - 1], ids - {order[|order| - 1]})
  {
    RestEnumerates(order, ids, |order| - 1);
    assert order[..|order| - 1] + order[|order|..] == order[..|order| - 1];
  }

  lemma RestEnumerates(order: seq<Id>, ids: set<Id>, i: nat)
    requires Enumerates(order, ids) && i < |order|
    ensures Enumerates(order[..i] + order[i + 1..], ids - {order[i]})
  {
    var rest := order[..i] + order[i + 1..];
    forall x | x in ids - {order[i]} ensures x in rest {
      var k :| 0 <= k < |order| && order[k] == x;
      assert rest[if k < i then k else k - 1] == x;
    }
  }

  // ---------- whole rounds ----------

  lemma {:induction false} DisengageKeepsCondition(ships: map<Id, Ship>, ids: seq<Id>, t: Id)
    requires t in ships
    ensures t in DisengageAll(ships, ids) && SameCondition(DisengageAll(ships, ids)[t], ships[t])
  {
    if ids != [] {
      DisengageKeepsCondition(ships, ids[..|ids| - 1], t);
    }
  }

  /** In a round a ship suffers what all fighters locked on it fire, the ones destroyed before their turn
      included. */
  lemma RoundOutcome(p: Playtest, s: Id, order: seq<Id>, t: Id)
    requires t in p.world.ships
    ensures Incoming(p.world, s, order, t) >= 0.0
    ensures Suffers(p.world.ships, CombatRound(p, s, order).world.ships, t, Incoming(p.world, s, order, t))
  {
    hide Strikes, Actions, Leavers, DisengageAll, Hit;
    var left := DisengageAll(p.world.ships, Leavers(p.world, s, order));
    var actions := Actions(p.world, s, order);
    FightersLeaveOrAct(p.world, s, order);
    DisengageKeepsCondition(p.world.ships, Leavers(p.world, s, order), t);
    StrikesOutcome(p.(world := p.world.(ships := left)), s, actions, t);
    IncomingIsDamage(p.world, s, order, t);
    HitsAlike(left[t], p.world.ships[t], Incoming(p.world, s, order, t));
  }

  /** The same ships survive a round, with the same hull and shields, in whatever order the sector's index
      is iterated. */
  lemma RoundAnyOrder(p: Playtest, s: Id, a: seq<Id>, b: seq<Id>, ids: set<Id>)
    requires Enumerates(a, ids) && Enumerates(b, ids)
    ensures var (x, y) := (CombatRound(p, s, a).world.ships, CombatRound(p, s, b).world.ships);
            x.Keys == y.Keys && forall t | t in x :: SameCondition(x[t], y[t])
  {
    hide CombatRound, Hit, Enumerates;
    var (x, y) := (CombatRound(p, s, a).world.ships, CombatRound(p, s, b).world.ships);
    RoundWeaker(p, s, a);
    RoundWeaker(p, s, b);
    forall t | t in p.world.ships ensures (t in x <==> t in y) && (t in x ==> SameCondition(x[t], y[t])) {
      IncomingAnyOrder(p.world, s, a, b, ids, t);
      RoundOutcome(p, s, a, t);
      RoundOutcome(p, s, b, t);
    }
    assert forall t: Id :: t in x.Keys <==> t in y.Keys;
  }

  // ---------- who leaves combat ----------

  /** The ship is as it was but for its condition: at rest and unlocked, if it `stops`. */
  ghost predicate Stands(before: Ship, after: Ship, stops: bool) {
    after == before.(hull := after.hull, shield := after.shield,
                     status := if stops then Idle else before.status, lockedTarget := if stops then None else before.lockedTarget)
  }

  lemma {:induction false} DisengageStands(ships: map<Id, Ship>, ids: seq<Id>, t: Id)
    requires t in ships
    ensures t in DisengageAll(ships, ids) && Stands(ships[t], DisengageAll(ships, ids)[t], t in ids)
  {
    if ids != [] {
      DisengageStands(ships, ids[..|ids| - 1], t);
      assert ids == ids[..|ids| - 1] + [ids[|ids| - 1]];
    }
  }

  /** One strike: the attacker stops exactly when it destroys its target. */
  lemma StrikeStands(p: Playtest, s: Id, a: Action, t: Id)
    requires t in Strike(p, s, a).world.ships
    ensures t in p.world.ships
    ensures var after := Strike(p, s, a).world.ships;
            Stands(p.world.ships[t], after[t], t == a.attacker && a.target in p.world.ships && a.target !in after)
  {
    hide Unindex;
  }

  lemma StandsOn(a: Ship, b: Ship, c: Ship, x: bool, y: bool)
    requires Stands(a, b, x) && Stands(b, c, y)
    ensures Stands(a, c, x || y)
  {
  }

  /** The ships without a target leave. */
  lemma {:induction false} LeaversAre(w: World, s: Id, order: seq<Id>, t: Id)
    requires t in w.ships
    ensures t in Leavers(w, s, order) <==> t in order && Fights(w.ships, t) && !HasTarget(w, s, w.ships[t])
  {
    hide HasTarget;
    if order != [] {
      var (front, last) := (order[..|order| - 1], order[|order| - 1]);
      LeaversAre(w, s, front, t);
      assert order == front + [last];
    }
  }

  /** The ship at `i` fights, and its shot is the one that brings its target down. */
  ghost predicate BringsDown(w: World, s: Id, order: seq<Id>, i: nat)
    requires i < |order|
  {
    && Fights(w.ships, order[i]) && HasTarget(w, s, w.ships[order[i]])
    && Survives(w, s, order[..i], w.ships[order[i]].lockedTarget.value)
    && !Survives(w, s, order[..i + 1], w.ships[order[i]].lockedTarget.value)
  }

  ghost predicate BroughtDown(w: World, s: Id, order: seq<Id>, n: nat, t: Id)
    requires n <= |order|
  {
    exists i :: 0 <= i < n && order[i] == t && BringsDown(w, s, order, i)
  }

  /** The playtest after the strikes of the first `n` ships of the iteration. */
  ghost function StruckBy(p: Playtest, s: Id, order: seq<Id>, n: nat): Playtest
    requires n <= |order|
  {
    Strikes(p.(world := p.world.(ships := DisengageAll(p.world.ships, Leavers(p.world, s, order)))), s, Actions(p.world, s, order[..n]))
  }

  lemma StruckAlive(p: Playtest, s: Id, order: seq<Id>, n: nat, x: Id)
    requires n <= |order| && x in p.world.ships
    ensures x in StruckBy(p, s, order, n).world.ships <==> Survives(p.world, s, order[..n], x)
  {
    hide Strikes, Actions, Leavers, DisengageAll, Hit;
    var left := DisengageAll(p.world.ships, Leavers(p.world, s, order));
    var damage := Incoming(p.world, s, order[..n], x);
    FightersLeaveOrAct(p.world, s, order[..n]);
    DisengageKeepsCondition(p.world.ships, Leavers(p.world, s, order), x);
    StrikesOutcome(p.(world := p.world.(ships := left)), s, Actions(p.world, s, order[..n]), x);
    IncomingIsDamage(p.world, s, order[..n], x);
    HitsAlike(left[x], p.world.ships[x], damage);
  }

  lemma StruckNext(p: Playtest, s: Id, order: seq<Id>, n: nat)
    requires n < |order|
    ensures var (w, id) := (p.world, order[n]);
            if Fights(w.ships, id) && HasTarget(w, s, w.ships[id])
            then StruckBy(p, s, order, n + 1)
                 == Strike(StruckBy(p, s, order, n), s, Action(id, w.ships[id].lockedTarget.value, Stats(w.ships[id].shipClass).attack))
            else StruckBy(p, s, order, n + 1) == StruckBy(p, s, order, n)
  {
    hide Strike, Stats;
    assert order[..n + 1][..n] == order[..n];
    var (front, all) := (Actions(p.world, s, order[..n]), Actions(p.world, s, order[..n + 1]));
    assert all != front ==> all[..|all| - 1] == front;
  }

  lemma {:induction false} StruckStands(p: Playtest, s: Id, order: seq<Id>, n: nat, t: Id)
    requires n <= |order| && t in StruckBy(p, s, order, n).world.ships
    ensures t in p.world.ships
    ensures Stands(p.world.ships[t], StruckBy(p, s, order, n).world.ships[t], t in Leavers(p.world, s, order) || BroughtDown(p.world, s, order, n, t))
    decreases n
  {
    hide Strike, Strikes, Stands, Stats, HasTarget, Survives, Leavers;
    var w := p.world;
    if n == 0 {
      StruckByNobody(p, s, order, t);
    } else {
      var (id, before, after) := (order[n - 1], StruckBy(p, s, order, n - 1), StruckBy(p, s, order, n));
      StruckNext(p, s, order, n - 1);
      if Fights(w.ships, id) && HasTarget(w, s, w.ships[id]) {
        var (x, damage) := (TargetOf(w, s, id), Stats(w.ships[id].shipClass).attack);
        StrikeStands(before, s, Action(id, x, damage), t);
        StruckStands(p, s, order, n - 1, t);
        StruckAlive(p, s, order, n - 1, x);
        StruckAlive(p, s, order, n, x);
        hide StruckBy;
        var x1 := t in Leavers(w, s, order) || BroughtDown(w, s, order, n - 1, t);
        var x2 := t == id && BringsDown(w, s, order, n - 1);
        StandsOn(w.ships[t], before.world.ships[t], after.world.ships[t], x1, x2);
        BroughtDownNext(w, s, order, n - 1, t);
      } else {
        StruckStands(p, s, order, n - 1, t);
        BroughtDownNext(w, s, order, n - 1, t);
      }
    }
  }

  function TargetOf(w: World, s: Id, id: Id): (x: Id)
    requires id in w.ships && HasTarget(w, s, w.ships[id])
    ensures w.ships[id].lockedTarget == Some(x) && x in w.ships
  {
    w.ships[id].lockedTarget.value
  }

  lemma BroughtDownNext(w: World, s: Id, order: seq<Id>, n: nat, t: Id)
    requires n < |order|
    ensures BroughtDown(w, s, order, n + 1, t) <==> BroughtDown(w, s, order, n, t) || (order[n] == t && BringsDown(w, s, order, n))
  {
    hide BringsDown;
  }

  lemma StruckByNobody(p: Playtest, s: Id, order: seq<Id>, t: Id)
    requires t in StruckBy(p, s, order, 0).world.ships
    ensures t in p.world.ships
    ensures Stands(p.world.ships[t], StruckBy(p, s, order, 0).world.ships[t], t in Leavers(p.world, s, order))
  {
    assert order[..0] == [];
    DisengageKeys(p.world.ships, Leavers(p.world, s, order));
    DisengageStands(p.world.ships, Leavers(p.world, s, order), t);
  }

  lemma {:induction false} DisengageKeys(ships: map<Id, Ship>, ids: seq<Id>)
    ensures DisengageAll(ships, ids).Keys == ships.Keys
  {
    if ids != [] {
      DisengageKeys(ships, ids[..|ids| - 1]);
    }
  }

  /** Who leaves combat in a round: of the survivors, the fighters of the sector without a target in it, and
      those whose shot is the one that brings their target down. All others keep status and lock, and nobody
      changes in anything else but hull and shields. */
  lemma RoundStands(p: Playtest, s: Id, order: seq<Id>, t: Id)
    requires t in CombatRound(p, s, order).world.ships
    ensures t in p.world.ships
    ensures var (w, after) := (p.world, CombatRound(p, s, order).world.ships);
            Stands(w.ships[t], after[t],
                   || (t in order && Fights(w.ships, t) && !HasTarget(w, s, w.ships[t]))
                   || BroughtDown(w, s, order, |order|, t))
  {
    assert order[..|order|] == order;
    assert StruckBy(p, s, order, |order|) == CombatRound(p, s, order);
    StruckStands(p, s, order, |order|, t);
    LeaversAre(p.world, s, order, t);
    hide *;
  }

  // ---------- the promotion record ----------

  lemma {:induction false} StrikesKeepCreated(p: Playtest, s: Id, actions: seq<Action>)
    ensures Strikes(p, s, actions).created == p.created
  {
    hide Hit, Disengage, Unindex;
    if actions != [] {
      StrikesKeepCreated(p, s, actions[..|actions| - 1]);
    }
  }

  /** Nothing is fired at the ship, or its hull holds against all of it. */
  ghost predicate Survives(w: World, s: Id, order: seq<Id>, t: Id)
    requires t in w.ships
  {
    var damage := Incoming(w, s, order, t);
    damage == 0.0 || Hit(w.ships[t], damage).hull > 0.0
  }

  /** Combat keeps the ids of created ships that it destroys: where all ships recorded as created exist
      before a round, they do afterwards exactly when each of them survives what is fired at it. */
  lemma RoundKeepsCreated(p: Playtest, s: Id, order: seq<Id>)
    requires p.created <= p.world.ships.Keys
    ensures var q := CombatRound(p, s, order);
            q.created <= q.world.ships.Keys
            <==> forall t | t in p.created :: Survives(p.world, s, order, t)
  {
    var left := p.(world := p.world.(ships := DisengageAll(p.world.ships, Leavers(p.world, s, order))));
    StrikesKeepCreated(left, s, Actions(p.world, s, order));
    var q := CombatRound(p, s, order);
    assert q.created == p.created;
    hide CombatRound, Hit;
    forall t | t in p.created ensures t in q.world.ships.Keys <==> Survives(p.world, s, order, t) {
      RoundOutcome(p, s, order, t);
    }
    hide Survives;
    if forall t | t in p.created :: Survives(p.world, s, order, t) {
      assert forall t | t in q.created :: t in q.world.ships.Keys;
    }
    if q.created <= q.world.ships.Keys {
      assert forall t | t in p.created :: t in q.world.ships.Keys;
    }
  }

  ghost predicate CreatedPresent(p: Playtest) {
    p.created <= p.world.ships.Keys
  }

  /** The event is no combat round that destroys a created ship. */
  ghost predicate SparesCreated(root: real -> real, p: Playtest, e: Event)
    requires e.Simulate? ==> e.tick.deltaTime >= 0.0
  {
    e.Simulate? && e.tick.sector in p.world.sectors && e.tick.number % COMBAT_INTERVAL == 0 ==>
      var moved := MovementPhase(root, p.world, e.tick.sector, e.tick.deltaTime);
      forall t | t in p.created && t in moved.ships :: Survives(moved, e.tick.sector, e.tick.order, t)
  }

  lemma TickKeepsCreated(root: real -> real, p: Playtest, t: Tick)
    requires t.deltaTime >= 0.0 && CreatedPresent(p)
    ensures CreatedPresent(SectorTick(root, p, t)) <==> SparesCreated(root, p, Simulate(t))
  {
    if t.sector in p.world.sectors {
      hide Travel, CombatRound, Survives;
      var moved := MovementPhase(root, p.world, t.sector, t.deltaTime);
      assert moved.ships.Keys == p.world.ships.Keys;
      RoundKeepsCreated(p.(world := moved), t.sector, t.order);
      StrikesKeepCreated(p.(world := moved.(ships := DisengageAll(moved.ships, Leavers(moved, t.sector, t.order)))),
                         t.sector, Actions(moved, t.sector, t.order));
    }
  }

  /** Over any life of a playtest, every id recorded as created is that of a present ship all along if and
      only if no combat round destroys a created ship. Scripts and movement never break it. */
  lemma {:induction false} LifeKeepsCreated(root: real -> real, forked: set<Id>, es: seq<Event>, ps: seq<Playtest>, n: nat)
    requires Life(root, forked, es, ps) && CreatedPresent(ps[0]) && n <= |es|
    ensures (forall k | 0 <= k <= n :: CreatedPresent(ps[k]))
            <==> forall k | 0 <= k < n :: Possible(ps[k], forked, es[k]) && SparesCreated(root, ps[k], es[k])
    decreases n
  {
    if n > 0 {
      hide CreatedPresent, SparesCreated, Apply, SectorTick;
      LifeKeepsCreated(root, forked, es, ps, n - 1);
      var (p, e) := (ps[n - 1], es[n - 1]);
      assert Possible(p, forked, e) && ps[n - 1 + 1] == Next(root, p, e);
      if CreatedPresent(p) {
        match e
        case Simulate(t) => TickKeepsCreated(root, p, t);
        case Mutate(m, order, newId) => MutationKeepsCreated(root, p, e);
      }
    }
  }

  /** A script that destroys a ship leaves no such id behind. */
  lemma ScriptsForgetCreated(p: Playtest, m: Mutation, order: seq<Id>, newId: Id)
    requires p.created <= p.world.ships.Keys
    ensures var q := Apply(p, m, order, newId).0; q.created <= q.world.ships.Keys
  {
    hide ChangeShip, ChangePlayer, NewNpcShip, WithoutLocation, SectorWithMission, SectorWithLocation;
  }

  lemma MutationKeepsCreated(root: real -> real, p: Playtest, e: Event)
    requires e.Mutate? && CreatedPresent(p)
    ensures CreatedPresent(Next(root, p, e)) && SparesCreated(root, p, e)
  {
    hide Apply;
    ScriptsForgetCreated(p, e.mutation, e.order, e.newId);
  }

  // ---------- a duel ----------

  /** Two ships of a sector are locked on each other, and nobody else is on either. */
  ghost predicate Duel(w: World, s: Id, ids: set<Id>, x: Id, y: Id) {
    && x != y && x in ids && y in ids && Fights(w.ships, x) && Fights(w.ships, y)
    && w.ships[x].lockedTarget == Some(y) && w.ships[y].lockedTarget == Some(x)
    && HasTarget(w, s, w.ships[x]) && HasTarget(w, s, w.ships[y])
    && (forall id | id in ids && id != y :: Shot(w, s, id, x) == 0.0)
    && (forall id | id in ids && id != x :: Shot(w, s, id, y) == 0.0)
  }

  lemma {:induction false} OnlyShot(w: World, s: Id, order: seq<Id>, ids: set<Id>, shooter: Id, t: Id)
    requires Enumerates(order, ids) && forall id | id in ids && id != shooter :: Shot(w, s, id, t) == 0.0
    ensures Incoming(w, s, order, t) == if shooter in ids then Shot(w, s, shooter, t) else 0.0
    decreases |order|
  {
    hide Shot;
    if order == [] {
      assert shooter !in ids;
    } else {
      FrontEnumerates(order, ids);
      var last := order[|order| - 1];
      assert last in ids;
      OnlyShot(w, s, order[..|order| - 1], ids - {last}, shooter, t);
    }
  }

  /** A duel is fair: whichever ship comes first, each survives the round exactly when it survives the
      other's hit. A ship that is destroyed first fires back all the same. */
  lemma DuelIsFair(p: Playtest, s: Id, order: seq<Id>, ids: set<Id>, x: Id, y: Id)
    requires Enumerates(order, ids) && Duel(p.world, s, ids, x, y)
    ensures var (ships, after) := (p.world.ships, CombatRound(p, s, order).world.ships);
            && Suffers(ships, after, x, Stats(ships[y].shipClass).attack)
            && Suffers(ships, after, y, Stats(ships[x].shipClass).attack)
  {
    RoundOutcome(p, s, order, x);
    RoundOutcome(p, s, order, y);
    OnlyShot(p.world, s, order, ids, y, x);
    OnlyShot(p.world, s, order, ids, x, y);
    hide CombatRound, Incoming, Enumerates, Suffers, Stats;
  }
}
