/** Who is in which playtest (manager.rs, router.rs): an index from players to playtests beside the
    participants that each playtest lists itself. */
module PlaytestManager {
  import opened Prelude
  import opened Ships
  import opened PlaytestInstance

  /** The participants of the live playtests, and the index. */
  datatype Membership = Membership(live: map<Id, set<Id>>, index: map<Id, Id>)

  datatype Op =
    | Register(id: Id, owner: Id, participants: set<Id>)
    | Join(playtest: Id, joiner: Id)
    | Leave(leaver: Id)
    | Destroy(doomed: Id)

  function Outcome(m: Membership, maxInstances: nat, op: Op): Result<(), PlaytestError> {
    match op
    case Register(_, _, _) => if |m.live| >= maxInstances then Err(LimitReached) else Ok(())
    case Join(i, p) =>
      if p in m.index then Err(AlreadyInPlaytest)
      else if i !in m.live then Err(NotFound)
      else if p in m.live[i] then Err(AlreadyInPlaytest)
      else if |m.live[i]| >= MAX_PARTICIPANTS then Err(ParticipantLimitReached)
      else Ok(())
    case Leave(p) => if p in m.index then Ok(()) else Err(NotInPlaytest)
    case Destroy(i) => if i in m.live then Ok(()) else Err(NotFound)
  }

  function Apply(m: Membership, maxInstances: nat, op: Op): Membership {
    if Outcome(m, maxInstances, op).Err? then m
    else match op
         case Register(i, owner, participants) => Membership(m.live[i := participants], m.index[owner := i])
         case Join(i, p) => Membership(m.live[i := m.live[i] + {p}], m.index[p := i])
         case Leave(p) =>
           var i := m.index[p];
           Membership(if i in m.live then m.live[i := m.live[i] - {p}] else m.live, m.index - {p})
         case Destroy(i) => Membership(m.live - {i}, m.index - m.live[i])
  }

  // ---------- what membership keeps ----------

  /** Every participant of a live playtest is indexed to it. */
  ghost predicate ParticipantsIndexed(m: Membership) {
    forall i, p: Id :: i in m.live && p in m.live[i] ==> Get(m.index, p) == Some(i)
  }

  /** And everybody in the index is a participant. */
  ghost predicate IndexedParticipate(m: Membership) {
    forall p: Id :: p in m.index ==> m.index[p] in m.live && p in m.live[m.index[p]]
  }

  ghost predicate WithinLimits(m: Membership, maxInstances: nat) {
    |m.live| <= maxInstances && forall i | i in m.live :: |m.live[i]| <= MAX_PARTICIPANTS
  }

  /** Playtests get new ids and come with no more participants than allowed. */
  ghost predicate Proper(m: Membership, op: Op) {
    op.Register? ==> op.id !in m.live && op.id !in m.index.Values && |op.participants| <= MAX_PARTICIPANTS
  }

  lemma NobodyInTwo(m: Membership, p: Id, i: Id, j: Id)
    requires ParticipantsIndexed(m)
    requires i in m.live && p in m.live[i] && j in m.live && p in m.live[j]
    ensures i == j
  {
    assert Some(i) == Get(m.index, p) == Some(j);
  }

  /** Registering does not look at the index. It keeps the participants indexed if and only if it is
      refused, or the owner is the only participant so far and takes part in no other playtest. */
  lemma RegisterKeepsIndexed(m: Membership, maxInstances: nat, op: Op)
    requires op.Register? && ParticipantsIndexed(m) && Proper(m, op)
    ensures ParticipantsIndexed(Apply(m, maxInstances, op))
            <==> || Outcome(m, maxInstances, op).Err?
                 || (op.participants <= {op.owner} && forall i | i in m.live :: op.owner !in m.live[i])
  {
    var after := Apply(m, maxInstances, op);
    if Outcome(m, maxInstances, op).Ok? {
      if !(op.participants <= {op.owner}) {
        var p := Outsider(op.participants, {op.owner});
        assert op.id in after.live && p in after.live[op.id];
        assert Get(after.index, p) != Some(op.id) by {
          if p in m.index { assert m.index[p] in m.index.Values; }
        }
      } else if i :| i in m.live && op.owner in m.live[i] {
        assert i in after.live && op.owner in after.live[i];
        assert Get(after.index, op.owner) == Some(op.id);
      } else {
        forall i, p: Id | i in after.live && p in after.live[i] ensures Get(after.index, p) == Some(i) {
          if i == op.id {
            assert p in op.participants;
          } else {
            assert p in m.live[i] && Get(m.index, p) == Some(i);
          }
        }
      }
    }
  }

  /** All other operations keep it always. */
  lemma OthersKeepIndexed(m: Membership, maxInstances: nat, op: Op)
    requires !op.Register? && ParticipantsIndexed(m)
    ensures ParticipantsIndexed(Apply(m, maxInstances, op))
  {
    var after := Apply(m, maxInstances, op);
    forall i, p: Id | i in after.live && p in after.live[i] ensures Get(after.index, p) == Some(i) {
      if i in m.live && p in m.live[i] {
        assert Get(m.index, p) == Some(i);
      }
    }
  }

  lemma SizeByKeys(a: map<Id, set<Id>>, keys: set<Id>)
    requires a.Keys == keys
    ensures |a| == |keys|
  {
  }

  lemma SubsetSize(a: set<Id>, b: set<Id>)
    requires a <= b
    ensures |a| <= |b|
  {
    assert b == a + (b - a);
  }

  lemma LimitsAfterPut(m: Membership, i: Id, participants: set<Id>, index: map<Id, Id>, maxInstances: nat)
    requires WithinLimits(m, maxInstances) && |participants| <= MAX_PARTICIPANTS && (i in m.live || |m.live| < maxInstances)
    ensures WithinLimits(Membership(m.live[i := participants], index), maxInstances)
  {
    SizeByKeys(m.live, m.live.Keys);
    SizeByKeys(m.live[i := participants], m.live.Keys + {i});
    if i in m.live {
      assert m.live.Keys + {i} == m.live.Keys;
    }
  }

  lemma LimitsAfterRemoval(m: Membership, i: Id, index: map<Id, Id>, maxInstances: nat)
    requires WithinLimits(m, maxInstances)
    ensures WithinLimits(Membership(m.live - {i}, index), maxInstances)
  {
    SizeByKeys(m.live, m.live.Keys);
    SizeByKeys(m.live - {i}, m.live.Keys - {i});
    SubsetSize(m.live.Keys - {i}, m.live.Keys);
  }

  lemma ApplyKeepsLimits(m: Membership, maxInstances: nat, op: Op)
    requires WithinLimits(m, maxInstances) && Proper(m, op)
    ensures WithinLimits(Apply(m, maxInstances, op), maxInstances)
  {
    var index := Apply(m, maxInstances, op).index;
    if Outcome(m, maxInstances, op).Ok? {
      match op
      case Register(i, _, participants) =>
        LimitsAfterPut(m, i, participants, index, maxInstances);
      case Join(i, p) =>
        LimitsAfterPut(m, i, m.live[i] + {p}, index, maxInstances);
      case Leave(p) =>
        var i := m.index[p];
        if i in m.live {
          SubsetSize(m.live[i] - {p}, m.live[i]);
          LimitsAfterPut(m, i, m.live[i] - {p}, index, maxInstances);
        }
      case Destroy(i) =>
        LimitsAfterRemoval(m, i, index, maxInstances);
    }
  }

  /** Destroying a playtest forgets its participants only: it leaves an entry for it in the index if and
      only if somebody was indexed to it without taking part, which is an owner who registered that way.
      Such a player is in no playtest and can join none before leaving. */
  lemma DestroyLeavesBehind(m: Membership, maxInstances: nat, i: Id, j: Id, p: Id)
    requires ParticipantsIndexed(m) && i in m.live
    ensures var after := Apply(m, maxInstances, Destroy(i));
            && (Get(after.index, p) == Some(i) <==> Get(m.index, p) == Some(i) && p !in m.live[i])
            && (Get(after.index, p) == Some(i) ==>
                  Route(after, p) == None && Outcome(after, maxInstances, Join(j, p)) == Err(AlreadyInPlaytest))
  {
  }

  /** The owner comes as a participant and is in no playtest yet. */
  ghost predicate OwnerTakesPart(m: Membership, op: Op) {
    op.Register? ==> op.participants == {op.owner} && op.owner !in m.index
  }

  /** Then index and participants always say the same. */
  lemma ApplyKeepsAgreement(m: Membership, maxInstances: nat, op: Op)
    requires ParticipantsIndexed(m) && IndexedParticipate(m) && Proper(m, op) && OwnerTakesPart(m, op)
    ensures var after := Apply(m, maxInstances, op); ParticipantsIndexed(after) && IndexedParticipate(after)
  {
    var after := Apply(m, maxInstances, op);
    if op.Register? {
      assert forall i | i in m.live && op.owner in m.live[i] :: Get(m.index, op.owner) == Some(i);
      RegisterKeepsIndexed(m, maxInstances, op);
    } else {
      OthersKeepIndexed(m, maxInstances, op);
    }
    forall p: Id | p in after.index ensures after.index[p] in after.live && p in after.live[after.index[p]] {
      if p in m.index {
        assert m.index[p] in m.live && p in m.live[m.index[p]];
      }
    }
  }

  // ---------- routing ----------

  /** The playtest that a player's messages go to, or None for the live state. */
  function Route(m: Membership, p: Id): Option<Id> {
    if p in m.index && m.index[p] in m.live then Some(m.index[p]) else None
  }

  // ---------- whole runs ----------

  ghost predicate Run(ms: seq<Membership>, maxInstances: nat, ops: seq<Op>) {
    && |ms| == |ops| + 1 && ms[0] == Membership(map[], map[])
    && forall k | 0 <= k < |ops| :: Proper(ms[k], ops[k]) && ms[k + 1] == Apply(ms[k], maxInstances, ops[k])
  }

  /** Over any run in which owners take part in what they register and are in no other playtest then, a
      player's messages go to a playtest exactly when the player takes part in it, which is never one
      that was destroyed and never one of two, and both limits hold. */
  lemma {:induction false} RoutesToOwnPlaytest(ms: seq<Membership>, maxInstances: nat, ops: seq<Op>, n: nat)
    requires Run(ms, maxInstances, ops) && n <= |ops|
    requires forall k | 0 <= k < |ops| :: OwnerTakesPart(ms[k], ops[k])
    ensures ParticipantsIndexed(ms[n]) && IndexedParticipate(ms[n]) && WithinLimits(ms[n], maxInstances)
    ensures forall p, i: Id :: Route(ms[n], p) == Some(i) <==> i in ms[n].live && p in ms[n].live[i]
    decreases n
  {
    if n > 0 {
      RoutesToOwnPlaytest(ms, maxInstances, ops, n - 1);
      assert Proper(ms[n - 1], ops[n - 1]) && ms[n - 1 + 1] == Apply(ms[n - 1], maxInstances, ops[n - 1]);
      ApplyKeepsAgreement(ms[n - 1], maxInstances, ops[n - 1]);
      ApplyKeepsLimits(ms[n - 1], maxInstances, ops[n - 1]);
    }
    forall p, i: Id ensures Route(ms[n], p) == Some(i) <==> i in ms[n].live && p in ms[n].live[i] {
      if i in ms[n].live && p in ms[n].live[i] {
        assert Get(ms[n].index, p) == Some(i);
      }
    }
  }

  /** Without that discipline: over any run whose registrations are each refused, or of a playtest whose
      only participant so far is its owner, who takes part in no other, nobody is ever in two playtests
      and both limits hold. */
  lemma {:induction false} NobodyEverInTwo(ms: seq<Membership>, maxInstances: nat, ops: seq<Op>, n: nat)
    requires Run(ms, maxInstances, ops) && n <= |ops|
    requires forall k | 0 <= k < |ops| && ops[k].Register? && Outcome(ms[k], maxInstances, ops[k]).Ok? ::
               ops[k].participants <= {ops[k].owner} && forall i | i in ms[k].live :: ops[k].owner !in ms[k].live[i]
    ensures ParticipantsIndexed(ms[n]) && WithinLimits(ms[n], maxInstances)
    ensures forall i, j, p: Id :: i in ms[n].live && j in ms[n].live && p in ms[n].live[i] && p in ms[n].live[j] ==> i == j
    decreases n
  {
    if n > 0 {
      NobodyEverInTwo(ms, maxInstances, ops, n - 1);
      assert Proper(ms[n - 1], ops[n - 1]) && ms[n - 1 + 1] == Apply(ms[n - 1], maxInstances, ops[n - 1]);
      ApplyKeepsLimits(ms[n - 1], maxInstances, ops[n - 1]);
      hide Apply, Outcome, WithinLimits;
      if ops[n - 1].Register? {
        RegisterKeepsIndexed(ms[n - 1], maxInstances, ops[n - 1]);
      } else {
        OthersKeepIndexed(ms[n - 1], maxInstances, ops[n - 1]);
      }
    }
    forall i, j, p: Id | i in ms[n].live && j in ms[n].live && p in ms[n].live[i] && p in ms[n].live[j] ensures i == j {
      NobodyInTwo(ms[n], p, i, j);
    }
  }

  /** A destroyed playtest gets no messages, whatever happens afterwards, unless its id is used again. */
  lemma {:induction false} DestroyedStaysAway(ms: seq<Membership>, maxInstances: nat, ops: seq<Op>, i: Id, k: nat, n: nat, p: Id)
    requires Run(ms, maxInstances, ops) && k < n <= |ops| && ops[k] == Destroy(i)
    requires forall j | k < j < n :: ops[j].Register? ==> ops[j].id != i
    ensures i !in ms[n].live && Route(ms[n], p) != Some(i)
    decreases n
  {
    assert ms[n - 1 + 1] == Apply(ms[n - 1], maxInstances, ops[n - 1]);
    if n > k + 1 {
      DestroyedStaysAway(ms, maxInstances, ops, i, k, n - 1, p);
    }
  }

  /** The player is in no playtest and not in the index. */
  ghost predicate Out(m: Membership, p: Id) {
    p !in m.index && forall i | i in m.live :: p !in m.live[i]
  }

  /** The operation is of the player, or of a playtest that comes with the player or ends for them. */
  predicate Concerns(m: Membership, op: Op, p: Id) {
    match op
    case Register(_, owner, participants) => p == owner || p in participants
    case Join(_, joiner) => p == joiner
    case Leave(leaver) => p == leaver
    case Destroy(i) => i in m.live && p in m.live[i]
  }

  ghost predicate TakesPart(m: Membership, i: Id, p: Id) { i in m.live && p in m.live[i] }

  /** No operation moves anybody else. */
  lemma MovesNobodyElse(m: Membership, maxInstances: nat, op: Op, p: Id)
    requires Proper(m, op) && !Concerns(m, op, p)
    ensures var after := Apply(m, maxInstances, op);
            Get(after.index, p) == Get(m.index, p) && forall i :: TakesPart(after, i, p) <==> TakesPart(m, i, p)
  {
  }

  /** Leaving takes a player out of the index and of every playtest. */
  lemma LeaveTakesOut(m: Membership, maxInstances: nat, p: Id)
    requires ParticipantsIndexed(m) && p in m.index
    ensures Out(Apply(m, maxInstances, Leave(p)), p)
  {
    var after := Apply(m, maxInstances, Leave(p));
    forall i | i in after.live ensures p !in after.live[i] {
      assert p in m.live[i] ==> Get(m.index, p) == Some(i);
    }
  }

  /** Joining puts a player into that playtest and routes them there. */
  lemma JoinPutsIn(m: Membership, maxInstances: nat, i: Id, p: Id)
    requires Outcome(m, maxInstances, Join(i, p)).Ok?
    ensures var after := Apply(m, maxInstances, Join(i, p)); TakesPart(after, i, p) && Get(after.index, p) == Some(i)
  {
  }

  lemma StaysOut(m: Membership, maxInstances: nat, op: Op, p: Id)
    requires Proper(m, op) && Out(m, p) && (op.Join? || op.Register? ==> !Concerns(m, op, p))
    ensures Out(Apply(m, maxInstances, op), p)
  {
  }

  /** Who has left is in no playtest and gets no messages of any, until joining one or coming with one that is
      registered, and can then join exactly the playtests that there are and that have room. */
  lemma {:induction false} LeftStaysOut(ms: seq<Membership>, maxInstances: nat, ops: seq<Op>, k: nat, n: nat, p: Id, i: Id)
    requires Run(ms, maxInstances, ops) && k < n <= |ops| && ops[k] == Leave(p)
    requires Outcome(ms[k], maxInstances, ops[k]).Ok? && ParticipantsIndexed(ms[k])
    requires forall l | k < l < n && (ops[l].Join? || ops[l].Register?) :: !Concerns(ms[l], ops[l], p)
    ensures Out(ms[n], p) && Route(ms[n], p) == None
    ensures Outcome(ms[n], maxInstances, Join(i, p)).Ok? <==> i in ms[n].live && |ms[n].live[i]| < MAX_PARTICIPANTS
    decreases n
  {
    hide Apply, Out, ParticipantsIndexed, Concerns, Proper;
    var m := ms[n - 1];
    assert Proper(m, ops[n - 1]) && ms[n - 1 + 1] == Apply(m, maxInstances, ops[n - 1]);
    if n == k + 1 {
      LeaveTakesOut(m, maxInstances, p);
    } else {
      LeftStaysOut(ms, maxInstances, ops, k, n - 1, p, i);
      StaysOut(m, maxInstances, ops[n - 1], p);
    }
    OutMeans(ms[n], maxInstances, p, i);
  }

  lemma OutMeans(m: Membership, maxInstances: nat, p: Id, i: Id)
    requires Out(m, p)
    ensures Route(m, p) == None
    ensures Outcome(m, maxInstances, Join(i, p)).Ok? <==> i in m.live && |m.live[i]| < MAX_PARTICIPANTS
  {
  }

  /** Who has joined a playtest takes part in it and gets its messages, can join no other and can leave, until
      leaving, the end of that playtest or registering one of their own. */
  lemma {:induction false} JoinedStaysIn(ms: seq<Membership>, maxInstances: nat, ops: seq<Op>, k: nat, n: nat, p: Id, i: Id, j: Id)
    requires Run(ms, maxInstances, ops) && k < n <= |ops| && ops[k] == Join(i, p) && Outcome(ms[k], maxInstances, ops[k]).Ok?
    requires forall l | k < l < n :: ParticipantsIndexed(ms[l])
    requires forall l | k < l < n :: ops[l] != Leave(p) && ops[l] != Destroy(i) && (ops[l].Register? ==> ops[l].owner != p)
    ensures TakesPart(ms[n], i, p) && Route(ms[n], p) == Some(i)
    ensures Outcome(ms[n], maxInstances, Join(j, p)) == Err(AlreadyInPlaytest) && Outcome(ms[n], maxInstances, Leave(p)).Ok?
    decreases n
  {
    hide Apply, ParticipantsIndexed, Proper, Outcome;
    var m := ms[n - 1];
    assert Proper(m, ops[n - 1]) && ms[n - 1 + 1] == Apply(m, maxInstances, ops[n - 1]);
    if n == k + 1 {
      JoinPutsIn(m, maxInstances, i, p);
    } else {
      JoinedStaysIn(ms, maxInstances, ops, k, n - 1, p, i, j);
      StaysIn(m, maxInstances, ops[n - 1], p, i);
    }
    InMeans(ms[n], maxInstances, p, i, j);
  }

  lemma StaysIn(m: Membership, maxInstances: nat, op: Op, p: Id, i: Id)
    requires ParticipantsIndexed(m) && Proper(m, op) && TakesPart(m, i, p)
    requires op != Leave(p) && op != Destroy(i) && (op.Register? ==> op.owner != p)
    ensures var after := Apply(m, maxInstances, op); TakesPart(after, i, p) && Get(after.index, p) == Some(i)
  {
    forall d | d in m.live && p in m.live[d] ensures d == i && Get(m.index, p) == Some(i) {
      assert Get(m.index, p) == Some(d) && Get(m.index, p) == Some(i);
    }
  }

  lemma InMeans(m: Membership, maxInstances: nat, p: Id, i: Id, j: Id)
    requires TakesPart(m, i, p) && Get(m.index, p) == Some(i)
    ensures Route(m, p) == Some(i)
    ensures Outcome(m, maxInstances, Join(j, p)) == Err(AlreadyInPlaytest) && Outcome(m, maxInstances, Leave(p)).Ok?
  {
  }

  /** Someone whom a destroyed playtest left behind in the index stays there, in no playtest and refused by
      every other, until leaving it or registering one of their own. */
  lemma {:induction false} LeftBehindUntilLeaving(ms: seq<Membership>, maxInstances: nat, ops: seq<Op>, i: Id, k: nat, n: nat, p: Id, j: Id)
    requires Run(ms, maxInstances, ops) && k < n <= |ops| && forall l | k <= l <= n :: ParticipantsIndexed(ms[l])
    requires ops[k] == Destroy(i) && i in ms[k].live && Get(ms[k].index, p) == Some(i) && p !in ms[k].live[i]
    requires forall l | k < l < n :: ops[l] != Leave(p) && (ops[l].Register? ==> ops[l].owner != p)
    ensures Get(ms[n].index, p) == Some(i) && i !in ms[n].live
    ensures Route(ms[n], p) == None && Outcome(ms[n], maxInstances, Join(j, p)) == Err(AlreadyInPlaytest)
    decreases n
  {
    hide Apply, Outcome, Proper, ParticipantsIndexed, Route;
    var m := ms[n - 1];
    assert Proper(m, ops[n - 1]) && ms[n - 1 + 1] == Apply(m, maxInstances, ops[n - 1]);
    if n == k + 1 {
      DestroyLeavesBehind(m, maxInstances, i, j, p);
      DestroyedIsGone(m, maxInstances, i);
    } else {
      LeftBehindUntilLeaving(ms, maxInstances, ops, i, k, n - 1, p, j);
      StaysBehind(m, maxInstances, ops[n - 1], i, p);
    }
    StuckInIndex(ms[n], maxInstances, i, p, j);
  }

  lemma DestroyedIsGone(m: Membership, maxInstances: nat, i: Id)
    ensures i !in Apply(m, maxInstances, Destroy(i)).live
  {
  }

  lemma StaysBehind(m: Membership, maxInstances: nat, op: Op, i: Id, p: Id)
    requires ParticipantsIndexed(m) && Proper(m, op) && op != Leave(p) && (op.Register? ==> op.owner != p)
    requires Get(m.index, p) == Some(i) && i !in m.live
    ensures var after := Apply(m, maxInstances, op); Get(after.index, p) == Some(i) && i !in after.live
  {
    assert i in m.index.Values;
    assert op.Destroy? && op.doomed in m.live ==> p !in m.live[op.doomed];
  }

  lemma StuckInIndex(m: Membership, maxInstances: nat, i: Id, p: Id, j: Id)
    requires Get(m.index, p) == Some(i) && i !in m.live
    ensures Route(m, p) == None && Outcome(m, maxInstances, Join(j, p)) == Err(AlreadyInPlaytest)
  {
  }

  /** An owner may register a second playtest while taking part in the first, and is then in both. */
  lemma OwnerInTwo(maxInstances: nat)
    requires maxInstances >= 2
    ensures var start := Membership(map[], map[]);
            var once := Apply(start, maxInstances, Register(1, 7, {7}));
            var twice := Apply(once, maxInstances, Register(2, 7, {7}));
            && Proper(start, Register(1, 7, {7})) && Proper(once, Register(2, 7, {7}))
            && twice.live == map[1 := {7}, 2 := {7}] && !ParticipantsIndexed(twice)
  {
    var once := Apply(Membership(map[], map[]), maxInstances, Register(1, 7, {7}));
    assert once == Membership(map[1 := {7}], map[7 := 1]);
    var twice := Apply(once, maxInstances, Register(2, 7, {7}));
    assert twice == Membership(map[1 := {7}, 2 := {7}], map[7 := 2]);
    assert 1 in twice.live && 7 in twice.live[1] && Get(twice.index, 7) == Some(2);
  }

  // ---------- the manager ----------

  lemma Registered(m: Membership, maxInstances: nat, id: Id, owner: Id, participants: set<Id>)
    ensures var op := Op.Register(id, owner, participants);
            if |m.live| >= maxInstances then Outcome(m, maxInstances, op) == Err(LimitReached) && Apply(m, maxInstances, op) == m
            else
              && Outcome(m, maxInstances, op) == Ok(())
              && Apply(m, maxInstances, op) == Membership(m.live[id := participants], m.index[owner := id])
  {
  }

  datatype DebugTarget = LiveServer | InPlaytest(id: Id)

  /** The sessions that stay when those for one target end. */
  function SessionsElsewhere(sessions: map<Id, DebugTarget>, target: DebugTarget): map<Id, DebugTarget> {
    map s | s in sessions && sessions[s] != target :: sessions[s]
  }

  class DebugController {
    var sessions: map<Id, DebugTarget>
    var channels: set<Id>  // the sessions that can be paused and commanded

    method EndSession(session: Id)
      modifies this
      ensures sessions == old(sessions) - {session} && channels == old(channels) - {session}
    {
      sessions, channels := sessions - {session}, channels - {session};
    }

    /** First lists the sessions for a target, then ends them one by one. */
    method EndSessions(target: DebugTarget)
      modifies this
      ensures sessions == SessionsElsewhere(old(sessions), target)
      ensures channels == old(channels) - (old(sessions).Keys - sessions.Keys)
    {
      ghost var ended := set s | s in sessions && sessions[s] == target;
      var left := set s | s in sessions && sessions[s] == target;
      while left != {}
        invariant left <= ended
        invariant sessions == old(sessions) - (ended - left) && channels == old(channels) - (ended - left)
      {
        var s := Pick(left);
        left := left - {s};
        EndSession(s);
      }
      assert ended - left == ended;
      assert sessions == SessionsElsewhere(old(sessions), target);
      assert ended == old(sessions).Keys - sessions.Keys;
    }
  }

  lemma JoinApplied(m: Membership, maxInstances: nat, i: Id, p: Id)
    ensures var op := Join(i, p);
            && Outcome(m, maxInstances, op) == (if p in m.index then Err(AlreadyInPlaytest)
                                                else if i !in m.live then Err(NotFound)
                                                else if p in m.live[i] then Err(AlreadyInPlaytest)
                                                else if |m.live[i]| >= MAX_PARTICIPANTS then Err(ParticipantLimitReached)
                                                else Ok(()))
            && Apply(m, maxInstances, op) == if Outcome(m, maxInstances, op).Err? then m else Membership(m.live[i := m.live[i] + {p}], m.index[p := i])
  {
  }

  lemma DestroyApplied(m: Membership, maxInstances: nat, i: Id)
    ensures var op := Op.Destroy(i);
            if i in m.live then Outcome(m, maxInstances, op) == Ok(()) && Apply(m, maxInstances, op) == Membership(m.live - {i}, m.index - m.live[i])
            else Outcome(m, maxInstances, op) == Err(NotFound) && Apply(m, maxInstances, op) == m
  {
  }

  class PlaytestManager {
    var instances: map<Id, PlaytestInstance>
    var playerPlaytest: map<Id, Id>
    var simulationTasks: map<Id, Id>
    var aborted: set<Id>  // the tasks that have been told to stop
    const maxInstances: nat
    const debugController: Option<DebugController>

    constructor (maxInstances: nat, debugController: Option<DebugController>)
      ensures Valid() && State() == Membership(map[], map[]) && simulationTasks == map[] && aborted == {}
      ensures this.maxInstances == maxInstances && this.debugController == debugController
    {
      instances, playerPlaytest, simulationTasks, aborted := map[], map[], map[], {};
      this.maxInstances, this.debugController := maxInstances, debugController;
    }

    method RegisterSimulationTask(playtestId: Id, handle: Id)
      modifies this`simulationTasks
      ensures simulationTasks == old(simulationTasks)[playtestId := handle]
    {
      simulationTasks := simulationTasks[playtestId := handle];
    }

    /** The debug sessions, if there is a debugger. */
    function Sessions(): map<Id, DebugTarget>
      reads this, if debugController.Some? then {debugController.value} else {}
    {
      if debugController.Some? then debugController.value.sessions else map[]
    }

    ghost predicate Valid()
      reads this`instances
    {
      forall i | i in instances :: instances[i].id == i
    }

    ghost function State(): Membership
      reads this, instances.Values
    {
      Membership(Live(), playerPlaytest)
    }

    ghost function Live(): (live: map<Id, set<Id>>)
      reads this`instances, instances.Values
      ensures live.Keys == instances.Keys && forall i | i in instances :: live[i] == instances[i].participants.Keys
    {
      map i | i in instances :: instances[i].participants.Keys
    }

    method Register(instance: PlaytestInstance) returns (r: Result<(), PlaytestError>)
      requires Valid()
      modifies this`instances, this`playerPlaytest
      ensures Valid()
      ensures var op := Op.Register(instance.id, instance.ownerId, instance.participants.Keys);
              r == Outcome(old(State()), maxInstances, op) && State() == Apply(old(State()), maxInstances, op)
    {
      hide Outcome, Apply;
      ghost var before := Live();
      assert |instances| == |before| by {
        SizeByKeys(before, instances.Keys);
      }
      Registered(Membership(before, playerPlaytest), maxInstances, instance.id, instance.ownerId, instance.participants.Keys);
      if |instances| >= maxInstances {
        return Err(LimitReached);
      }
      instances := instances[instance.id := instance];
      playerPlaytest := playerPlaytest[instance.ownerId := instance.id];
      assert Live() == before[instance.id := instance.participants.Keys];
      r := Ok(());
    }

    method JoinPlaytest(playtestId: Id, playerId: Id, shipId: Id, sectorId: Id) returns (r: Result<PlaytestInstance, PlaytestError>)
      requires Valid()
      modifies this`playerPlaytest, (set i | i in instances :: instances[i])`participants
      ensures Valid()
      ensures var op := Join(playtestId, playerId);
              && (match r case Ok(instance) => Outcome(old(State()), maxInstances, op).Ok? && instance.id == playtestId
                          case Err(e) => Outcome(old(State()), maxInstances, op) == Err(e))
              && State() == Apply(old(State()), maxInstances, op)
      ensures r.Ok? ==> Get(r.value.participants, playerId) == Some(Participant(false, shipId, sectorId))
    {
      hide Live, Valid, Outcome, Apply;
      JoinApplied(State(), maxInstances, playtestId, playerId);
      if playerId in playerPlaytest {
        return Err(AlreadyInPlaytest);
      }
      if playtestId !in instances {
        return Err(NotFound);
      }
      var added := AddTo(playtestId, playerId, shipId, sectorId);
      if added.Err? {
        return Err(added.error);
      }
      playerPlaytest := playerPlaytest[playerId := playtestId];
      r := Ok(instances[playtestId]);
      InstanceHasId(playtestId);
    }

    lemma InstanceHasId(i: Id)
      requires Valid() && i in instances
      ensures instances[i].id == i
    {
    }

    method AddTo(playtestId: Id, playerId: Id, shipId: Id, sectorId: Id) returns (r: Result<(), PlaytestError>)
      requires Valid() && playtestId in instances
      modifies (set i | i in instances :: instances[i])`participants
      ensures Valid()
      ensures r == if playerId in old(Live())[playtestId] then Err(AlreadyInPlaytest)
                   else if |old(Live())[playtestId]| >= MAX_PARTICIPANTS then Err(ParticipantLimitReached)
                   else Ok(())
      ensures Live() == if r.Ok? then old(Live())[playtestId := old(Live())[playtestId] + {playerId}] else old(Live())
      ensures r.Ok? ==> Get(instances[playtestId].participants, playerId) == Some(Participant(false, shipId, sectorId))
    {
      var instance := instances[playtestId];
      assert |instance.participants| == |instance.participants.Keys|;
      r := instance.AddParticipant(playerId, false, shipId, sectorId);
      assert forall i | i in instances && i != playtestId :: instances[i] != instance;
      ghost var (before, after) := (old(Live()), Live());
      forall i | i in instances ensures after[i] == if r.Ok? && i == playtestId then before[i] + {playerId} else before[i] {
      }
      assert after.Keys == before.Keys;
    }

    method LeavePlaytest(playerId: Id) returns (r: Result<(), PlaytestError>)
      requires Valid()
      modifies this`playerPlaytest, (set i | i in instances :: instances[i])`participants, (set i | i in instances :: instances[i])`connections
      ensures Valid()
      ensures r == Outcome(old(State()), maxInstances, Leave(playerId)) && State() == Apply(old(State()), maxInstances, Leave(playerId))
      ensures forall i | i in instances :: instances[i].connections ==
                if Get(old(playerPlaytest), playerId) == Some(i) then WithoutPlayer(old(instances[i].connections), playerId)
                else old(instances[i].connections)
    {
      if playerId !in playerPlaytest {
        return Err(NotInPlaytest);
      }
      var playtestId := playerPlaytest[playerId];
      playerPlaytest := playerPlaytest - {playerId};
      if playtestId in instances {
        var instance := instances[playtestId];
        var _ := instance.RemoveParticipant(playerId);
        instance.Disconnect(playerId);
        ghost var (before, after) := (old(Live()), Live());
        assert after == before[playtestId := before[playtestId] - {playerId}] by {
          assert instance.participants.Keys == old(instance.participants).Keys - {playerId};
          forall i | i in instances && i != playtestId ensures after[i] == before[i] {
            assert instances[i].id != instance.id;
          }
        }
      }
      assert Live() == Apply(old(State()), maxInstances, Leave(playerId)).live;
      r := Ok(());
    }

    /** Stops the playtest's task and ends the debug sessions for it as well. */
    method Destroy(playtestId: Id) returns (r: Result<(), PlaytestError>)
      requires Valid()
      modifies this`instances, this`playerPlaytest, this`simulationTasks, this`aborted
      modifies if debugController.Some? then {debugController.value} else {}
      ensures Valid()
      ensures if r.Err? then simulationTasks == old(simulationTasks) && aborted == old(aborted) && Sessions() == old(Sessions())
              else
                && simulationTasks == old(simulationTasks) - {playtestId}
                && aborted == old(aborted) + (set i | i in old(simulationTasks) && i == playtestId :: old(simulationTasks)[i])
                && Sessions() == SessionsElsewhere(old(Sessions()), InPlaytest(playtestId))
      ensures r == Outcome(old(State()), maxInstances, Op.Destroy(playtestId))
      ensures State() == Apply(old(State()), maxInstances, Op.Destroy(playtestId))
    {
      DestroyApplied(State(), maxInstances, playtestId);
      hide Outcome, Apply, SessionsElsewhere;
      if playtestId !in instances {
        return Err(NotFound);
      }
      CleanUp(playtestId);
      r := Ok(());
    }

    /** Everything of a playtest goes: its instance, its task, its debug sessions and its participants' index entries. */
    method CleanUp(playtestId: Id)
      requires Valid() && playtestId in instances
      modifies this`instances, this`playerPlaytest, this`simulationTasks, this`aborted
      modifies if debugController.Some? then {debugController.value} else {}
      ensures Valid() && Live() == old(Live()) - {playtestId} && playerPlaytest == old(playerPlaytest) - old(Live())[playtestId]
      ensures simulationTasks == old(simulationTasks) - {playtestId}
      ensures aborted == old(aborted) + (set i | i in old(simulationTasks) && i == playtestId :: old(simulationTasks)[i])
      ensures Sessions() == SessionsElsewhere(old(Sessions()), InPlaytest(playtestId))
    {
      var instance := instances[playtestId];
      instances := instances - {playtestId};
      assert Live() == old(Live()) - {playtestId};
      StopTask(playtestId);
      if debugController.Some? {
        debugController.value.EndSessions(InPlaytest(playtestId));
      }
      Forget(instance.participants.Keys);
    }

    method StopTask(playtestId: Id)
      modifies this`simulationTasks, this`aborted
      ensures simulationTasks == old(simulationTasks) - {playtestId}
      ensures aborted == old(aborted) + set i | i in old(simulationTasks) && i == playtestId :: old(simulationTasks)[i]
    {
      if playtestId in simulationTasks {
        aborted := aborted + {simulationTasks[playtestId]};
        simulationTasks := simulationTasks - {playtestId};
      }
    }

    /** Removes players from the index, one by one. */
    method Forget(players: set<Id>)
      modifies this`playerPlaytest
      ensures playerPlaytest == old(playerPlaytest) - players
    {
      var left := players;
      while left != {}
        invariant left <= players && playerPlaytest == old(playerPlaytest) - (players - left)
      {
        var p := Pick(left);
        left := left - {p};
        playerPlaytest := playerPlaytest - {p};
      }
      assert players - left == players;
    }

    function GetForPlayer(playerId: Id): (found: Option<PlaytestInstance>)
      reads this
    {
      if playerId in playerPlaytest && playerPlaytest[playerId] in instances then Some(instances[playerPlaytest[playerId]])
      else None
    }

    /** The destination is the instance that the specification routes to. */
    lemma DestinationIsRoute(playerId: Id)
      requires Valid()
      ensures match GetForPlayer(playerId)
              case Some(instance) => Route(State(), playerId) == Some(instance.id)
              case None => Route(State(), playerId) == None
    {
      if playerId in playerPlaytest && playerPlaytest[playerId] in instances {
        assert instances[playerPlaytest[playerId]].id == playerPlaytest[playerId];
        assert State().index[playerId] in State().live;
      }
    }
  }
}
