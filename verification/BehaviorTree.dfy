/** The syntax of behaviour trees and the memory kept for one node (behavior_tree.rs). */
module BehaviorTree {
  import opened Prelude

  type Id = int

  datatype Status = Success | Failure | Running

  datatype DecoratorKind =
    | Repeat(count: Option<nat>)
    | UntilFail
    | Invert
    | Cooldown(seconds: real)
    | RunOnce
    | AlwaysSucceed
    | AlwaysFail
    | Timeout(limit: real)

  datatype UtilityOption = UtilityOption(action: string, considerations: seq<string>, weight: real)

  datatype Node =
    | Sequence(children: seq<Node>)
    | Selector(children: seq<Node>)
    | Action(name: string)
    | Condition(name: string)
    | Utility(options: seq<UtilityOption>)
    | Decorator(kind: DecoratorKind, child: Node)
    | ForceSequence(children: seq<Node>)
    | Wait(ticks: nat)
    | Succeed
    | Fail
    | Subtree(name: string)

  datatype NodeState = NodeState(
    childIndex: nat,
    repeatCount: nat,
    lastExecution: Option<real>,
    ticksWaited: nat,
    storedResult: Option<Status>)

  const DEFAULT_STATE := NodeState(0, 0, None, 0, None)

  /** What a script is told about the tick it runs in. `scriptFound` says whether the
      script path given to `run` names a registered script. */
  datatype Context = Context(entity: Id, tick: nat, deltaTime: real, gameTime: real, scriptFound: bool)

  /** A call into the script engine. */
  datatype Call =
    | ActionCall(name: string, at: Context)
    | ConditionCall(name: string, at: Context)
    | ConsiderCall(name: string, at: Context)

  type Data = map<string, string>

  /** The engine's answer: `status` and `data` to an action (an error is Failure without data),
      `holds` to a condition, `score` to a consideration (None is an error). */
  datatype Reply = Reply(status: Status, data: Option<Data>, holds: bool, score: Option<real>)

  /** The scripts and the world they act on: a reply may depend on the whole history of calls. */
  type Oracle = seq<Call> -> Reply

  /** What running a tree does apart from node memory: the calls made so far, and the local data
      returned by actions in this run. */
  datatype Effects = Effects(log: seq<Call>, pending: Option<Data>)

  /** Later data wins, key by key. */
  function Merge(pending: Option<Data>, data: Option<Data>): Option<Data> {
    match (pending, data)
    case (_, None) => pending
    case (None, Some(d)) => Some(d)
    case (Some(p), Some(d)) => Some(p + d)
  }
}
