# Action combinators of an underwater-vehicle mission stack, in Dafny

This project models the action-composition library that the vehicle's mission
code is built from (`src/missions/action.rs`), together with three small pure
pieces of logic from the vision and ROS2 client code: decoding a model class
id into a gate `Target`, the value semantics of `YoloClass`, and the
namespace/name split of a ROS2 topic.

**Actions.** The `ActionExec<T>` and `ActionMod<I>` traits become two function
types: `Exec<S, T> = S -> (S, T)` (one run of `execute`: a new state and one
output) and `Mod<S, I> = (S, I) -> S` (one synchronous `modify`). A child
action is any pair of such functions over its own state. Every combinator is a
pure function over its children's states, and its state is a datatype with the
Rust struct's fields (`Conditional`, `Pair`, `Until`). From its contract you can
read which children run, how often, in what order, which output is returned, and
which children a `modify` touches. Children that are not touched keep their state.
A combinator with a single field (`TupleSecond`, `FirstValid`, `ActionWhile`) has
exactly its child's state. So the `modify` forwarding of `TupleSecond` and
`FirstValid` is the child's own `modify`.

`Run(exec, s, n)` is the state after `n` executions in a row, and `Out(exec, s, k)`
is the output of execution `k` (counting from 0). Together they are the
reference trace against which the two loops are specified. `UntilExecute` and
`WhileExecute` are methods that follow the Rust loops statement by statement.
Their contracts state the outcome in terms of that trace: the number of
executions, the returned value, and the outcomes of all earlier attempts.

`act_nest!` becomes `ActNest`, a right fold over at least two children of one
type. `wrap_action` becomes `WrapAction`, the composition of two constructors.
The joins (`DualAction`, `ActionConcurrent`, `ActionConcurrentSplit`) and
`ActionParallel` share one output contract, `JoinExec`: each child runs once from
its own state, and the two outputs come back as a pair.

**Vision and ROS2.** `GatePoles.TargetTryFrom` is the `i32` decoding.
`GatePoles.ClassId` is its inverse table. The `NnCv2` module gives `YoloClass`
the source's identifier-only equality and hashing. `ZedRos2.TopicName` returns
the pair that `topic_name` hands to `Name::new`.

Integers are the Rust widths (`Ints.i32`, `Ints.u32`). Floating-point fields
(confidences, bounding boxes) are `real`, because they are only ever copied.

## Model

| member | source | states |
|---|---|---|
| Action.ConditionalExec | src/missions/action.rs:101-107 | The condition runs exactly once. If it yields true, only the true branch runs and its output is the result; otherwise only the false branch runs. The branch not taken keeps its state. |
| Action.DataConditionalExec | src/missions/action.rs:151-158 | The condition runs once. On `Some(v)`, the true branch is modified with exactly `v`, then runs and gives the result, and the false branch is untouched. On `None`, only the false branch runs and the true branch keeps its state. |
| Action.DataConditionalModify | src/missions/action.rs:169-172 | The outer input reaches the condition and the false branch; the true branch is left unchanged. |
| Action.ConditionalIsDataConditionalWithoutData | src/missions/action.rs:98-107 | A plain conditional equals a data conditional whose condition yields `Some(())` or `None` and whose true branch ignores the value. |
| Action.DataConditionalTrueBranchSeesOnlyConditionValue | src/missions/action.rs:161-172 | After two different outer inputs that make the condition yield the same value, the true branch ends in the same state with the same output: its configuration comes only from the condition. |
| Action.ChainExec | src/missions/action.rs:267-270 | `first` runs once. `second` is modified with exactly `first`'s output before it runs, and `second`'s output is the result. |
| Action.SequenceExec | src/missions/action.rs:303-306 | `first` runs once and its output is discarded. `second` runs from its own unmodified state, and its output is the result. |
| Action.ChainWithoutDataflowIsSequence | src/missions/action.rs:264-306 | A chain whose second child's `modify` ignores its input is exactly a sequence. |
| Action.ModifyFirst | src/missions/action.rs:273-279 | The `modify` rule of `ActionChain` (and, identically, of `ActionSequence`, lines 309-315): the input reaches `first` only, and `second` is unchanged. |
| Action.ModifyFirstReachesSecondOnlyThroughFirst | src/missions/action.rs:267-315 | After an outer `modify`, a sequence's `second` runs the same whatever the input was. A chain's `second` runs the same for any two inputs after which `first` yields the same output. |
| Action.JoinExec | src/missions/action.rs:372-378 | `join!` of two independent children: each runs once from its own state, and the pair of outputs is the result. The same contract covers `DualAction` (230-234), `ActionConcurrentSplit` (403-409) and the output of `ActionParallel` (341-355). |
| Action.JoinIsSymmetric | src/missions/action.rs:230-234 | Swapping the children of a join swaps the states and outputs. |
| Action.ModifyBoth | src/missions/action.rs:380-387 | The `modify` rule of `ActionConcurrent` (and, identically, `DualAction` 236-243 and `ActionSelect` 593-600): the same input reaches both children, and nothing else changes. |
| Action.ModifySplit | src/missions/action.rs:411-422 | `ActionConcurrentSplit::modify`: `input.0` reaches `first` and `input.1` reaches `second`. |
| Action.ModifyBothIsSplitOfEqualInputs | src/missions/action.rs:236-243 | Sending one input to both children equals splitting the pair `(input, input)`. The first child ends up as `ModifyFirst` leaves it. |
| Action.TupleSecondExec | src/missions/action.rs:508-512 | The child runs once, and only the second component of its output is returned. |
| Action.TupleSecondOfJoinIsSequence | src/missions/action.rs:508-520 | Joining two independent children and keeping the second output gives the same states and result as running them in sequence. |
| Action.FirstValidResult | src/missions/action.rs:547-558 | The result is `Ok` iff either input is `Ok`. It is the first input when that is `Ok`, and otherwise the second input unchanged, whether or not that is valid. |
| Action.FirstValidOption | src/missions/action.rs:560-571 | The same selection over optional values: the first if present, otherwise the second unchanged. |
| Action.FirstValidResultExec | src/missions/action.rs:550-557 | The child runs once, and its state is the new state. The result is `Ok` iff either component of the child's output is `Ok`. It is the first component when that is `Ok`, otherwise the second. |
| Action.FirstValidOptionExec | src/missions/action.rs:563-570 | The child runs once, and its state is the new state. The result is present iff either component is present. It is the first component when present, otherwise the second. |
| Action.FirstValidAgreesOnOptions | src/missions/action.rs:547-571 | Dropping error reasons (`Result` to `Option`) commutes with the selection, so the two `FirstValid` implementations agree. |
| Action.FirstValidIsAssociative | src/missions/action.rs:550-557 | Nesting the selection to the left or to the right picks the same outcome. |
| Action.UntilExecute | src/missions/action.rs:442-450 | The child runs at least once and at most `max(limit, 1)` times (limit 0 still runs once). The loop stops at the first `Ok`. The result is the last attempt's output and the final state is that of the last run. Every earlier attempt was `Err`, and an `Err` result means all attempts were used. |
| Action.WhileExecute | src/missions/action.rs:473-482 | The child runs while it returns `Ok` and stops at its first `Err`. The number of executions is the number of leading `Ok`s plus one. The result is the payload of the last `Ok`, or the default value when the first run fails. |
| Action.ActNestKeepsOrder | src/missions/action.rs:42-52 | `act_nest!` uses every child exactly once and keeps their order (the tree's leaves left to right are the arguments). It nests to the right: every left child in the tree is a single child, and the first child sits directly under the outer wrapper. |
| Action.ActNestFirstValid | src/missions/action.rs:54-68 | `act_nest!` over `wrap_action(ActionConcurrent::new, FirstValid::new)`, the constructor that applies `FirstValid::new` to what `ActionConcurrent::new` builds, returns the first present output of its children. The result is absent iff every child's output is absent. |
| NnCv2.EqIsEquivalence | src/vision/nn_cv2.rs:34-40 | Identifier-only equality is reflexive, symmetric and transitive, as Rust's `Eq` marker requires. |
| NnCv2.EqIgnoresConfidence | src/vision/nn_cv2.rs:28-38 | Two classes are equal iff comparing the first with the second's bare identifier succeeds, iff they differ at most in confidence. |
| NnCv2.HashRespectsEq | src/vision/nn_cv2.rs:40-46 | Equal classes hash equally, because only the identifier is hashed. |
| NnCv2.TryFromDetection | src/vision/nn_cv2.rs:54-58 | Succeeds iff the class id converts. On success, the identifier is the converted id and the confidence is copied unchanged. On failure, the error is the conversion's error. |
| GatePoles.TargetTryFrom | src/vision/gate_poles.rs:54-71 | Succeeds iff the id is 0 to 5, and never yields Red, Pole or Blue. Every other `i32`, negatives included, gives `TargetError` carrying that same id. |
| GatePoles.TargetRoundTrip | src/vision/gate_poles.rs:61-69 | Decoding an id gives target `t` iff `ClassId(t)` is that id: 0 Gate, 1 Middle, 2 Shark, 3 Sawfish, 4 RightPole, 5 LeftPole. |
| GatePoles.TargetTryFromInjective | src/vision/gate_poles.rs:55-70 | Two ids that decode to the same target are equal. |
| GatePoles.TargetFromYoloClass | src/vision/gate_poles.rs:33-37 | The target returned is one the class compares equal to (its identifier). |
| GatePoles.TargetFromYoloClassReflectsEq | src/vision/gate_poles.rs:33-37 | Two classes are equal iff they convert to the same target. |
| GatePoles.DetectionRoundTrip | src/vision/nn_cv2.rs:48-60 | A detection becomes a `YoloClass<Target>` iff its class id is 0 to 5. Its target's class id is then the detection's id; otherwise the error carries that id. |
| ZedRos2.TrimLeadingSlashes | src/comms/zed_ros2.rs:115 | The result is a suffix of the input that does not start with '/', and everything removed was '/'. |
| ZedRos2.TopicName | src/comms/zed_ros2.rs:113-120 | An absolute topic goes to namespace "/" with all leading slashes stripped, leaving a suffix of the topic that does not start with '/'. Any other topic keeps the configured namespace and passes through unchanged. |
| ZedRos2.TrimSlashesRoundTrip | src/comms/zed_ros2.rs:115 | Any number of slashes in front of a name that does not start with '/' trims back to that name. |
| ZedRos2.AbsoluteTopicRoundTrip | src/comms/zed_ros2.rs:114-116 | Any topic made of one or more slashes followed by a name that does not start with '/' is that name in the root namespace. |
| ZedRos2.TrimIgnoresExtraSlash | src/comms/zed_ros2.rs:115 | One extra leading '/' does not change what trimming leaves. |
| ZedRos2.OneOrThreeSlashesAgree | src/comms/zed_ros2.rs:114-116 | "/x" and "///x" give the same (namespace, name) pair, for every x. |
| ZedRos2.TopicNameIdempotent | src/comms/zed_ros2.rs:113-120 | Splitting "/" plus the name an absolute topic was split into gives the same pair again. |

## Left out

- `RaceAction::execute` and `ActionSelect::execute` (`tokio::select!`): the winner depends on the scheduler, and the loser is dropped part-way through. Their `modify` routing (`ActionSelect`) is modelled by `ModifyBoth`.
- `ActionParallel`: the OS threads, `Arc<Mutex<_>>`, `Handle::block_on` and `join().unwrap()` are not modelled; only its output pair, which `JoinExec` gives.
- The joins' interleaving of suspension points is not modelled. Both children are independent state machines, so only their output pair is modelled.
- Effects on the outside world (hardware commands, frames) are not modelled. So the order in which `ActionSequence` runs its children can be seen only through dataflow (`ChainExec`) and through repeated runs of one child (`UntilExecute`, `WhileExecute`).
- Asynchrony, suspension and cancellation: each `execute` is one atomic step of a child.
- WhileExecute: only runs that end are modelled. The ghost `bound` names an execution that fails. A child that never fails makes the Rust loop run forever, and no result exists to state.
- ActNestKeepsOrder: all children of `act_nest!` have one type here. The Rust macro allows a different type at each nesting level.
- NnCv2.EqIsEquivalence: `T`'s own `==` is Dafny equality, so it is always an equivalence. The Rust code declares `Eq for YoloClass<T>` for every `T: PartialEq` (nn_cv2.rs:40), and a `T` with a non-reflexive `==` (such as `f64` with NaN) would break that. The program only uses `T = Target`, which derives `Eq`, so this holds there.
- NnCv2.HashRespectsEq: rests on the same assumption, that `T`'s `==` is an equivalence consistent with `T::hash`, as for `Target`.
- The `Action` marker trait and `ActionIgnoredGeneric` carry no behaviour.
- `topic_name`'s call to `Name::new` (ROS2 name validation, a foreign library) and its error: `TopicName` returns the pair that would be validated.
- `Display` for `Target` and `TargetError` (formatting only).
- `Hash` is modelled with the hasher as a function of the identifier. Hasher state is not modelled.
- Mission procedures, process startup, the GStreamer video source, the OpenCV/ONNX detectors, `action_context.rs`, configuration records and logging are outside the core and not modelled.
