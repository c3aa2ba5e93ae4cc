/**
 * The action-combinator library of the mission code.
 *
 * A child action is seen as a deterministic state machine: `execute` moves
 * it from one state to the next and yields one output (`Exec`), `modify`
 * reconfigures it from an input without producing anything (`Mod`). Every
 * combinator is then a pure function over the states of its children, and
 * its state is a datatype with the same fields as the Rust struct. A
 * combinator with one child (`TupleSecond`, `FirstValid`, `ActionWhile`)
 * has exactly its child's state.
 */
module Action {
  import opened Wrappers
  import opened Ints

  /** `ActionExec<T>::execute`: one run of an action from state `S`. */
  type Exec<!S, T> = S -> (S, T)

  /** `ActionMod<I>::modify`: a synchronous reconfiguration from an input. */
  type Mod<!S, -I> = (S, I) -> S

  /* ---------------------------------------------------------------- */
  /* Repeated execution of one child                                  */
  /* ---------------------------------------------------------------- */

  /** The state of an action after it has been executed `n` times in a row. */
  function Run<S, T>(exec: Exec<S, T>, s: S, n: nat): S
    decreases n
  {
    if n == 0 then s else exec(Run(exec, s, n - 1)).0
  }

  /** The output of the execution with index `k` (counting from 0) of a run starting in `s`. */
  function Out<S, T>(exec: Exec<S, T>, s: S, k: nat): T {
    exec(Run(exec, s, k)).1
  }

  /* ---------------------------------------------------------------- */
  /* Combinator states                                                */
  /* ---------------------------------------------------------------- */

  /** Fields of `ActionConditional` and `ActionDataConditional`. */
  datatype Conditional<C, B, F> = Conditional(condition: C, trueBranch: B, falseBranch: F)

  /** Fields of every two-child combinator: `RaceAction`, `DualAction`,
    * `ActionChain`, `ActionSequence`, `ActionParallel`, `ActionConcurrent`,
    * `ActionConcurrentSplit` and `ActionSelect`. */
  datatype Pair<A, B> = Pair(first: A, second: B)

  /** Fields of `ActionUntil`. */
  datatype Until<A> = Until(action: A, limit: u32)

  /* ---------------------------------------------------------------- */
  /* Branching                                                        */
  /* ---------------------------------------------------------------- */

  /** `ActionConditional::execute`: the condition runs once, then exactly
    * one branch runs and its output is the result; the other branch keeps
    * its state. */
  function ConditionalExec<C, B, F, U>(
    cond: Exec<C, bool>, onTrue: Exec<B, U>, onFalse: Exec<F, U>, s: Conditional<C, B, F>
  ): (r: (Conditional<C, B, F>, U))
    ensures r.0.condition == cond(s.condition).0
    ensures cond(s.condition).1 ==>
      r.0.falseBranch == s.falseBranch && (r.0.trueBranch, r.1) == onTrue(s.trueBranch)
    ensures !cond(s.condition).1 ==>
      r.0.trueBranch == s.trueBranch && (r.0.falseBranch, r.1) == onFalse(s.falseBranch)
  {
    var (c, b) := cond(s.condition);
    if b then
      var (t, u) := onTrue(s.trueBranch);
      (Conditional(c, t, s.falseBranch), u)
    else
      var (f, u) := onFalse(s.falseBranch);
      (Conditional(c, s.trueBranch, f), u)
  }

  /** `ActionDataConditional::execute`: when the condition yields `Some(v)`
    * the true branch is modified with exactly `v` and then executed; on
    * `None` only the false branch runs. The branch not taken keeps its state. */
  function DataConditionalExec<C, B, F, T, U>(
    cond: Exec<C, Option<T>>, onTrue: Exec<B, U>, trueMod: Mod<B, T>, onFalse: Exec<F, U>,
    s: Conditional<C, B, F>
  ): (r: (Conditional<C, B, F>, U))
    ensures r.0.condition == cond(s.condition).0
    ensures cond(s.condition).1.Some? ==>
      r.0.falseBranch == s.falseBranch
      && (r.0.trueBranch, r.1) == onTrue(trueMod(s.trueBranch, cond(s.condition).1.value))
    ensures cond(s.condition).1.None? ==>
      r.0.trueBranch == s.trueBranch && (r.0.falseBranch, r.1) == onFalse(s.falseBranch)
  {
    var (c, o) := cond(s.condition);
    match o
    case Some(v) =>
      var (t, u) := onTrue(trueMod(s.trueBranch, v));
      (Conditional(c, t, s.falseBranch), u)
    case None =>
      var (f, u) := onFalse(s.falseBranch);
      (Conditional(c, s.trueBranch, f), u)
  }

  /** `ActionDataConditional::modify`: the outer input reaches the condition
    * and the false branch; the true branch is never modified by it. */
  function DataConditionalModify<C, B, F, I>(
    condMod: Mod<C, I>, falseMod: Mod<F, I>, s: Conditional<C, B, F>, input: I
  ): (r: Conditional<C, B, F>)
    ensures r.trueBranch == s.trueBranch
    ensures r.condition == condMod(s.condition, input)
    ensures r.falseBranch == falseMod(s.falseBranch, input)
  {
    s.(condition := condMod(s.condition, input), falseBranch := falseMod(s.falseBranch, input))
  }

  /** A plain conditional is a data conditional whose condition carries no
    * data and whose true branch ignores the value it is given. */
  lemma ConditionalIsDataConditionalWithoutData<C, B, F, U>(
    cond: Exec<C, bool>, onTrue: Exec<B, U>, onFalse: Exec<F, U>, s: Conditional<C, B, F>
  )
    ensures ConditionalExec(cond, onTrue, onFalse, s)
         == DataConditionalExec(
              (c: C) => (cond(c).0, if cond(c).1 then Some(()) else None),
              onTrue, (b: B, _: ()) => b, onFalse, s)
  {
  }

  /** The true branch of a data conditional gets its configuration only from
    * the condition's value: two outer inputs after which the condition yields
    * the same value leave the true branch in the same state with the same output. */
  lemma DataConditionalTrueBranchSeesOnlyConditionValue<C, B, F, T, U, I>(
    cond: Exec<C, Option<T>>, condMod: Mod<C, I>, onTrue: Exec<B, U>, trueMod: Mod<B, T>,
    onFalse: Exec<F, U>, falseMod: Mod<F, I>, s: Conditional<C, B, F>, i: I, j: I
  )
    requires cond(condMod(s.condition, i)).1 == cond(condMod(s.condition, j)).1
    requires cond(condMod(s.condition, i)).1.Some?
    ensures
      var ri := DataConditionalExec(cond, onTrue, trueMod, onFalse,
                                    DataConditionalModify(condMod, falseMod, s, i));
      var rj := DataConditionalExec(cond, onTrue, trueMod, onFalse,
                                    DataConditionalModify(condMod, falseMod, s, j));
      ri.1 == rj.1 && ri.0.trueBranch == rj.0.trueBranch
  {
  }

  /* ---------------------------------------------------------------- */
  /* Sequencing                                                       */
  /* ---------------------------------------------------------------- */

  /** `ActionChain::execute`: `first` runs, `second` is modified with
    * exactly `first`'s output and then runs, and its output is the result. */
  function ChainExec<A, B, T, U>(
    first: Exec<A, T>, second: Exec<B, U>, secondMod: Mod<B, T>, s: Pair<A, B>
  ): (r: (Pair<A, B>, U))
    ensures r.0.first == first(s.first).0
    ensures (r.0.second, r.1) == second(secondMod(s.second, first(s.first).1))
  {
    var (a, t) := first(s.first);
    var (b, u) := second(secondMod(s.second, t));
    (Pair(a, b), u)
  }

  /** `ActionSequence::execute`: `first` runs and its output is discarded,
    * then `second` runs on its own, unmodified state and its output is the result. */
  function SequenceExec<A, B, T, U>(first: Exec<A, T>, second: Exec<B, U>, s: Pair<A, B>): (r: (Pair<A, B>, U))
    ensures r.0.first == first(s.first).0
    ensures (r.0.second, r.1) == second(s.second)
  {
    var (a, _) := first(s.first);
    var (b, u) := second(s.second);
    (Pair(a, b), u)
  }

  /** A chain whose second child ignores what it is given is a sequence. */
  lemma ChainWithoutDataflowIsSequence<A, B(!new), T(!new), U>(
    first: Exec<A, T>, second: Exec<B, U>, secondMod: Mod<B, T>, s: Pair<A, B>
  )
    requires forall b: B, t: T :: secondMod(b, t) == b
    ensures ChainExec(first, second, secondMod, s) == SequenceExec(first, second, s)
  {
    assert secondMod(s.second, first(s.first).1) == s.second;
  }

  /** `modify` of `ActionChain` and of `ActionSequence`: the input reaches
    * `first` only. */
  function ModifyFirst<A, B, I>(m: Mod<A, I>, s: Pair<A, B>, input: I): (r: Pair<A, B>)
    ensures r.first == m(s.first, input)
    ensures r.second == s.second
  {
    s.(first := m(s.first, input))
  }

  /** The outer input of a chain or sequence reaches `second` only through
    * `first`'s output: a sequence's `second` runs the same whatever the input,
    * and a chain's `second` runs the same for two inputs after which `first`
    * yields the same output. */
  lemma ModifyFirstReachesSecondOnlyThroughFirst<A, B, T, U, I>(
    first: Exec<A, T>, second: Exec<B, U>, secondMod: Mod<B, T>, m: Mod<A, I>, s: Pair<A, B>, i: I, j: I
  )
    ensures
      var si := SequenceExec(first, second, ModifyFirst(m, s, i));
      var sj := SequenceExec(first, second, ModifyFirst(m, s, j));
      si.1 == sj.1 && si.0.second == sj.0.second
    ensures first(m(s.first, i)).1 == first(m(s.first, j)).1 ==>
      var ci := ChainExec(first, second, secondMod, ModifyFirst(m, s, i));
      var cj := ChainExec(first, second, secondMod, ModifyFirst(m, s, j));
      ci.1 == cj.1 && ci.0.second == cj.0.second
  {
  }

  /* ---------------------------------------------------------------- */
  /* Joins                                                            */
  /* ---------------------------------------------------------------- */

  /** `join!` of two independent children, as in `ActionConcurrent::execute`:
    * each child runs once from its own state and the outputs come back as a pair. */
  function JoinExec<A, B, X, Y>(first: Exec<A, X>, second: Exec<B, Y>, s: Pair<A, B>): (r: (Pair<A, B>, (X, Y)))
    ensures (r.0.first, r.1.0) == first(s.first)
    ensures (r.0.second, r.1.1) == second(s.second)
  {
    var (a, x) := first(s.first);
    var (b, y) := second(s.second);
    (Pair(a, b), (x, y))
  }

  /** A join imposes no order on its children: swapping them swaps the result. */
  lemma JoinIsSymmetric<A, B, X, Y>(first: Exec<A, X>, second: Exec<B, Y>, s: Pair<A, B>)
    ensures
      var r := JoinExec(first, second, s);
      var q := JoinExec(second, first, Pair(s.second, s.first));
      q.0 == Pair(r.0.second, r.0.first) && q.1 == (r.1.1, r.1.0)
  {
  }

  /** `modify` of `DualAction`, `ActionConcurrent` and `ActionSelect`: the
    * same input reaches both children. */
  function ModifyBoth<A, B, I>(m1: Mod<A, I>, m2: Mod<B, I>, s: Pair<A, B>, input: I): (r: Pair<A, B>)
    ensures r.first == m1(s.first, input)
    ensures r.second == m2(s.second, input)
  {
    Pair(m1(s.first, input), m2(s.second, input))
  }

  /** `ActionConcurrentSplit::modify`: the first component of the input
    * reaches `first`, the second component reaches `second`. */
  function ModifySplit<A, B, I, J>(m1: Mod<A, I>, m2: Mod<B, J>, s: Pair<A, B>, input: (I, J)): (r: Pair<A, B>)
    ensures r.first == m1(s.first, input.0)
    ensures r.second == m2(s.second, input.1)
  {
    Pair(m1(s.first, input.0), m2(s.second, input.1))
  }

  /** Giving both children the same input is splitting a pair of equal inputs. */
  lemma ModifyBothIsSplitOfEqualInputs<A, B, I>(m1: Mod<A, I>, m2: Mod<B, I>, s: Pair<A, B>, input: I)
    ensures ModifyBoth(m1, m2, s, input) == ModifySplit(m1, m2, s, (input, input))
    ensures ModifyBoth(m1, m2, s, input).first == ModifyFirst(m1, s, input).first
  {
  }

  /* ---------------------------------------------------------------- */
  /* Projection                                                       */
  /* ---------------------------------------------------------------- */

  /** `TupleSecond::execute`: the child runs once and only the second
    * component of its output is returned. */
  function TupleSecondExec<A, X, Y>(action: Exec<A, (X, Y)>, s: A): (r: (A, Y))
    ensures r.0 == action(s).0
    ensures r.1 == action(s).1.1
  {
    var (a, p) := action(s);
    (a, p.1)
  }

  /** Joining two independent children and keeping the second output is
    * the same as running them in sequence. */
  lemma TupleSecondOfJoinIsSequence<A, B, X, Y>(first: Exec<A, X>, second: Exec<B, Y>, s: Pair<A, B>)
    ensures TupleSecondExec((p: Pair<A, B>) => JoinExec(first, second, p), s)
         == SequenceExec(first, second, s)
  {
  }

  /** `FirstValid::execute` over a pair of outcomes: the first if it is
    * `Ok`, otherwise the second, whatever it is. */
  function FirstValidResult<U, E>(first: Result<U, E>, second: Result<U, E>): (r: Result<U, E>)
    ensures r.Ok? <==> first.Ok? || second.Ok?
    ensures first.Ok? ==> r == first
    ensures first.Err? ==> r == second
  {
    if first.Ok? then first else second
  }

  /** `FirstValid::execute` over a pair of optional values: the first if it
    * is present, otherwise the second, whatever it is. */
  function FirstValidOption<U>(first: Option<U>, second: Option<U>): (r: Option<U>)
    ensures r.Some? <==> first.Some? || second.Some?
    ensures first.Some? ==> r == first
    ensures first.None? ==> r == second
  {
    if first.Some? then first else second
  }

  /** `FirstValid::execute` for outcomes: the child runs once and the
    * selection is made over the pair it returns. */
  function FirstValidResultExec<A, U, E>(action: Exec<A, (Result<U, E>, Result<U, E>)>, s: A): (r: (A, Result<U, E>))
    ensures r.0 == action(s).0
    ensures r.1.Ok? <==> action(s).1.0.Ok? || action(s).1.1.Ok?
    ensures r.1 == (if action(s).1.0.Ok? then action(s).1.0 else action(s).1.1)
  {
    var (a, p) := action(s);
    (a, FirstValidResult(p.0, p.1))
  }

  /** `FirstValid::execute` for optional values: the child runs once and
    * the selection is made over the pair it returns. */
  function FirstValidOptionExec<A, U>(action: Exec<A, (Option<U>, Option<U>)>, s: A): (r: (A, Option<U>))
    ensures r.0 == action(s).0
    ensures r.1.Some? <==> action(s).1.0.Some? || action(s).1.1.Some?
    ensures r.1 == (if action(s).1.0.Some? then action(s).1.0 else action(s).1.1)
  {
    var (a, p) := action(s);
    (a, FirstValidOption(p.0, p.1))
  }

  /** Forgetting failure reasons commutes with choosing the first valid outcome. */
  lemma FirstValidAgreesOnOptions<U, E>(first: Result<U, E>, second: Result<U, E>)
    ensures FirstValidResult(first, second).ToOption()
         == FirstValidOption(first.ToOption(), second.ToOption())
  {
  }

  /** Nesting `FirstValid` either way picks the same outcome. */
  lemma FirstValidIsAssociative<U, E>(a: Result<U, E>, b: Result<U, E>, c: Result<U, E>)
    ensures FirstValidResult(a, FirstValidResult(b, c)) == FirstValidResult(FirstValidResult(a, b), c)
    ensures FirstValidOption(a.ToOption(), FirstValidOption(b.ToOption(), c.ToOption()))
         == FirstValidOption(FirstValidOption(a.ToOption(), b.ToOption()), c.ToOption())
  {
  }

  /* ---------------------------------------------------------------- */
  /* Retry and looping                                                */
  /* ---------------------------------------------------------------- */

  /** How many attempts `ActionUntil` allows: its limit, but never fewer than one. */
  function MaxAttempts(limit: u32): nat {
    if limit == 0 then 1 else limit as nat
  }

  /** `ActionUntil::execute`: the child runs at least once and at most
    * `MaxAttempts(limit)` times, stopping at the first `Ok`; the result is
    * the last attempt's output. `attempts` is the loop's `count`. */
  method UntilExecute<A, U, E>(exec: Exec<A, Result<U, E>>, u: Until<A>)
    returns (next: Until<A>, result: Result<U, E>, attempts: nat)
    ensures next.limit == u.limit
    ensures 1 <= attempts <= MaxAttempts(u.limit)
    ensures next.action == Run(exec, u.action, attempts)
    ensures result == Out(exec, u.action, attempts - 1)
    ensures forall k :: 0 <= k < attempts - 1 ==> Out(exec, u.action, k).Err?
    ensures result.Err? ==> attempts == MaxAttempts(u.limit)
  {
    var count: u32 := 1;
    var state;
    state, result := exec(u.action).0, exec(u.action).1;
    while result.Err? && count < u.limit
      invariant 1 <= count as nat <= MaxAttempts(u.limit)
      invariant state == Run(exec, u.action, count as nat)
      invariant result == Out(exec, u.action, count as nat - 1)
      invariant forall k :: 0 <= k < count as nat - 1 ==> Out(exec, u.action, k).Err?
      decreases u.limit as int - count as int
    {
      state, result := exec(state).0, exec(state).1;
      count := count + 1;
    }
    next := Until(state, u.limit);
    attempts := count as nat;
  }

  /** `ActionWhile::execute`: the child keeps running while it returns `Ok`
    * and stops at its first `Err`; the result is the payload of the last
    * `Ok`, or `default` (`U::default()`) when the very first run fails. The
    * ghost `bound` is an execution known to fail, so the loop ends. */
  method WhileExecute<A, U, E>(exec: Exec<A, Result<U, E>>, default: U, s: A, ghost bound: nat)
    returns (next: A, result: U, executions: nat)
    requires Out(exec, s, bound).Err?
    ensures 1 <= executions <= bound + 1
    ensures next == Run(exec, s, executions)
    ensures Out(exec, s, executions - 1).Err?
    ensures forall k :: 0 <= k < executions - 1 ==> Out(exec, s, k).Ok?
    ensures executions == 1 ==> result == default
    ensures executions > 1 ==> result == Out(exec, s, executions - 2).value
  {
    result := default;
    next := s;
    executions := 0;
    while true
      invariant executions <= bound
      invariant next == Run(exec, s, executions)
      invariant forall k :: 0 <= k < executions ==> Out(exec, s, k).Ok?
      invariant executions == 0 ==> result == default
      invariant executions > 0 ==> result == Out(exec, s, executions - 1).value
      decreases bound - executions
    {
      var (after, outcome) := exec(next);
      next := after;
      executions := executions + 1;
      if outcome.Ok? {
        result := outcome.value;
      } else {
        return;
      }
    }
  }

  /* ---------------------------------------------------------------- */
  /* act_nest! and wrap_action                                        */
  /* ---------------------------------------------------------------- */

  /** `act_nest!(wrapper, a, b, c, ...)`: `wrapper(a, wrapper(b, wrapper(c, ...)))`,
    * for at least two children, all of one type. */
  function ActNest<A>(wrapper: (A, A) -> A, children: seq<A>): A
    requires |children| >= 2
    decreases |children|
  {
    if |children| == 2 then wrapper(children[0], children[1])
    else wrapper(children[0], ActNest(wrapper, children[1..]))
  }

  /** `wrap_action(wrapee, wrapper)`: the two-argument constructor that
    * applies `wrapper` to what `wrapee` builds. */
  function WrapAction<T, U, V, W>(wrapee: (T, U) -> V, wrapper: V -> W): (T, U) -> W
  {
    (t: T, u: U) => wrapper(wrapee(t, u))
  }

  /** A composition tree, used to observe the shape `act_nest!` builds. */
  datatype Tree<L> = Leaf(leaf: L) | Node(left: Tree<L>, right: Tree<L>)

  /** The leaves of a tree, left to right. */
  function Frontier<L>(t: Tree<L>): seq<L> {
    match t
    case Leaf(l) => [l]
    case Node(l, r) => Frontier(l) + Frontier(r)
  }

  /** Every left child is a leaf: the tree leans entirely to the right. */
  predicate RightNested<L>(t: Tree<L>) {
    t.Leaf? || (t.left.Leaf? && RightNested(t.right))
  }

  /** `act_nest!` keeps every child exactly once and in order, and nests to the right. */
  lemma {:induction false} ActNestKeepsOrder<L>(children: seq<L>)
    requires |children| >= 2
    ensures
      var t := ActNest((l: Tree<L>, r: Tree<L>) => Node(l, r), seq(|children|, i requires 0 <= i < |children| => Leaf(children[i])));
      Frontier(t) == children && t.Node? && t.left == Leaf(children[0]) && RightNested(t)
    decreases |children|
  {
    var node := (l: Tree<L>, r: Tree<L>) => Node(l, r);
    var leaves := seq(|children|, i requires 0 <= i < |children| => Leaf(children[i]));
    if |children| > 2 {
      ActNestKeepsOrder(children[1..]);
      var rest := seq(|children| - 1, i requires 0 <= i < |children| - 1 => Leaf(children[1..][i]));
      assert leaves[1..] == rest;
      assert children == [children[0]] + children[1..];
    }
  }

  /** The outputs of the nested `wrap_action(ActionConcurrent::new, FirstValid::new)`
    * tree over children with outputs `outs`: the first present value, if any. */
  lemma {:induction false} ActNestFirstValid<U>(outs: seq<Option<U>>)
    requires |outs| >= 2
    ensures
      var r := ActNest(WrapAction((x: Option<U>, y: Option<U>) => (x, y),
                                  (p: (Option<U>, Option<U>)) => FirstValidOption(p.0, p.1)), outs);
      && (r.None? <==> forall i :: 0 <= i < |outs| ==> outs[i].None?)
      && (r.Some? ==> exists i :: 0 <= i < |outs| && r == outs[i]
                                 && forall j :: 0 <= j < i ==> outs[j].None?)
    decreases |outs|
  {
    var w := WrapAction((x: Option<U>, y: Option<U>) => (x, y),
                        (p: (Option<U>, Option<U>)) => FirstValidOption(p.0, p.1));
    var r := ActNest(w, outs);
    if |outs| == 2 {
      assert r == FirstValidOption(outs[0], outs[1]);
      if r.Some? {
        if outs[0].Some? {
          assert r == outs[0];
        } else {
          assert r == outs[1];
        }
      }
    } else {
      ActNestFirstValid(outs[1..]);
      var rest := ActNest(w, outs[1..]);
      assert r == FirstValidOption(outs[0], rest);
      if outs[0].None? {
        assert r == rest;
        forall i | 0 <= i < |outs| && rest.None?
          ensures outs[i].None?
        {
          if i > 0 {
            assert outs[i] == outs[1..][i - 1];
          }
        }
        if rest.Some? {
          var i :| 0 <= i < |outs[1..]| && rest == outs[1..][i]
                   && forall j :: 0 <= j < i ==> outs[1..][j].None?;
          assert r == outs[i + 1];
          forall j | 0 <= j < i + 1
            ensures outs[j].None?
          {
            if j > 0 {
              assert outs[j] == outs[1..][j - 1];
            }
          }
        }
      }
    }
  }
}
