/** The asynchronous operation that every pipeline stage is built from
    (Sources/ResultOperation.swift): a two-case `Result`, the
    ready/executing/finished lifecycle of `AsynchronousOperation`, and the result
    slot of `ResultOperation`, written as pure transitions on an immutable value.

    The execution block is a closure in the source; here it is represented by what
    one invocation of it does (return a value or throw), and `invocations` counts how
    often it has been invoked. Cancellation is the flag `cancelled` passed to `Start`. */
module ResultOperation {
  import opened SwiftCore

  /** `Result<Value>`: a produced value or an error. */
  datatype Result<+V, +E> = Ok(value: V) | Error(error: E)

  /** `result.ok(or: fallback)` */
  function OkOr<V, E>(r: Result<V, E>, fallback: V): (v: V)
    ensures r.Ok? ==> v == r.value
    ensures r.Error? ==> v == fallback
  {
    match r
    case Ok(x) => x
    case Error(_) => fallback
  }

  /** `result.value`: the produced value, or `nil` for an error. */
  function ValueOf<V, E>(r: Result<V, E>): (o: Optional<V>)
    ensures o.Some? <==> r.Ok?
    ensures o.Some? ==> o.value == r.value
  {
    match r
    case Ok(x) => Some(x)
    case Error(_) => None
  }

  /** `ok(or:)` is `value` with a fallback for the error case. */
  lemma OkOrIsValueOrElse<V, E>(r: Result<V, E>, fallback: V)
    ensures OkOr(r, fallback) == OrElse(ValueOf(r), fallback)
    ensures OkOr(r, fallback) != fallback ==> r == Ok(OkOr(r, fallback))
  {
  }

  /** `ResultOperation.Error`, plus whatever the block itself threw. */
  datatype OperationError<+E> = DidNotStart | UndefinedError | NoExecutionBlock | Failed(thrown: E)

  /** `AsynchronousOperation.State` */
  datatype OperationState = Ready | Executing | Finished

  /** Position of a state in the lifecycle ready → executing → finished. */
  function Rank(s: OperationState): nat
  {
    match s
    case Ready => 0
    case Executing => 1
    case Finished => 2
  }

  datatype Operation<+V, +E> = Operation(
    state: OperationState,
    result: Result<V, OperationError<E>>,
    block: Optional<Throwing<V, E>>,
    invocations: nat)

  /** `ResultOperation()`: ready, no block, nothing produced yet. */
  function New<V, E>(): (op: Operation<V, E>)
    ensures op.state == Ready && op.result == Error(DidNotStart)
    ensures op.block == None && op.invocations == 0
  {
    Operation(Ready, Error(DidNotStart), None, 0)
  }

  /** `ResultOperation(block)`: the convenience initializer. */
  function WithBlock<V, E>(block: Throwing<V, E>): (op: Operation<V, E>)
    ensures op.state == Ready && op.result == Error(DidNotStart)
    ensures op.block == Some(block) && op.invocations == 0
  {
    New().(block := Some(block))
  }

  /** `setExecutionBlock(_:)`: installs `block`, forgetting any earlier one. */
  function SetExecutionBlock<V, E>(op: Operation<V, E>, block: Throwing<V, E>): (r: Operation<V, E>)
    ensures r.block == Some(block)
    ensures r.(block := op.block) == op
  {
    op.(block := Some(block))
  }

  /** Setting a block twice leaves only the second one. */
  lemma SetExecutionBlockReplaces<V, E>(op: Operation<V, E>, first: Throwing<V, E>, second: Throwing<V, E>)
    ensures SetExecutionBlock(SetExecutionBlock(op, first), second) == SetExecutionBlock(op, second)
    ensures Execute(SetExecutionBlock(SetExecutionBlock(op, first), second))
         == Execute(SetExecutionBlock(op, second))
  {
  }

  /** `finish()` */
  function Finish<V, E>(op: Operation<V, E>): (r: Operation<V, E>)
    ensures r.state == Finished
    ensures r.(state := op.state) == op
  {
    op.(state := Finished)
  }

  /** `execute()`: without a block the slot records `noExecutionBlock` and the
      operation is never finished; with one, the block runs once, its value or
      error lands in the slot and the operation finishes. */
  function Execute<V, E>(op: Operation<V, E>): (r: Operation<V, E>)
    ensures r.block == op.block
    ensures op.block.None? ==> r == op.(result := Error(NoExecutionBlock))
    ensures op.block.Some? ==> r.state == Finished && r.invocations == op.invocations + 1
    ensures op.block.Some? && op.block.value.Returned? ==> r.result == Ok(op.block.value.value)
    ensures op.block.Some? && op.block.value.Threw? ==> r.result == Error(Failed(op.block.value.error))
  {
    var undefined := op.(result := Error(UndefinedError));
    match op.block
    case None => undefined.(result := Error(NoExecutionBlock))
    case Some(outcome) =>
      var invoked := undefined.(invocations := op.invocations + 1);
      var stored := match outcome
        case Returned(v) => invoked.(result := Ok(v))
        case Threw(e) => invoked.(result := Error(Failed(e)));
      Finish(stored)
  }

  /** `start()`: a cancelled operation finishes at once without running its block;
      otherwise it becomes executing and `execute()` runs. */
  function Start<V, E>(op: Operation<V, E>, cancelled: bool): (r: Operation<V, E>)
    ensures r.state != Ready
    ensures r.block == op.block
    ensures r.invocations <= op.invocations + 1
    ensures cancelled ==> r.state == Finished && r.result == op.result && r.invocations == op.invocations
    ensures !cancelled && op.block.None? ==> r == op.(state := Executing, result := Error(NoExecutionBlock))
    ensures !cancelled && op.block.Some? ==> r.state == Finished && r.invocations == op.invocations + 1
    ensures !cancelled && op.block.Some? ==>
      r.result == (match op.block.value
                   case Returned(v) => Ok(v)
                   case Threw(e) => Error(Failed(e)))
  {
    if cancelled then Finish(op)
    else Execute(op.(state := Executing))
  }

  /** `isReady`: the own state is ready and (Foundation's part) every dependency has finished. */
  predicate IsReady(state: OperationState, dependenciesFinished: bool)
  {
    state == Ready && dependenciesFinished
  }

  /** `isExecuting` */
  predicate IsExecuting(state: OperationState)
  {
    state == Executing
  }

  /** `isFinished` */
  predicate IsFinished(state: OperationState)
  {
    state == Finished
  }

  /** The three flags are derived from one state, so at most one of them holds,
      and `isReady` can only hold before the operation starts. */
  lemma FlagsAreExclusive(state: OperationState, dependenciesFinished: bool)
    ensures !(IsExecuting(state) && IsFinished(state))
    ensures IsReady(state, dependenciesFinished) ==> !IsExecuting(state) && !IsFinished(state)
    ensures IsReady(state, dependenciesFinished) ==> Rank(state) == 0
    ensures IsExecuting(state) || IsFinished(state) || state == Ready
  {
  }

  /** Starting a ready operation moves it strictly forward in the lifecycle, and it
      never comes back to ready however often `start` and `execute` are repeated.
      The lifecycle is not monotone beyond that: the body of `start` does not check
      the state, so starting a finished operation that has no block again,
      uncancelled, puts it back to executing. This case holds in the model because
      Foundation's `super.start()`, which refuses an operation that is not ready, is
      not modelled. */
  lemma NeverBackToReady<V, E>(op: Operation<V, E>, cancelled: bool, again: bool)
    requires op.state == Ready
    ensures Rank(Start(op, cancelled).state) > Rank(op.state)
    ensures Start(Start(op, cancelled), again).state != Ready
    ensures Execute(Start(op, cancelled)).state != Ready
    ensures Rank(Execute(Start(op, cancelled)).state) >= Rank(Start(op, cancelled).state)
    ensures op.block.None? && !again ==>
      Start(op, true).state == Finished && Start(Start(op, true), again).state == Executing
  {
  }

  /** A fresh operation that is cancelled before it starts keeps `didNotStart`
      and its block is never invoked. */
  lemma CancelledBeforeStartDidNotStart<V, E>(block: Throwing<V, E>)
    ensures Start(WithBlock(block), true).result == Error(DidNotStart)
    ensures Start(WithBlock(block), true).state == Finished
    ensures Start(WithBlock(block), true).invocations == 0
  {
  }

  /** A fresh operation without a block never finishes: its state stays executing. */
  lemma NoBlockNeverFinishes<V, E>()
    ensures Start(New<V, E>(), false).state == Executing
    ensures Start(New<V, E>(), false).result == Error(NoExecutionBlock)
    ensures !IsFinished(Start(New<V, E>(), false).state)
  {
  }
}
