# Selective transaction interceptor

This project models `TransactionHandler` from the `aop` stage-0 exercise. It is a dynamic-proxy
invocation handler that wraps a target object. For every call on the proxy it looks the invoked
method up, by name and parameter types, among the methods declared by the target's concrete
class. If that declaration carries the `@Transactional` marker, the handler runs the method
inside a transaction:

1. `getTransaction` on the transaction manager;
2. the target method, and then `commit` on the returned status;
3. on any exception from step 2, `rollback` on the same status and a `DataAccessException`
   wrapping the exception.

Unless that transactional branch threw, the handler then executes the target once more and
returns that execution's result.

Files:

- `model.dfy` (module `Interception`) holds the data model and the behaviour as functions on
  values. The caller sees a `Response`: `Returned(v)`, or `Raised` with `NoSuchMethod`,
  `DataAccessException(cause)` or `Propagated(e)`. The collaborators leave an event log of
  `Begin(h)`, `Commit(h)`, `Rollback(h)` and `Invoke(m)`. The functions are `Classify` (the
  lookup), `Demarcate` (`invokeWithTransaction`), `Step` (`invoke`) and `Run` (any sequence of
  calls on one proxy).
- `properties.dfy` (module `TraceProperties`) proves what one call does on each path. It also
  proves that any sequence of calls keeps the event log well formed (`TraceOk`):
  - every handle was issued, and no handle is issued twice;
  - every `Commit`/`Rollback` names the status its own call obtained;
  - every begun transaction is terminated;
  - no handle is committed twice or rolled back twice.
- `handler.dfy` (module `Proxy`) holds the imperative form. `TransactionHandler` has `const`
  (final) `transactionManager` and `target` fields. Its `Invoke` and `InvokeWithTransaction`
  methods call the `TransactionManager` and `Target` objects step by step; both objects append
  to one shared `EventLog`. Each method's postcondition equates the new state and the result
  with `Step` or `Demarcate` on the old state, and `Invoke` keeps `TraceOk` as the class
  invariant.
- `scenario.dfy` (module `AccountScenario`) is a worked example. An account's marked `withdraw`
  fails for lack of funds, and its unmarked `getBalance` follows. It is stated once on `Step`
  and once through a handler built from fresh collaborators.

The code's behaviour is modelled as written, including two points a reader may not expect:

- **Success path.** After a transaction commits, the target is executed a second time, outside
  any transaction, and the caller gets that second outcome. The result computed inside the
  transaction is discarded. If the second execution throws, its exception propagates as is.
- **Failing commit.** `commit` sits inside the `try`. A failing commit is therefore caught and
  followed by `rollback` on the same status, so the log then holds both `Commit(h)` and `Rollback(h)` for
  that status.

Collaborators that the handler cannot see become parameters, gathered in `Env`:

- the concrete class's declared methods and their markers: a `map<Signature, bool>`;
- what the k-th execution of the target does for a given method and arguments:
  `behaviour(m, args, k)`, an `Ok(v)` or a `Throws(e)`;
- whether committing a given status throws: `commitFault(h)`.

## Model

| member | source | states |
|---|---|---|
| `Proxy.TransactionHandler.constructor` | aop/src/test/java/aop/stage0/TransactionHandler.java:13-19 | the handler keeps exactly the manager and target it was given; they are `const`, so no later call can reassign them |
| `Proxy.TransactionHandler.Invoke` | aop/src/test/java/aop/stage0/TransactionHandler.java:25-31 | the new log, target execution count and next handle, and the result, are exactly those of `Step` on the old state; the well-formed-log invariant is kept |
| `Proxy.TransactionHandler.InvokeWithTransaction` | aop/src/test/java/aop/stage0/TransactionHandler.java:33-42 | getTransaction, execution, commit inside one try, rollback of the same status on an exception from either: the new state and the returned cause are those of `Demarcate` |
| `Proxy.TransactionManager.GetTransaction` | aop/src/test/java/aop/stage0/TransactionHandler.java:34 | hands out a status never issued before and logs `Begin` of it |
| `Proxy.TransactionManager.Commit` | aop/src/test/java/aop/stage0/TransactionHandler.java:37 | logs the commit attempt on the given status and reports whether it threw |
| `Proxy.TransactionManager.Rollback` | aop/src/test/java/aop/stage0/TransactionHandler.java:39 | logs a rollback of the given status |
| `Proxy.Target.Execute` | aop/src/test/java/aop/stage0/TransactionHandler.java:30 | one execution of the target method: logs `Invoke`, counts the execution, returns that execution's outcome |
| `Interception.Demarcate` | aop/src/test/java/aop/stage0/TransactionHandler.java:33-42 | the transactional branch issues exactly one new handle, executes the target once, starts the log with `Begin(h), Invoke`; when it does not fail the log gains exactly `Begin(h), Invoke, Commit(h)` |
| `Interception.Classify` | aop/src/test/java/aop/stage0/TransactionHandler.java:26-27 | the lookup finds a declaration exactly when the concrete class declares the signature, and reports it transactional exactly when that declaration is marked; what each outcome leads to is stated by the path lemmas below |
| `Interception.Direct` | aop/src/test/java/aop/stage0/TransactionHandler.java:30 | the plain execution appends one `Invoke`, issues no handle, and returns the value or propagates the exception of that execution unchanged |
| `Interception.Step` | aop/src/test/java/aop/stage0/TransactionHandler.java:25-31 | a call only appends to the log, raises `NoSuchMethod` exactly for an undeclared signature, raises `DataAccessException` only for a marked one, and issues a handle exactly when marked; each path is stated in full by the path lemmas and the log invariant by the `TraceOk` lemmas |
| `TraceProperties.MissingMethodFailsFast` | aop/src/test/java/aop/stage0/TransactionHandler.java:26 | a signature the concrete class does not declare raises `NoSuchMethod` and leaves the log, the target and the manager untouched |
| `TraceProperties.UnmarkedPassesThrough` | aop/src/test/java/aop/stage0/TransactionHandler.java:27-30 | an unmarked declaration: no manager event and no new handle; the target runs exactly once; its value is returned, or its exception propagated, unchanged |
| `TraceProperties.CommittedThenInvokedAgain` | aop/src/test/java/aop/stage0/TransactionHandler.java:28-37 | marked, execution returns, commit succeeds: the log gains `Begin(h), Invoke, Commit(h)` then a second `Invoke` outside the transaction, with no `Rollback`; the caller gets the second execution's outcome |
| `TraceProperties.TargetFailureRollsBack` | aop/src/test/java/aop/stage0/TransactionHandler.java:35-40 | marked, execution throws: the log gains `Begin(h), Invoke, Rollback(h)`, with no `Commit` and no second execution; the caller gets `DataAccessException` caused by the target's exception |
| `TraceProperties.CommitFailureRollsBack` | aop/src/test/java/aop/stage0/TransactionHandler.java:35-40 | marked, execution returns, commit throws: the log gains `Begin(h), Invoke, Commit(h), Rollback(h)` on the same status; the caller gets `DataAccessException` caused by the commit failure |
| `TraceProperties.StepExtendsLog` | aop/src/test/java/aop/stage0/TransactionHandler.java:25-42 | a call only appends to the event log |
| `TraceProperties.StepUsesOwnHandle` | aop/src/test/java/aop/stage0/TransactionHandler.java:34-39 | every manager event of a call names the status that call obtained; only a marked call obtains one; any other call logs target executions only |
| `TraceProperties.DataAccessIffRollback` | aop/src/test/java/aop/stage0/TransactionHandler.java:38-40 | on a well-formed log, a marked call raises `DataAccessException` if and only if it rolled back its own status |
| `TraceProperties.StepBegins` | aop/src/test/java/aop/stage0/TransactionHandler.java:27-34 | one call adds one `Begin` and one handle if its declaration is marked, none otherwise |
| `TraceProperties.StepPreservesTraceOk` | aop/src/test/java/aop/stage0/TransactionHandler.java:25-42 | one call keeps the log well formed: handles issued and never reused, terminations name their own call's status, every begun transaction terminated, no repeated commit or rollback |
| `TraceProperties.RunPreservesTraceOk` | aop/src/test/java/aop/stage0/TransactionHandler.java:25-42 | the same for any sequence of calls on one proxy |
| `TraceProperties.RunExtendsLog` | aop/src/test/java/aop/stage0/TransactionHandler.java:25-42 | over any sequence of calls the log is append-only |
| `TraceProperties.RunOneTransactionPerMarkedCall` | aop/src/test/java/aop/stage0/TransactionHandler.java:27-34 | over any sequence of calls, the `Begin` events and issued handles grow by exactly the number of marked calls |
| `TraceProperties.RunUnmarkedLeavesManagerAlone` | aop/src/test/java/aop/stage0/TransactionHandler.java:27-30 | a sequence of calls none of which is marked issues no handle and logs only target executions |
| `AccountScenario.WithdrawThenBalance` | aop/src/test/java/aop/stage0/TransactionHandler.java:25-42 | a failing marked `withdraw` and an unmarked `getBalance` on a fresh proxy: one rolled-back transaction, a `DataAccessException` caused by the insufficient funds, then the balance returned without touching the manager |
| `AccountScenario.WithdrawThenBalanceThroughProxy` | aop/src/test/java/aop/stage0/TransactionHandler.java:16-42 | the same two calls made through `TransactionHandler.Invoke` on freshly built collaborators give the same responses and the same log |

## Left out

- Reflection is not modelled: `getDeclaredMethod`, `isAnnotationPresent` and `Method.invoke`.
  The declared-method registry and the `behaviour` function stand in for them.
- `Method.invoke` wraps a target's exception in an `InvocationTargetException`; the model drops
  that wrapper. So in the real code the `DataAccessException`'s cause (and the exception rethrown
  at line 30) is the wrapper, and the model uses the target's exception itself.
- The proxy's handling of checked exceptions that an interface does not declare is not
  modelled. This covers `NoSuchMethodException` and the `InvocationTargetException` thrown from
  line 30: the JDK proxy turns them into `UndeclaredThrowableException`.
- A `commit` that throws an `Error` rather than an `Exception` is not modelled. Such an error
  escapes line 38 without a rollback; the model has a single kind of thrown outcome.
- `getTransaction` is modelled as never throwing. In the code it is called before the `try`,
  so an exception from it would reach the caller unwrapped, with no rollback, no
  `DataAccessException` and no execution of the target.
- `rollback` is modelled as never throwing. A throwing rollback would replace the
  `DataAccessException`.
- `DefaultTransactionAttribute` and the rest of the Spring transaction manager are not modelled.
  The manager is an issuer of fresh statuses plus an event log.
- The unused `proxy` argument of `invoke` is not modelled.
- Thread-safety of the handler and of the manager is not modelled; calls are sequential.
- Each execution of the target is modelled as one indivisible step. The code's
  `method.invoke(target, args)` (lines 30 and 36) runs arbitrary target code. That code could
  call back into a proxy on the same transaction manager or use the manager directly; this is
  not modelled. A nested `invokeWithTransaction` would log `Begin(h0), Begin(h1), …, Commit(h1),
  …, Commit(h0)`, which `TraceOk` rejects. So `TraceOk`'s rule that every termination names the
  latest `Begin` depends on this assumption. So does the handler constructor's precondition that
  the manager's log is already well formed: in Java a handler can be built on a manager that has
  a transaction open.
- `thread/src/test/java/concurrency/stage2/AppTest.java` is not part of this model. It is an
  HTTP and thread-pool experiment against a live server.
- `servlet/src/main/java/com/example/CharacterEncodingFilter.java` is not part of this model. It
  sets a character encoding and delegates, with no decisions.
