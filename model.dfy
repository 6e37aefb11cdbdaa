/** The selective transaction interceptor, stated on values.

    A call on the proxy names a method (its name and parameter types) and
    its arguments. The interceptor looks the method up among the methods the
    target's concrete class declares; if the declaration carries the
    transactional marker it runs the method once inside a transaction
    (getTransaction, invoke, commit; rollback on failure) and then, when that
    did not fail, invokes the target again and returns that second result.
    Everything the interceptor does to its collaborators is recorded in one
    append-only event log. */
module Interception {

  /** Identity of a method: its name and its parameter types (line 26). */
  datatype Signature = Signature(name: string, parameterTypes: seq<string>)

  /** An argument or a returned object; the model never looks inside it. */
  datatype Value = Null | Object(id: nat)

  /** An exception, thrown by the target method or by commit. */
  datatype Exc = Exc(className: string, message: string)

  /** The transaction status that getTransaction hands out. */
  datatype Handle = Handle(id: nat)

  /** What one execution of the target method does. */
  datatype Outcome = Ok(value: Value) | Throws(exc: Exc)

  /** What the proxy's caller sees. */
  datatype Failure =
    | NoSuchMethod(signature: Signature)   // getDeclaredMethod found nothing
    | DataAccessException(cause: Exc)      // the transactional branch failed
    | Propagated(exc: Exc)                 // the target's own exception, as is

  datatype Response = Returned(value: Value) | Raised(failure: Failure)

  /** One entry of the event log shared by the transaction manager and the target. */
  datatype Event =
    | Begin(h: Handle)
    | Commit(h: Handle)
    | Rollback(h: Handle)
    | Invoke(signature: Signature)

  predicate Terminates(e: Event) { e.Commit? || e.Rollback? }

  /** Result of looking a method up on the target's concrete class. */
  datatype Lookup = Missing | Found(transactional: bool)

  /** The collaborators' behaviour, which the interceptor cannot see:
      - declared: the methods the target's concrete class declares, each
        with whether its declaration carries the transactional marker;
      - behaviour: the outcome of the k-th execution of the target, for a
        method and its arguments (so two executions may differ);
      - commitFault: whether committing a given transaction throws. */
  datatype Env = Env(
    declared: map<Signature, bool>,
    behaviour: (Signature, seq<Value>, nat) -> Outcome,
    commitFault: Handle -> Option<Exc>)

  datatype Option<T> = None | Some(value: T)

  /** The observable state: the event log, how many times the target has been
      executed, and the id of the next transaction handle to be issued. */
  datatype World = World(log: seq<Event>, calls: nat, next: nat)

  /** One invocation on the proxy. */
  datatype Call = Call(signature: Signature, args: seq<Value>)

  datatype Effect = Effect(world: World, response: Response)

  /** The outcome of the transactional branch: the new world and, when it
      failed, the exception that becomes the cause of the DataAccessException. */
  datatype Demarcation = Demarcation(world: World, cause: Option<Exc>)

  /** The lookup on the concrete class (line 26) and its marker test (line 27). */
  function Classify(declared: map<Signature, bool>, m: Signature): (r: Lookup)
    ensures r.Found? <==> m in declared
    ensures r == Found(true) <==> m in declared && declared[m]
  {
    if m in declared then Found(declared[m]) else Missing
  }

  /** invokeWithTransaction (lines 33-42): getTransaction, invoke, commit, all
      inside one try; any exception, from the target or from commit itself,
      leads to rollback on the same status and a DataAccessException. */
  function Demarcate(env: Env, w: World, c: Call): (d: Demarcation)
    ensures d.world.next == w.next + 1
    ensures d.world.calls == w.calls + 1
    ensures |d.world.log| > |w.log| + 2
    ensures d.world.log[..|w.log| + 2] == w.log + [Begin(Handle(w.next)), Invoke(c.signature)]
    ensures d.cause.None? ==> d.world.log == w.log + [Begin(Handle(w.next)), Invoke(c.signature), Commit(Handle(w.next))]
  {
    var h := Handle(w.next);
    var begun := w.log + [Begin(h), Invoke(c.signature)];
    match env.behaviour(c.signature, c.args, w.calls)
    case Throws(e) =>
      Demarcation(World(begun + [Rollback(h)], w.calls + 1, w.next + 1), Some(e))
    case Ok(_) =>
      match env.commitFault(h)
      case None =>
        Demarcation(World(begun + [Commit(h)], w.calls + 1, w.next + 1), None)
      case Some(ce) =>
        Demarcation(World(begun + [Commit(h), Rollback(h)], w.calls + 1, w.next + 1), Some(ce))
  }

  /** The plain invocation of line 30: run the target once and hand its
      result or its exception to the caller unchanged. */
  function Direct(env: Env, w: World, c: Call): (r: Effect)
    ensures r.world.log == w.log + [Invoke(c.signature)]
    ensures r.world.next == w.next && r.world.calls == w.calls + 1
    ensures env.behaviour(c.signature, c.args, w.calls).Ok? ==>
      r.response == Returned(env.behaviour(c.signature, c.args, w.calls).value)
    ensures env.behaviour(c.signature, c.args, w.calls).Throws? ==>
      r.response == Raised(Propagated(env.behaviour(c.signature, c.args, w.calls).exc))
  {
    var o := env.behaviour(c.signature, c.args, w.calls);
    var w' := World(w.log + [Invoke(c.signature)], w.calls + 1, w.next);
    match o
    case Ok(v) => Effect(w', Returned(v))
    case Throws(e) => Effect(w', Raised(Propagated(e)))
  }

  /** invoke (lines 25-31). */
  function Step(env: Env, w: World, c: Call): (r: Effect)
    ensures w.log <= r.world.log
    ensures r.response == Raised(NoSuchMethod(c.signature)) <==> c.signature !in env.declared
    ensures r.response.Raised? && r.response.failure.DataAccessException? ==> Classify(env.declared, c.signature) == Found(true)
    ensures r.world.next == w.next + (if Classify(env.declared, c.signature) == Found(true) then 1 else 0)
  {
    match Classify(env.declared, c.signature)
    case Missing => Effect(w, Raised(NoSuchMethod(c.signature)))
    case Found(transactional) =>
      if transactional then
        var d := Demarcate(env, w, c);
        if d.cause.Some? then Effect(d.world, Raised(DataAccessException(d.cause.value)))
        else Direct(env, d.world, c)
      else Direct(env, w, c)
  }

  /** The world after a sequence of invocations on the same proxy. */
  function Run(env: Env, w: World, cs: seq<Call>): World
    decreases |cs|
  {
    if cs == [] then w
    else Step(env, Run(env, w, cs[..|cs| - 1]), cs[|cs| - 1]).world
  }

  /** The number of calls in cs whose declaration carries the marker. */
  function MarkedCalls(declared: map<Signature, bool>, cs: seq<Call>): nat
    decreases |cs|
  {
    if cs == [] then 0
    else MarkedCalls(declared, cs[..|cs| - 1])
         + (if Classify(declared, cs[|cs| - 1].signature) == Found(true) then 1 else 0)
  }

  function CountBegins(log: seq<Event>): nat
    decreases |log|
  {
    if log == [] then 0
    else CountBegins(log[..|log| - 1]) + (if log[|log| - 1].Begin? then 1 else 0)
  }

  /** The handle of the most recent Begin in log, if any. */
  function LastBegin(log: seq<Event>): Option<Handle>
    decreases |log|
  {
    if log == [] then None
    else if log[|log| - 1].Begin? then Some(log[|log| - 1].h)
    else LastBegin(log[..|log| - 1])
  }
}
