/** The interceptor as the object it is: a handler holding a transaction
    manager and a target, whose invoke and invokeWithTransaction act on them
    step by step. Each step of the collaborators is appended to one shared
    event log, and each method is proved to leave exactly the state the
    functions of module Interception describe. */
module Proxy {
  import opened Interception
  import opened TraceProperties

  /** The record of everything the handler makes its collaborators do. */
  class EventLog {
    var events: seq<Event>

    constructor ()
      ensures events == []
    {
      events := [];
    }

    method Append(e: Event)
      modifies this
      ensures events == old(events) + [e]
    {
      events := events + [e];
    }
  }

  /** The transaction manager at its boundary: getTransaction hands out a
      fresh status, commit may throw (as commitFault decides for that status),
      rollback does not; every call is logged. */
  class TransactionManager {
    const log: EventLog
    const commitFault: Handle -> Option<Exc>
    var next: nat

    constructor (log: EventLog, commitFault: Handle -> Option<Exc>)
      ensures this.log == log && this.commitFault == commitFault && next == 0
    {
      this.log := log;
      this.commitFault := commitFault;
      next := 0;
    }

    method GetTransaction() returns (status: Handle)
      modifies this, log
      ensures status == Handle(old(next)) && next == old(next) + 1
      ensures log.events == old(log.events) + [Begin(status)]
    {
      status := Handle(next);
      next := next + 1;
      log.Append(Begin(status));
    }

    /** Returns the exception commit throws, if it throws. */
    method Commit(status: Handle) returns (thrown: Option<Exc>)
      modifies log
      ensures thrown == commitFault(status)
      ensures log.events == old(log.events) + [Event.Commit(status)]
    {
      log.Append(Event.Commit(status));
      thrown := commitFault(status);
    }

    method Rollback(status: Handle)
      modifies log
      ensures log.events == old(log.events) + [Event.Rollback(status)]
    {
      log.Append(Event.Rollback(status));
    }
  }

  /** The wrapped object: the methods its concrete class declares, with
      their markers, and what each execution of a method does. */
  class Target {
    const log: EventLog
    const declared: map<Signature, bool>
    const behaviour: (Signature, seq<Value>, nat) -> Outcome
    var calls: nat

    constructor (log: EventLog, declared: map<Signature, bool>, behaviour: (Signature, seq<Value>, nat) -> Outcome)
      ensures this.log == log && this.declared == declared && this.behaviour == behaviour && calls == 0
    {
      this.log := log;
      this.declared := declared;
      this.behaviour := behaviour;
      calls := 0;
    }

    method Execute(m: Signature, args: seq<Value>) returns (o: Outcome)
      modifies this, log
      ensures o == behaviour(m, args, old(calls)) && calls == old(calls) + 1
      ensures log.events == old(log.events) + [Invoke(m)]
    {
      o := behaviour(m, args, calls);
      calls := calls + 1;
      log.Append(Invoke(m));
    }
  }

  class TransactionHandler {
    // Both are final in the handler: fixed by the constructor, never reassigned.
    const transactionManager: TransactionManager
    const target: Target

    /** The manager and the target report to the same log, and that log is
        well formed. */
    ghost predicate Valid()
      reads this, transactionManager, transactionManager.log
    {
      && transactionManager.log == target.log
      && TraceOk(transactionManager.log.events, transactionManager.next)
    }

    function Collaborators(): Env
    {
      Env(target.declared, target.behaviour, transactionManager.commitFault)
    }

    ghost function Observed(): World
      reads this, transactionManager, target, transactionManager.log
    {
      World(transactionManager.log.events, target.calls, transactionManager.next)
    }

    constructor (transactionManager: TransactionManager, target: Target)
      requires transactionManager.log == target.log
      requires TraceOk(transactionManager.log.events, transactionManager.next)
      ensures this.transactionManager == transactionManager && this.target == target
      ensures Valid()
    {
      this.transactionManager := transactionManager;
      this.target := target;
    }

    /** A call on the proxy: the lookup on the concrete class, the
        transactional branch for a marked declaration, and then, whenever that
        branch did not throw, a plain execution whose outcome is returned. */
    method Invoke(m: Signature, args: seq<Value>) returns (r: Response)
      requires Valid()
      modifies transactionManager, target, transactionManager.log
      ensures Valid()
      ensures Observed() == Step(Collaborators(), old(Observed()), Call(m, args)).world
      ensures r == Step(Collaborators(), old(Observed()), Call(m, args)).response
    {
      StepPreservesTraceOk(Collaborators(), Observed(), Call(m, args));
      match Classify(target.declared, m)
      case Missing =>
        r := Raised(NoSuchMethod(m));
      case Found(transactional) =>
        if transactional {
          var cause := InvokeWithTransaction(m, args);
          if cause.Some? {
            return Raised(DataAccessException(cause.value));
          }
        }
        var o := target.Execute(m, args);
        r := match o
          case Ok(v) => Returned(v)
          case Throws(e) => Raised(Propagated(e));
    }

    /** getTransaction, then the execution and commit inside one try; an
        exception from either rolls the same status back and is returned as
        the cause of the DataAccessException to throw. */
    method InvokeWithTransaction(m: Signature, args: seq<Value>) returns (cause: Option<Exc>)
      requires transactionManager.log == target.log
      modifies transactionManager, target, transactionManager.log
      ensures transactionManager.log == target.log
      ensures Observed() == Demarcate(Collaborators(), old(Observed()), Call(m, args)).world
      ensures cause == Demarcate(Collaborators(), old(Observed()), Call(m, args)).cause
    {
      var status := transactionManager.GetTransaction();
      var caught: Option<Exc>;
      var o := target.Execute(m, args);
      if o.Throws? {
        caught := Some(o.exc);
      } else {
        caught := transactionManager.Commit(status);
      }
      if caught.Some? {
        transactionManager.Rollback(status);
      }
      cause := caught;
    }
  }
}
