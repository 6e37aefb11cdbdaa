/** What the interceptor guarantees, proved about the functions of module
    Interception: first for a single call on the proxy, then for the event
    log of any sequence of calls. */
module TraceProperties {
  import opened Interception

  // ---------------------------------------------------------------------
  // One call

  /** A method the concrete class does not declare: the lookup fails before
      the transaction manager or the target is touched. */
  lemma MissingMethodFailsFast(env: Env, w: World, c: Call)
    requires c.signature !in env.declared
    ensures Step(env, w, c).world == w
    ensures Step(env, w, c).response == Raised(NoSuchMethod(c.signature))
  {
  }

  /** A declared method without the marker: no transaction-manager event and
      no new handle, one execution of the target, whose result or exception
      reaches the caller unchanged. */
  lemma UnmarkedPassesThrough(env: Env, w: World, c: Call)
    requires c.signature in env.declared && !env.declared[c.signature]
    ensures var e := Step(env, w, c);
      && e.world == World(w.log + [Invoke(c.signature)], w.calls + 1, w.next)
      && var o := env.behaviour(c.signature, c.args, w.calls);
      && (o.Ok? ==> e.response == Returned(o.value))
      && (o.Throws? ==> e.response == Raised(Propagated(o.exc)))
  {
  }

  /** A marked method whose execution returns and whose commit succeeds: the
      log gains Begin, Invoke, Commit on one fresh handle and no Rollback;
      then the target is executed a second time, outside the transaction, and
      the caller receives that second outcome, the first result being dropped. */
  lemma CommittedThenInvokedAgain(env: Env, w: World, c: Call)
    requires c.signature in env.declared && env.declared[c.signature]
    requires env.behaviour(c.signature, c.args, w.calls).Ok?
    requires env.commitFault(Handle(w.next)).None?
    ensures var h := Handle(w.next);
      && Step(env, w, c).world
         == World(w.log + [Begin(h), Invoke(c.signature), Commit(h), Invoke(c.signature)], w.calls + 2, w.next + 1)
    ensures var second := env.behaviour(c.signature, c.args, w.calls + 1);
      && (second.Ok? ==> Step(env, w, c).response == Returned(second.value))
      && (second.Throws? ==> Step(env, w, c).response == Raised(Propagated(second.exc)))
  {
  }

  /** A marked method whose execution throws: Begin, Invoke, Rollback on the
      same handle, no Commit, no second execution, and a DataAccessException
      whose cause is the target's exception. */
  lemma TargetFailureRollsBack(env: Env, w: World, c: Call)
    requires c.signature in env.declared && env.declared[c.signature]
    requires env.behaviour(c.signature, c.args, w.calls).Throws?
    ensures var h := Handle(w.next);
      && Step(env, w, c).world == World(w.log + [Begin(h), Invoke(c.signature), Rollback(h)], w.calls + 1, w.next + 1)
      && Step(env, w, c).response
         == Raised(DataAccessException(env.behaviour(c.signature, c.args, w.calls).exc))
  {
  }

  /** A marked method whose execution returns but whose commit throws: the
      commit exception is caught by the same handler, so Rollback follows the
      attempted Commit on the same handle, the target is not executed again,
      and the caller gets a DataAccessException caused by the commit failure. */
  lemma CommitFailureRollsBack(env: Env, w: World, c: Call)
    requires c.signature in env.declared && env.declared[c.signature]
    requires env.behaviour(c.signature, c.args, w.calls).Ok?
    requires env.commitFault(Handle(w.next)).Some?
    ensures var h := Handle(w.next);
      && Step(env, w, c).world
         == World(w.log + [Begin(h), Invoke(c.signature), Commit(h), Rollback(h)], w.calls + 1, w.next + 1)
      && Step(env, w, c).response == Raised(DataAccessException(env.commitFault(h).value))
  {
  }

  /** A call never removes or rewrites what is already in the log. */
  lemma StepExtendsLog(env: Env, w: World, c: Call)
    ensures w.log <= Step(env, w, c).world.log
  {
  }

  /** All the transaction-manager events of one call name the single handle
      that call obtained, and only a marked call obtains one. */
  lemma StepUsesOwnHandle(env: Env, w: World, c: Call)
    ensures var e := Step(env, w, c);
      && |w.log| <= |e.world.log|
      && (forall k :: |w.log| <= k < |e.world.log| && !e.world.log[k].Invoke?
            ==> e.world.log[k].h == Handle(w.next))
      && e.world.next == w.next + (if Classify(env.declared, c.signature) == Found(true) then 1 else 0)
      && (Classify(env.declared, c.signature) != Found(true) ==>
            forall k :: |w.log| <= k < |e.world.log| ==> e.world.log[k].Invoke?)
  {
  }

  /** On a well-formed log, a marked call raises DataAccessException exactly
      when it rolled its transaction back. */
  lemma DataAccessIffRollback(env: Env, w: World, c: Call)
    requires TraceOk(w.log, w.next)
    requires c.signature in env.declared && env.declared[c.signature]
    ensures var e := Step(env, w, c);
      (e.response.Raised? && e.response.failure.DataAccessException?)
      <==> Rollback(Handle(w.next)) in e.world.log
  {
  }

  // ---------------------------------------------------------------------
  // Any sequence of calls

  /** Every handle in the log was issued before the next one. */
  ghost predicate HandlesIssued(log: seq<Event>, next: nat)
  {
    forall i :: 0 <= i < |log| && !log[i].Invoke? ==> log[i].h.id < next
  }

  /** No two getTransaction calls hand out the same handle. */
  ghost predicate NoHandleReuse(log: seq<Event>)
  {
    forall i, j :: 0 <= i < j < |log| && log[i].Begin? && log[j].Begin? ==> log[i].h != log[j].h
  }

  /** Every Commit and Rollback names the handle of the latest Begin, that
      is, the status its own call obtained. */
  ghost predicate TerminatesOwnTransaction(log: seq<Event>)
  {
    forall j :: 0 <= j < |log| && Terminates(log[j]) ==> LastBegin(log[..j]) == Some(log[j].h)
  }

  /** No begun transaction is left open. */
  ghost predicate EveryBeginTerminated(log: seq<Event>)
  {
    forall i :: 0 <= i < |log| && log[i].Begin? ==>
      exists j :: i < j < |log| && Terminates(log[j]) && log[j].h == log[i].h
  }

  /** No handle is committed twice or rolled back twice. */
  ghost predicate NoRepeatedTermination(log: seq<Event>)
  {
    forall i, j :: 0 <= i < j < |log| && Terminates(log[i]) ==> log[j] != log[i]
  }

  ghost predicate TraceOk(log: seq<Event>, next: nat)
  {
    && HandlesIssued(log, next)
    && NoHandleReuse(log)
    && TerminatesOwnTransaction(log)
    && EveryBeginTerminated(log)
    && NoRepeatedTermination(log)
  }

  lemma EmptyTraceOk()
    ensures TraceOk([], 0)
  {
  }

  lemma {:induction false} LastBeginAfterNonBegins(s: seq<Event>, t: seq<Event>)
    requires forall k :: 0 <= k < |t| ==> !t[k].Begin?
    ensures LastBegin(s + t) == LastBegin(s)
    decreases |t|
  {
    if t != [] {
      var t' := t[..|t| - 1];
      assert (s + t)[..|s + t| - 1] == s + t';
      assert (s + t)[|s + t| - 1] == t[|t| - 1];
      LastBeginAfterNonBegins(s, t');
    } else {
      assert s + t == s;
    }
  }

  /** Appending a plain target execution keeps the log well formed. */
  lemma AppendInvokePreserves(log: seq<Event>, next: nat, m: Signature)
    requires TraceOk(log, next)
    ensures TraceOk(log + [Invoke(m)], next)
  {
    var log' := log + [Invoke(m)];
    forall j | 0 <= j < |log'| && Terminates(log'[j])
      ensures LastBegin(log'[..j]) == Some(log'[j].h)
    {
      assert log'[..j] == log[..j];
    }
    forall i | 0 <= i < |log'| && log'[i].Begin?
      ensures exists j :: i < j < |log'| && Terminates(log'[j]) && log'[j].h == log'[i].h
    {
      var j :| i < j < |log| && Terminates(log[j]) && log[j].h == log[i].h;
      assert log'[j] == log[j];
    }
  }

  /** Appending one transaction on the next fresh handle keeps the log well
      formed, whatever follows the Begin and the first Invoke, provided it
      starts with a termination of that handle, begins nothing, and repeats
      no termination. */
  lemma AppendTransactionPreserves(log: seq<Event>, next: nat, m: Signature, rest: seq<Event>)
    requires TraceOk(log, next)
    requires |rest| > 0 && Terminates(rest[0]) && rest[0].h == Handle(next)
    requires forall k :: 0 <= k < |rest| ==> !rest[k].Begin? && (!rest[k].Invoke? ==> rest[k].h == Handle(next))
    requires forall k1, k2 :: 0 <= k1 < k2 < |rest| && Terminates(rest[k1]) ==> rest[k2] != rest[k1]
    ensures TraceOk(log + [Begin(Handle(next)), Invoke(m)] + rest, next + 1)
  {
    var h := Handle(next);
    var n := |log|;
    var log' := log + [Begin(h), Invoke(m)] + rest;
    assert forall i :: 0 <= i < n ==> log'[i] == log[i];
    assert log'[n] == Begin(h) && log'[n + 1] == Invoke(m);
    assert forall i :: n + 2 <= i < |log'| ==> log'[i] == rest[i - n - 2];
    forall j | 0 <= j < |log'| && Terminates(log'[j])
      ensures LastBegin(log'[..j]) == Some(log'[j].h)
    {
      if j < n {
        assert log'[..j] == log[..j];
      } else {
        assert j >= n + 2;
        var t := [Invoke(m)] + rest[..j - n - 2];
        assert log'[..j] == (log + [Begin(h)]) + t;
        LastBeginAfterNonBegins(log + [Begin(h)], t);
      }
    }
    forall i | 0 <= i < |log'| && log'[i].Begin?
      ensures exists j :: i < j < |log'| && Terminates(log'[j]) && log'[j].h == log'[i].h
    {
      if i < n {
        var j :| i < j < n && Terminates(log[j]) && log[j].h == log[i].h;
        assert log'[j] == log[j];
      } else {
        assert log'[n + 2] == rest[0];
      }
    }
    forall i, j | 0 <= i < j < |log'| && Terminates(log'[i])
      ensures log'[j] != log'[i]
    {
      if i < n && j >= n {
        assert log'[i].h.id < next;
      }
    }
  }

  lemma StepPreservesTraceOk(env: Env, w: World, c: Call)
    requires TraceOk(w.log, w.next)
    ensures TraceOk(Step(env, w, c).world.log, Step(env, w, c).world.next)
  {
    var m := c.signature;
    var h := Handle(w.next);
    match Classify(env.declared, m)
    case Missing =>
    case Found(transactional) =>
      if !transactional {
        AppendInvokePreserves(w.log, w.next, m);
      } else {
        var first := env.behaviour(m, c.args, w.calls);
        var rest :=
          if first.Throws? then [Rollback(h)]
          else if env.commitFault(h).Some? then [Commit(h), Rollback(h)]
          else [Commit(h), Invoke(m)];
        AppendTransactionPreserves(w.log, w.next, m, rest);
        assert Step(env, w, c).world.log == w.log + [Begin(h), Invoke(m)] + rest;
      }
  }

  /** Whatever calls are made on the proxy, the log stays well formed. */
  lemma {:induction false} RunPreservesTraceOk(env: Env, w: World, cs: seq<Call>)
    requires TraceOk(w.log, w.next)
    ensures TraceOk(Run(env, w, cs).log, Run(env, w, cs).next)
    decreases |cs|
  {
    if cs != [] {
      RunPreservesTraceOk(env, w, cs[..|cs| - 1]);
      StepPreservesTraceOk(env, Run(env, w, cs[..|cs| - 1]), cs[|cs| - 1]);
    }
  }

  /** The log is append-only across any sequence of calls. */
  lemma {:induction false} RunExtendsLog(env: Env, w: World, cs: seq<Call>)
    ensures w.log <= Run(env, w, cs).log
    decreases |cs|
  {
    if cs != [] {
      RunExtendsLog(env, w, cs[..|cs| - 1]);
      StepExtendsLog(env, Run(env, w, cs[..|cs| - 1]), cs[|cs| - 1]);
    }
  }

  lemma {:induction false} CountBeginsAppend(s: seq<Event>, t: seq<Event>)
    ensures CountBegins(s + t) == CountBegins(s) + CountBegins(t)
    decreases |t|
  {
    if t != [] {
      var t' := t[..|t| - 1];
      assert (s + t)[..|s + t| - 1] == s + t';
      assert (s + t)[|s + t| - 1] == t[|t| - 1];
      CountBeginsAppend(s, t');
    } else {
      assert s + t == s;
    }
  }

  lemma {:induction false} CountBeginsNone(t: seq<Event>)
    requires forall k :: 0 <= k < |t| ==> !t[k].Begin?
    ensures CountBegins(t) == 0
    decreases |t|
  {
    if t != [] {
      CountBeginsNone(t[..|t| - 1]);
    }
  }

  lemma OneBeginThenNone(log: seq<Event>, h: Handle, tail: seq<Event>)
    requires forall k :: 0 <= k < |tail| ==> !tail[k].Begin?
    ensures CountBegins(log + ([Begin(h)] + tail)) == CountBegins(log) + 1
  {
    assert log + ([Begin(h)] + tail) == (log + [Begin(h)]) + tail;
    CountBeginsAppend(log + [Begin(h)], tail);
    CountBeginsNone(tail);
    assert (log + [Begin(h)])[..|log|] == log;
  }

  lemma TransactionBegins(env: Env, w: World, c: Call)
    requires c.signature in env.declared && env.declared[c.signature]
    ensures CountBegins(Step(env, w, c).world.log) == CountBegins(w.log) + 1
  {
    var m := c.signature;
    var h := Handle(w.next);
    var rest :=
      if env.behaviour(m, c.args, w.calls).Throws? then [Rollback(h)]
      else if env.commitFault(h).Some? then [Commit(h), Rollback(h)]
      else [Commit(h), Invoke(m)];
    assert Step(env, w, c).world.log == w.log + ([Begin(h)] + ([Invoke(m)] + rest));
    OneBeginThenNone(w.log, h, [Invoke(m)] + rest);
  }

  lemma StepBegins(env: Env, w: World, c: Call)
    ensures var e := Step(env, w, c);
      var marked := if Classify(env.declared, c.signature) == Found(true) then 1 else 0;
      && CountBegins(e.world.log) == CountBegins(w.log) + marked
      && e.world.next == w.next + marked
  {
    var m := c.signature;
    if m in env.declared && env.declared[m] {
      TransactionBegins(env, w, c);
    } else if m in env.declared {
      CountBeginsAppend(w.log, [Invoke(m)]);
      CountBeginsNone([Invoke(m)]);
    }
  }

  /** Each marked call issues getTransaction exactly once and every other
      call issues none: over any sequence of calls, the number of Begin
      events and of handed-out handles grows by the number of marked calls. */
  lemma {:induction false} RunOneTransactionPerMarkedCall(env: Env, w: World, cs: seq<Call>)
    ensures CountBegins(Run(env, w, cs).log) == CountBegins(w.log) + MarkedCalls(env.declared, cs)
    ensures Run(env, w, cs).next == w.next + MarkedCalls(env.declared, cs)
    decreases |cs|
  {
    if cs != [] {
      RunOneTransactionPerMarkedCall(env, w, cs[..|cs| - 1]);
      StepBegins(env, Run(env, w, cs[..|cs| - 1]), cs[|cs| - 1]);
    }
  }

  /** A sequence of calls none of which is marked never reaches the
      transaction manager: only target executions are logged. */
  lemma {:induction false} RunUnmarkedLeavesManagerAlone(env: Env, w: World, cs: seq<Call>)
    requires MarkedCalls(env.declared, cs) == 0
    ensures var w' := Run(env, w, cs);
      && w'.next == w.next
      && |w.log| <= |w'.log|
      && forall k :: |w.log| <= k < |w'.log| ==> w'.log[k].Invoke?
    decreases |cs|
  {
    if cs != [] {
      var prev := Run(env, w, cs[..|cs| - 1]);
      RunUnmarkedLeavesManagerAlone(env, w, cs[..|cs| - 1]);
      StepUsesOwnHandle(env, prev, cs[|cs| - 1]);
    }
  }
}
