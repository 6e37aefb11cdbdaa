/** The Account example: withdraw is marked and fails for lack of funds,
    getBalance is not marked. */
module AccountScenario {
  import opened Interception
  import opened TraceProperties
  import opened Proxy

  const Withdraw := Signature("withdraw", ["long"])
  const GetBalance := Signature("getBalance", [])
  const InsufficientFunds := Exc("InsufficientFundsException", "balance below 50")

  function Account(balance: nat): Env
  {
    Env(map[Withdraw := true, GetBalance := false],
        (m: Signature, args: seq<Value>, k: nat) =>
          if m == Withdraw then Throws(InsufficientFunds) else Ok(Object(balance)),
        (h: Handle) => None)
  }

  /** withdraw(50) and then getBalance() on a fresh proxy: one transaction,
      rolled back, a DataAccessException caused by the insufficient funds,
      and a balance query that only executes the target. */
  lemma WithdrawThenBalance(balance: nat)
    ensures var w0 := World([], 0, 0);
      var e1 := Step(Account(balance), w0, Call(Withdraw, [Object(50)]));
      var e2 := Step(Account(balance), e1.world, Call(GetBalance, []));
      && e1.response == Raised(DataAccessException(InsufficientFunds))
      && e2.response == Returned(Object(balance))
      && e2.world.log == [Begin(Handle(0)), Invoke(Withdraw), Rollback(Handle(0)), Invoke(GetBalance)]
  {
    var env := Account(balance);
    var w0 := World([], 0, 0);
    TargetFailureRollsBack(env, w0, Call(Withdraw, [Object(50)]));
    var e1 := Step(env, w0, Call(Withdraw, [Object(50)]));
    UnmarkedPassesThrough(env, e1.world, Call(GetBalance, []));
  }

  /** The same two calls made on a handler built from fresh collaborators. */
  method WithdrawThenBalanceThroughProxy(balance: nat) returns (events: seq<Event>, r1: Response, r2: Response)
    ensures r1 == Raised(DataAccessException(InsufficientFunds))
    ensures r2 == Returned(Object(balance))
    ensures events == [Begin(Handle(0)), Invoke(Withdraw), Rollback(Handle(0)), Invoke(GetBalance)]
  {
    var env := Account(balance);
    var log := new EventLog();
    var manager := new TransactionManager(log, env.commitFault);
    var target := new Target(log, env.declared, env.behaviour);
    EmptyTraceOk();
    var handler := new TransactionHandler(manager, target);
    WithdrawThenBalance(balance);
    r1 := handler.Invoke(Withdraw, [Object(50)]);
    r2 := handler.Invoke(GetBalance, []);
    events := log.events;
  }
}
