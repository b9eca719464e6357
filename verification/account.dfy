/**
  The `Account` class of dokument.cs: one balance, a deposit and a withdrawal that
  waits for money. The lock is not modelled, and the monitor's queues are modelled
  apart in `WaitSet`; here what a waiting withdrawal lets other threads do, and
  when it gets the lock back, is passed in as a schedule.
 */
module Accounts {
  import opened AccountSpec

  /**
    Whether a waiting withdrawal evaluates its guard once `j` calls of other
    threads have run: it does at the start (`j == 0`), and afterwards exactly at
    the points in `rechecks`, where a pulse has woken it and it has the lock back.
   */
  predicate IsRecheck(j: nat, rechecks: set<nat>)
  {
    j == 0 || j in rechecks
  }

  /**
    After each valid deposit of the schedule the waiter gets the lock back at some
    later point, as it would if every deposit woke every waiter.
   */
  predicate BroadcastSchedule(others: seq<Op>, rechecks: set<nat>)
  {
    forall i :: 0 <= i < |others| && IsValidDeposit(others[i]) ==>
      exists k :: i < k <= |others| && IsRecheck(k, rechecks)
  }

  class Account {
    /** The current balance (C# `decimal`, modelled exactly). */
    var balance: real

    /** The balance is never negative when no operation is in progress. */
    ghost predicate Valid()
      reads this
    {
      0.0 <= balance
    }

    /** The class has no constructor of its own: the field starts at the default 0. */
    constructor ()
      ensures Valid() && balance == 0.0
    {
      balance := 0.0;
    }

    /** The `Balance` getter: the current balance, which is never negative. */
    method Balance() returns (b: real)
      requires Valid()
      ensures b == balance && 0.0 <= b
    {
      b := balance;
    }

    /**
      `popolnenie(sum)`: a non-positive sum is rejected before anything changes;
      otherwise the balance grows by exactly `sum`.
     */
    method Deposit(sum: real) returns (r: Outcome)
      requires Valid()
      modifies this
      ensures Valid()
      ensures r == DepositStep(old(balance), sum)
      ensures sum <= 0.0 ==> r == InvalidArgument && balance == old(balance)
      ensures 0.0 < sum ==> r == Completed(balance) && balance == old(balance) + sum
    {
      if sum <= 0.0 {
        return InvalidArgument;
      }
      balance := balance + sum;
      r := Completed(balance);
    }

    /**
      `snyatie(suum)`: a non-positive amount is rejected before anything changes.
      Otherwise the guard `balance < suum` is evaluated; while it holds the caller
      waits. While it waits, the calls `others` of other threads run in order, and
      it gets the lock back and evaluates the guard again only at the points
      `rechecks` (counted in calls run). So several calls may run between two of
      its checks, and a deposit need not be followed by a check. The withdrawal
      never touches the balance while it waits. `ran` is the number of calls of
      `others` that ran, `checked` the number that had run when the guard was
      last evaluated. It completes at the first check where the balance covers
      `suum`, subtracting exactly `suum`; it is `Blocked` (still parked) if the
      schedule ends first, and then the balance may have grown since its last check.
     */
    method Withdraw(suum: real, others: seq<Op>, rechecks: set<nat>)
      returns (r: Outcome, ran: nat, checked: nat)
      requires Valid()
      modifies this
      ensures Valid()
      ensures suum <= 0.0 ==> r == InvalidArgument && ran == 0 && checked == 0 && balance == old(balance)
      ensures 0.0 < suum ==> r.Blocked? || r.Completed?
      ensures checked <= ran <= |others| && IsRecheck(checked, rechecks)
      ensures 0.0 < suum ==>
        forall j :: 0 <= j < checked && IsRecheck(j, rechecks) ==> Run(old(balance), others[..j]) < suum
      ensures r.Completed? ==>
        checked == ran && suum <= Run(old(balance), others[..ran]) &&
        balance == Run(old(balance), others[..ran]) - suum && r.balance == balance
      ensures r.Blocked? ==>
        ran == |others| && Run(old(balance), others[..checked]) < suum &&
        (forall j :: checked < j <= |others| ==> !IsRecheck(j, rechecks)) &&
        balance == Run(old(balance), others)
    {
      if suum <= 0.0 {
        return InvalidArgument, 0, 0;
      }
      ran, checked := 0, 0;
      while balance < suum
        invariant checked == ran <= |others| && IsRecheck(ran, rechecks)
        invariant 0.0 <= balance
        invariant balance == Run(old(balance), others[..ran])
        invariant forall j :: 0 <= j < ran && IsRecheck(j, rechecks) ==> Run(old(balance), others[..j]) < suum
        decreases |others| - ran
      {
        // Monitor.Wait: other threads' calls run until this caller is woken and has the lock.
        while ran < |others| && (ran == checked || ran !in rechecks)
          invariant checked <= ran <= |others|
          invariant 0.0 <= balance
          invariant balance == Run(old(balance), others[..ran])
          invariant Run(old(balance), others[..checked]) < suum
          invariant forall j :: checked < j < ran ==> j !in rechecks
          decreases |others| - ran
        {
          RunSnoc(old(balance), others[..ran], others[ran]);
          assert others[..ran] + [others[ran]] == others[..ran + 1];
          balance := Apply(balance, others[ran]);
          ran := ran + 1;
        }
        if ran == checked || ran !in rechecks {
          // the schedule ended while this caller was still parked
          assert others[..ran] == others;
          return Blocked, ran, checked;
        }
        checked := ran;
      }
      balance := balance - suum;
      r := Completed(balance);
    }
  }

  /**
    A withdrawal that waits only for deposits is released by them: when the
    deposits bring the balance up to `suum` and the waiter gets the lock back
    after the last of them, the withdrawal completes, leaving the start plus what
    had been deposited by its last check, minus `suum`.
   */
  method AwaitDeposits(account: Account, suum: real, others: seq<Op>, rechecks: set<nat>)
    returns (r: Outcome, ran: nat)
    requires account.Valid()
    requires AllDeposits(others) && IsRecheck(|others|, rechecks)
    requires 0.0 < suum <= account.balance + Total(others)
    modifies account
    ensures account.Valid() && r.Completed? && ran <= |others|
    ensures account.balance == old(account.balance) + Total(others[..ran]) - suum
  {
    ghost var start := account.balance;
    DepositsAccumulate(start, others);
    assert others[..|others|] == others;
    var checked;
    r, ran, checked := account.Withdraw(suum, others, rechecks);
    assert r.Blocked? ==> checked == |others|;
    assert AllDeposits(others[..ran]) by {
      forall i | 0 <= i < ran ensures others[..ran][i] == others[i] { }
    }
    DepositsAccumulate(start, others[..ran]);
  }

  /**
    A run of the class as a client sees it: 0, deposit 100, a withdrawal of 150
    that waits until another thread deposits 60, and a rejected withdrawal of -5.
   */
  method WaitingWithdrawalScenario() returns (d: Outcome, w: Outcome, x: Outcome, final: real)
    ensures d == Completed(100.0) && w == Completed(10.0) && x == InvalidArgument
    ensures final == 10.0
  {
    var account := new Account();
    d := account.Deposit(100.0);
    var ran, checked;
    w, ran, checked := account.Withdraw(150.0, [DepositOp(60.0)], {1});
    assert [DepositOp(60.0)][..0] == [];
    assert [DepositOp(60.0)][..1] == [DepositOp(60.0)];
    assert [DepositOp(60.0)][1..] == [];
    assert Run(100.0, [DepositOp(60.0)]) == 160.0;
    assert IsRecheck(1, {1});
    assert w == Completed(10.0);
    x, ran, checked := account.Withdraw(-5.0, [], {});
    final := account.Balance();
  }

  /**
    A withdrawal given the lock back after every valid deposit of its schedule is
    never left parked while the balance covers it.
   */
  method BroadcastWithdraw(account: Account, suum: real, others: seq<Op>, rechecks: set<nat>)
    returns (r: Outcome, ran: nat)
    requires account.Valid() && BroadcastSchedule(others, rechecks)
    modifies account
    ensures account.Valid() && ran <= |others|
    ensures r.Blocked? ==> account.balance < suum
  {
    ghost var start := account.balance;
    var checked;
    r, ran, checked := account.Withdraw(suum, others, rechecks);
    if r.Blocked? {
      assert forall i :: checked <= i < |others| ==> !IsValidDeposit(others[i]);
      NoStrandedWaiter(start, suum, others, checked);
    }
  }
}
