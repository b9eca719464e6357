/**
  Sequential semantics of the account monitor in dokument.cs.

  Every public call on an `Account` that passes argument validation runs as one
  critical section under the account's lock. This module describes what one such
  critical section does to the balance (`DepositStep`, `WithdrawStep`, `Apply`) and
  what a sequence of them does (`Run`), which is how the threads' calls are
  serialised by the lock. Amounts are exact reals standing for C# `decimal`.
 */
module AccountSpec {

  /** What one call does once its amount has been checked. */
  datatype Outcome =
    | InvalidArgument          // amount <= 0: ArgumentException, thrown before the lock is taken
    | Blocked                  // withdrawal with too little money: the caller waits, nothing changes
    | Completed(balance: real) // the update was applied; the balance it left

  /** A call made on the account by some thread: `popolnenie` or `snyatie`. */
  datatype Op = DepositOp(amount: real) | WithdrawOp(amount: real)

  /** `popolnenie(sum)`: reject a non-positive sum, otherwise add it. */
  function DepositStep(b: real, sum: real): (r: Outcome)
    ensures r.InvalidArgument? <==> sum <= 0.0
    ensures !r.Blocked?
    ensures r.Completed? ==> r.balance > b && r.balance - sum == b
  {
    if sum <= 0.0 then InvalidArgument else Completed(b + sum)
  }

  /**
    One evaluation of the guard of `snyatie(suum)`: reject a non-positive amount,
    block while the balance is below it, otherwise subtract it.
   */
  function WithdrawStep(b: real, suum: real): (r: Outcome)
    ensures r.InvalidArgument? <==> suum <= 0.0
    ensures r.Blocked? <==> 0.0 < suum && b < suum
    ensures r.Completed? <==> 0.0 < suum <= b
    ensures r.Completed? ==> 0.0 <= r.balance < b && r.balance + suum == b
  {
    if suum <= 0.0 then InvalidArgument
    else if b < suum then Blocked
    else Completed(b - suum)
  }

  /** The balance after one call: the new balance if it completed, else the old one. */
  function Apply(b: real, op: Op): (r: real)
    ensures 0.0 <= b ==> 0.0 <= r
    ensures op.DepositOp? && 0.0 < op.amount ==> r == b + op.amount
    ensures op.WithdrawOp? && 0.0 < op.amount <= b ==> r == b - op.amount
    ensures op.amount <= 0.0 || (op.WithdrawOp? && b < op.amount) ==> r == b
  {
    var outcome := match op
      case DepositOp(a) => DepositStep(b, a)
      case WithdrawOp(a) => WithdrawStep(b, a);
    match outcome
    case Completed(nb) => nb
    case _ => b
  }

  /** The balance after the calls `ops`, in the order the lock admitted them. */
  function Run(b: real, ops: seq<Op>): (r: real)
    ensures 0.0 <= b ==> 0.0 <= r
    decreases |ops|
  {
    if ops == [] then b else Run(Apply(b, ops[0]), ops[1..])
  }

  /** Running two stretches of calls is running the first, then the second. */
  lemma {:induction false} RunAppend(b: real, xs: seq<Op>, ys: seq<Op>)
    ensures Run(b, xs + ys) == Run(Run(b, xs), ys)
    decreases |xs|
  {
    if xs == [] {
      assert xs + ys == ys;
    } else {
      assert (xs + ys)[0] == xs[0];
      assert (xs + ys)[1..] == xs[1..] + ys;
      RunAppend(Apply(b, xs[0]), xs[1..], ys);
    }
  }

  /** One more call at the end of a run. */
  lemma RunSnoc(b: real, xs: seq<Op>, op: Op)
    ensures Run(b, xs + [op]) == Apply(Run(b, xs), op)
  {
    RunAppend(b, xs, [op]);
    assert [op][1..] == [];
  }

  /** The call is a deposit that passes validation, so it pulses the monitor. */
  predicate IsValidDeposit(op: Op)
  {
    op.DepositOp? && 0.0 < op.amount
  }

  /** Every call in `ops` is a valid deposit. */
  predicate AllDeposits(ops: seq<Op>)
  {
    forall i :: 0 <= i < |ops| ==> IsValidDeposit(ops[i])
  }

  /** The sum of the amounts of `ops`: positive for valid deposits, if there are any. */
  function Total(ops: seq<Op>): (t: real)
    ensures AllDeposits(ops) ==> 0.0 <= t && (ops != [] ==> 0.0 < t)
    decreases |ops|
  {
    if ops == [] then 0.0
    else
      assert AllDeposits(ops) ==> AllDeposits(ops[1..]) by {
        if AllDeposits(ops) {
          forall i | 0 <= i < |ops[1..]| ensures IsValidDeposit(ops[1..][i]) {
            assert ops[1..][i] == ops[i + 1];
          }
        }
      }
      ops[0].amount + Total(ops[1..])
  }

  /** Valid deposits are never lost: the balance grows by exactly their total. */
  lemma {:induction false} DepositsAccumulate(b: real, ops: seq<Op>)
    requires AllDeposits(ops)
    ensures Run(b, ops) == b + Total(ops)
    decreases |ops|
  {
    if ops != [] {
      assert AllDeposits(ops[1..]) by {
        forall i | 0 <= i < |ops[1..]| ensures ops[1..][i] == ops[i + 1] { }
      }
      DepositsAccumulate(b + ops[0].amount, ops[1..]);
    }
  }

  /** `n` deposits of `a`. */
  function Repeat(a: real, n: nat): (ops: seq<Op>)
    ensures |ops| == n
  {
    seq(n, _ => DepositOp(a))
  }

  /** The amounts of `n` deposits of `a` add up to `n * a`. */
  lemma {:induction false} TotalRepeat(a: real, n: nat)
    ensures Total(Repeat(a, n)) == (n as real) * a
    decreases n
  {
    if n > 0 {
      assert Repeat(a, n)[0] == DepositOp(a);
      assert Repeat(a, n)[1..] == Repeat(a, n - 1);
      TotalRepeat(a, n - 1);
      assert (n as real) * a == ((n - 1) as real) * a + a;
    }
  }

  /**
    `n` deposits of the same amount `a`, admitted one at a time by the lock,
    raise the balance by exactly `n * a`.
   */
  lemma RepeatedDeposits(b: real, a: real, n: nat)
    requires 0.0 < a
    ensures Run(b, Repeat(a, n)) == b + (n as real) * a
  {
    DepositsAccumulate(b, Repeat(a, n));
    TotalRepeat(a, n);
  }

  /** A deposit of `a` followed by a withdrawal of `a` restores the balance. */
  lemma DepositThenWithdraw(b: real, a: real)
    requires 0.0 <= b && 0.0 < a
    ensures Run(b, [DepositOp(a), WithdrawOp(a)]) == b
  {
    var ops := [DepositOp(a), WithdrawOp(a)];
    assert ops[1..] == [WithdrawOp(a)];
    assert Run(b, ops) == Run(b + a, [WithdrawOp(a)]);
    assert Run(b + a, [WithdrawOp(a)]) == Apply(b + a, WithdrawOp(a)) by {
      RunSnoc(b + a, [], WithdrawOp(a));
      assert [] + [WithdrawOp(a)] == [WithdrawOp(a)];
    }
  }

  /** Calls none of which is a valid deposit never raise the balance. */
  lemma {:induction false} NoDepositNoRise(b: real, ops: seq<Op>)
    requires forall i :: 0 <= i < |ops| ==> !IsValidDeposit(ops[i])
    ensures Run(b, ops) <= b
    decreases |ops|
  {
    if ops != [] {
      assert !IsValidDeposit(ops[0]);
      assert forall i :: 0 <= i < |ops[1..]| ==> ops[1..][i] == ops[i + 1];
      NoDepositNoRise(Apply(b, ops[0]), ops[1..]);
    }
  }

  /**
    A waiting withdrawal left parked is not stranded if no valid deposit came
    after it last checked its guard: the balance is still below the amount.
   */
  lemma NoStrandedWaiter(b: real, suum: real, others: seq<Op>, checked: nat)
    requires checked <= |others| && Run(b, others[..checked]) < suum
    requires forall i :: checked <= i < |others| ==> !IsValidDeposit(others[i])
    ensures Run(b, others) < suum
  {
    assert others == others[..checked] + others[checked..];
    RunAppend(b, others[..checked], others[checked..]);
    NoDepositNoRise(Run(b, others[..checked]), others[checked..]);
  }
}
