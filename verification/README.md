# Account monitor — a Dafny model

`dokument.cs` defines one class, `Account`, a bank account shared between threads.
It holds a single `decimal balance` (starting at the default 0) and offers three
operations: the `Balance` getter, `popolnenie(sum)` (deposit) and `snyatie(suum)`
(withdrawal). Both updates reject a non-positive amount with `ArgumentException`
before taking the lock. A deposit adds the amount and pulses the monitor. A withdrawal
loops while the balance is below the amount, waiting on the monitor, and then
subtracts the amount. So the balance is never negative.

The model has three modules.

- `WaitSet` (`wait_set.dfy`) models the monitor's queues of waiting withdrawals:
  `Monitor.Wait` parks a withdrawal, a deposit's `Monitor.Pulse` moves the first
  parked one to the ready queue, and a ready one gets the lock back and rechecks
  its guard. The wake discipline is a parameter (`PulseOne`, as written, or
  `PulseAll`), so the two can be compared.
- `AccountSpec` (`account_spec.dfy`) gives the sequential meaning of one critical
  section. `DepositStep` and `WithdrawStep` return an `Outcome`: `InvalidArgument`
  (the exception), `Blocked` (the withdrawal guard holds, so the caller waits) or
  `Completed(balance)`. `Apply` gives the balance after one call. `Run` gives the
  balance after a sequence of calls, in the order the lock admits them. Lemmas
  relate these functions.
- `Accounts` (`account.dfy`) is the class `Account`, with a `balance: real` field
  that its methods update in place. `Withdraw` keeps the source's
  `while (balance < suum)` loop, and models `Monitor.Wait` as an inner loop.
  While the withdrawal waits, other threads' calls run; they are passed in as
  `others: seq<Op>`, in the order the lock admits them. The waiter gets the lock
  back and checks its guard again only at the points in `rechecks`, counted in
  calls run. So several calls can run between two checks, and a deposit need not
  be followed by a check. Called with
  `others == []`, `Withdraw` is the two-outcome step: Blocked with the state
  unchanged, or Completed with the amount subtracted.

The source's `decimal` is modelled as an exact `real`. The source's names map to
the model's names as follows: `popolnenie` is `Deposit`, `snyatie` is `Withdraw`,
and `Balance` keeps its name.

## Model

| member | source | states |
|---|---|---|
| `AccountSpec.DepositStep` | dokument.cs:41-52 | a deposit is rejected exactly when `sum <= 0`; it never blocks; when it completes, the new balance is larger than the old one and subtracting `sum` gives back the old balance |
| `AccountSpec.WithdrawStep` | dokument.cs:60-75 | a withdrawal is rejected exactly when `suum <= 0`; it blocks exactly when `0 < suum` and the balance is below `suum`; it completes exactly when `0 < suum <= balance`; the remaining balance is non-negative, below the old one, and adding `suum` back gives the old balance |
| `AccountSpec.Apply` | dokument.cs:43-72 | one call keeps a non-negative balance non-negative; a valid deposit adds exactly its amount; a withdrawal that can be covered subtracts exactly its amount; a rejected call or a blocked withdrawal leaves the balance unchanged |
| `AccountSpec.Run` | dokument.cs:41-75 | any sequence of calls, however the threads interleave, keeps a non-negative balance non-negative |
| `AccountSpec.RunAppend` | dokument.cs:41-75 | running two stretches of calls one after the other is the same as running their concatenation |
| `AccountSpec.RunSnoc` | dokument.cs:41-75 | one more call at the end of a run applies that call to the balance the run left |
| `AccountSpec.DepositsAccumulate` | dokument.cs:46-51 | valid deposits, in any order the lock admits them, raise the balance by exactly the sum of their amounts |
| `AccountSpec.TotalRepeat` | dokument.cs:46-48 | the arithmetic step `RepeatedDeposits` relies on: the amounts of `n` copies of `DepositOp(a)` add up to `n * a` (about the helpers `Total` and `Repeat`, not the deposit code itself) |
| `AccountSpec.RepeatedDeposits` | dokument.cs:46-48 | `n` deposits of `a` raise the balance by exactly `n * a`; this follows from `DepositsAccumulate` and relies on each deposit being atomic under the lock |
| `AccountSpec.DepositThenWithdraw` | dokument.cs:48-72 | from a non-negative balance, a deposit of `a` followed by a withdrawal of `a` restores the balance |
| `AccountSpec.NoDepositNoRise` | dokument.cs:43-72 | calls none of which is a valid deposit never raise the balance |
| `AccountSpec.NoStrandedWaiter` | dokument.cs:67-71 | if the balance was below `suum` at a waiter's last check and no valid deposit ran after it, the balance is still below `suum` |
| `Accounts.Account.constructor` | dokument.cs:13 | a new account has balance 0, which satisfies the invariant |
| `Accounts.Account.Balance` | dokument.cs:24-32 | returns the current balance, which is non-negative, and changes nothing |
| `Accounts.Account.Deposit` | dokument.cs:41-52 | a non-positive sum gives `InvalidArgument` and leaves the balance unchanged; otherwise the balance grows by exactly `sum`; the result agrees with `DepositStep`; the balance stays non-negative |
| `Accounts.Account.Withdraw` | dokument.cs:60-75 | a non-positive amount gives `InvalidArgument`, with no wait and the balance unchanged. Otherwise the guard is evaluated at the start and at each point where the schedule gives the waiter the lock back. At every check before completion the balance (changed only by other threads' calls) was below `suum`. It completes at the first check where the balance covers `suum`, leaving exactly that balance minus `suum`. It is `Blocked` only when the schedule ends with the waiter parked: the balance was below `suum` at its last check, no recheck came after, and the balance is whatever the other calls left. The balance is never negative |
| `Accounts.AwaitDeposits` | dokument.cs:67-72 | a withdrawal that waits only for valid deposits, which bring the balance up to `suum`, and that gets the lock back after the last of them, completes; it leaves the start plus the deposits made by its last check, minus `suum` |
| `Accounts.WaitingWithdrawalScenario` | dokument.cs:41-75 | from 0: deposit 100 completes with 100; a withdrawal of 150, woken after another thread deposits 60, completes with 10; a withdrawal of -5 is rejected; the final balance is 10 |
| `Accounts.BroadcastWithdraw` | dokument.cs:60-75 | under a schedule in which the waiter gets the lock back after every valid deposit, a withdrawal left `Blocked` always has a balance below `suum` |
| `WaitSet.Opened` | dokument.cs:13 | a new account's monitor has balance 0 and nobody waiting |
| `WaitSet.Step` | dokument.cs:41-75 | one critical section keeps the balance non-negative. A valid deposit adds exactly its sum; with `PulseOne` it moves only the first parked withdrawal to the end of the ready queue, with `PulseAll` it moves every parked withdrawal there, in order. A withdrawal arriving with a valid amount parks, with nothing else changed, exactly when the balance is below its amount, and otherwise subtracts exactly that amount. A ready withdrawal that gets the lock back leaves the ready queue (its other members kept) and either parks again with the balance unchanged, when the balance is below its amount, or subtracts exactly its amount. A rejected amount or a recheck with nobody at that place changes nothing; no call but a deposit raises the balance |
| `WaitSet.Steps` | dokument.cs:41-75 | any sequence of critical sections, with either wake discipline, keeps the balance non-negative |
| `WaitSet.StepsAppend` | dokument.cs:41-75 | running two stretches of critical sections one after the other is the same as running their concatenation |
| `WaitSet.StepsSnoc` | dokument.cs:41-75 | one more critical section at the end of a run is one `Step` on the state the run left |
| `WaitSet.PulseStrandsWaiter` | dokument.cs:50 | as written: from a new account, withdrawals of 10 and 5 park, a deposit of 5 pulses only the 10, which rechecks and parks again; nobody is ready and the parked 5 is covered by the balance 5. With `PulseAll` the same calls strand nobody |
| `WaitSet.BroadcastStepKeeps` | dokument.cs:50 | with `PulseAll`, one critical section keeps every parked withdrawal's amount above the balance |
| `WaitSet.BroadcastNeverStrands` | dokument.cs:50 | with `PulseAll`, from any state where every parked amount is above the balance, no sequence of calls ever leaves a parked withdrawal covered by the balance, so none is stranded |

## Left out

- The `lock (sinh)` mutual exclusion (dokument.cs:18, 28, 46, 65) is not modelled. The model treats each call's critical section as atomic, and `Run` orders these sections as the lock would.
- The `Monitor.Wait` / `Monitor.Pulse` signalling (dokument.cs:50, 70) is modelled only in `WaitSet`, on values; the class's `Withdraw` abstracts it into an input schedule of other threads' calls and recheck points. `Withdraw` accepts any schedule, including wake-ups that no pulse caused (the source has none). Which ready withdrawal gets the lock next is the `k` of a `Recheck` event, chosen freely. The model claims nothing about fairness or progress.
- The `Console.WriteLine` diagnostics (dokument.cs:49, 69, 73) are output only and have no effect on the balance.
- `decimal` limits are not modelled: the 28-29 digit precision and the `OverflowException` that `balance += sum` can throw. Amounts are exact `real`s.
- Accounts.Account.Withdraw: a withdrawal that never gets enough money blocks forever in the source. The model can only show a finite prefix of that wait. It returns `Blocked` once the schedule of other threads' calls has ended.
- The code has no opening balance, no timeout and no cancellation, so the model has none either. A new account starts at 0.

## Findings

| source | as written | input that shows it | evidently intended | confidence | as-written member | corrected member |
|---|---|---|---|---|---|---|
| dokument.cs:50 | a deposit calls `Monitor.Pulse`, which wakes one waiting thread | balance 0; thread A waits in `snyatie(10)` and thread D in `snyatie(5)`; `popolnenie(5)` pulses A, which finds 5 < 10 and waits again; D stays parked although the balance 5 covers its 5, until some later deposit happens to wake it | every waiter rechecks its guard after a deposit (`Monitor.PulseAll`), as the comment at line 50 ("the balance has been topped up") suggests | medium; not executed | `WaitSet.PulseStrandsWaiter` | `WaitSet.BroadcastNeverStrands` |

`WaitSet.Step` is defined for both wake disciplines. `PulseStrandsWaiter` exhibits the stranded withdrawal under `PulseOne`, which is what the code does. `BroadcastNeverStrands` proves that `PulseAll` never strands one. At the level of the class, `Accounts.BroadcastWithdraw` states the same for a withdrawal whose schedule rechecks after every deposit.
