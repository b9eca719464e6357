/**
  The monitor behind `Account` in dokument.cs, with its waiting withdrawals.

  A withdrawal that finds too little money calls `Monitor.Wait`: it joins the
  monitor's waiting queue (`parked`). A deposit's `Monitor.Pulse` moves the first
  parked withdrawal to the ready queue (`ready`); only a ready withdrawal can get
  the lock back and evaluate its guard again, after which it either completes or
  parks once more at the end of the waiting queue. Each event below is one
  critical section; the balance updates are those of `AccountSpec`.
 */
module WaitSet {
  import opened AccountSpec

  /** How a deposit signals the monitor: `Monitor.Pulse` or `Monitor.PulseAll`. */
  datatype Wake = PulseOne | PulseAll

  /** The amount of a waiting withdrawal: only a positive amount passes validation. */
  type Amount = x: real | 0.0 < x witness 1.0

  /** The balance and the amounts of the withdrawals waiting on the monitor. */
  datatype MonitorState = MonitorState(balance: real, parked: seq<Amount>, ready: seq<Amount>)

  /** One critical section on the account. */
  datatype Event =
    | Deposit(sum: real)  // `popolnenie(sum)`
    | Arrive(suum: real)  // `snyatie(suum)` takes the lock for the first time
    | Recheck(k: nat)     // the `k`-th ready withdrawal gets the lock back

  /** A new account: balance 0, nobody waiting. */
  function Opened(): (s: MonitorState)
    ensures s.balance == 0.0 && s.parked == [] && s.ready == []
  {
    MonitorState(0.0, [], [])
  }

  /** One critical section, with deposits signalling by `wake`. */
  function Step(s: MonitorState, e: Event, wake: Wake): (r: MonitorState)
    ensures 0.0 <= s.balance ==> 0.0 <= r.balance
    ensures e.Deposit? && 0.0 < e.sum ==> r.balance == s.balance + e.sum
    ensures e.Deposit? && 0.0 < e.sum && wake == PulseAll ==>
      r.parked == [] && r.ready == s.ready + s.parked
    ensures e.Deposit? && 0.0 < e.sum && wake == PulseOne && s.parked != [] ==>
      r.parked == s.parked[1..] && r.ready == s.ready + [s.parked[0]]
    ensures e.Deposit? && 0.0 < e.sum && wake == PulseOne && s.parked == [] ==>
      r.parked == [] && r.ready == s.ready
    ensures e.Arrive? && 0.0 < e.suum && s.balance < e.suum ==>
      r == s.(parked := s.parked + [e.suum])
    ensures e.Arrive? && 0.0 < e.suum <= s.balance ==>
      r == s.(balance := s.balance - e.suum)
    ensures (e.Deposit? && e.sum <= 0.0) || (e.Arrive? && e.suum <= 0.0) ==> r == s
    ensures e.Recheck? && e.k < |s.ready| ==>
      |r.ready| == |s.ready| - 1 &&
      multiset(r.ready) + multiset{s.ready[e.k]} == multiset(s.ready)
    ensures e.Recheck? && e.k < |s.ready| && s.balance < s.ready[e.k] ==>
      r.balance == s.balance && r.parked == s.parked + [s.ready[e.k]]
    ensures e.Recheck? && e.k < |s.ready| && s.ready[e.k] <= s.balance ==>
      r.balance == s.balance - s.ready[e.k] && r.parked == s.parked
    ensures e.Recheck? && |s.ready| <= e.k ==> r == s
    ensures !e.Deposit? ==> r.balance <= s.balance
  {
    match e
    case Deposit(sum) =>
      (match DepositStep(s.balance, sum)
       case Completed(nb) =>
         if wake == PulseAll then MonitorState(nb, [], s.ready + s.parked)
         else if s.parked == [] then s.(balance := nb)
         else MonitorState(nb, s.parked[1..], s.ready + [s.parked[0]])
       case _ => s)
    case Arrive(suum) =>
      (match WithdrawStep(s.balance, suum)
       case Completed(nb) => s.(balance := nb)
       case Blocked => s.(parked := s.parked + [suum])
       case InvalidArgument => s)
    case Recheck(k) =>
      if k < |s.ready| then
        var rest := s.ready[..k] + s.ready[k + 1..];
        assert s.ready == s.ready[..k] + [s.ready[k]] + s.ready[k + 1..];
        (match WithdrawStep(s.balance, s.ready[k])
         case Completed(nb) => MonitorState(nb, s.parked, rest)
         case Blocked => MonitorState(s.balance, s.parked + [s.ready[k]], rest)
         case InvalidArgument => s)
      else s
  }

  /** The state after the critical sections `events`, in lock order. */
  function Steps(s: MonitorState, events: seq<Event>, wake: Wake): (r: MonitorState)
    ensures 0.0 <= s.balance ==> 0.0 <= r.balance
    decreases |events|
  {
    if events == [] then s else Steps(Step(s, events[0], wake), events[1..], wake)
  }

  /** Every parked withdrawal really has to wait: the balance is below its amount. */
  predicate NoneCovered(s: MonitorState)
  {
    forall i :: 0 <= i < |s.parked| ==> s.balance < s.parked[i]
  }

  /**
    A withdrawal is stranded: nobody is ready to take the lock, yet a parked
    withdrawal's amount is covered. Only a later deposit can wake it.
   */
  predicate Stranded(s: MonitorState)
  {
    s.ready == [] && exists i :: 0 <= i < |s.parked| && s.parked[i] <= s.balance
  }

  /**
    With `Monitor.Pulse`, as written: from a new account, withdrawals of 10 and 5
    park, a deposit of 5 wakes only the first, which finds 5 < 10 and parks again.
    The withdrawal of 5 is stranded over a balance of 5. With `Monitor.PulseAll`
    the same calls strand nobody.
   */
  lemma PulseStrandsWaiter()
    ensures Stranded(Steps(Opened(), [Arrive(10.0), Arrive(5.0), Deposit(5.0), Recheck(0)], PulseOne))
    ensures !Stranded(Steps(Opened(), [Arrive(10.0), Arrive(5.0), Deposit(5.0), Recheck(0)], PulseAll))
  {
    var e1 := [Arrive(10.0)];
    var e2 := e1 + [Arrive(5.0)];
    var e3 := e2 + [Deposit(5.0)];
    var e4 := e3 + [Recheck(0)];
    assert e4 == [Arrive(10.0), Arrive(5.0), Deposit(5.0), Recheck(0)];
    assert Steps(Opened(), e1, PulseOne) == MonitorState(0.0, [10.0], []) by {
      StepsSnoc(Opened(), [], Arrive(10.0), PulseOne);
      assert [] + [Arrive(10.0)] == e1;
    }
    assert Steps(Opened(), e2, PulseOne) == MonitorState(0.0, [10.0, 5.0], []) by {
      StepsSnoc(Opened(), e1, Arrive(5.0), PulseOne);
    }
    assert Steps(Opened(), e3, PulseOne) == MonitorState(5.0, [5.0], [10.0]) by {
      StepsSnoc(Opened(), e2, Deposit(5.0), PulseOne);
      assert [10.0, 5.0][1..] == [5.0];
    }
    var s4 := Steps(Opened(), e4, PulseOne);
    assert s4.ready == [] && s4.balance == 5.0 && s4.parked == [5.0, 10.0] by {
      StepsSnoc(Opened(), e3, Recheck(0), PulseOne);
    }
    assert s4.parked[0] <= s4.balance;
    BroadcastNeverStrands(Opened(), e4);
  }

  /** Running two stretches of critical sections is running the first, then the second. */
  lemma {:induction false} StepsAppend(s: MonitorState, xs: seq<Event>, ys: seq<Event>, wake: Wake)
    ensures Steps(s, xs + ys, wake) == Steps(Steps(s, xs, wake), ys, wake)
    decreases |xs|
  {
    if xs == [] {
      assert xs + ys == ys;
    } else {
      assert (xs + ys)[0] == xs[0];
      assert (xs + ys)[1..] == xs[1..] + ys;
      StepsAppend(Step(s, xs[0], wake), xs[1..], ys, wake);
    }
  }

  /** One more critical section at the end of a run. */
  lemma StepsSnoc(s: MonitorState, xs: seq<Event>, e: Event, wake: Wake)
    ensures Steps(s, xs + [e], wake) == Step(Steps(s, xs, wake), e, wake)
  {
    StepsAppend(s, xs, [e], wake);
    assert [e][1..] == [];
  }

  /** With `Monitor.PulseAll`, one critical section strands no parked withdrawal. */
  lemma BroadcastStepKeeps(s: MonitorState, e: Event)
    requires NoneCovered(s)
    ensures NoneCovered(Step(s, e, PulseAll))
  {
    var r := Step(s, e, PulseAll);
    if e.Recheck? && e.k < |s.ready| {
      forall i | 0 <= i < |r.parked| ensures r.balance < r.parked[i] {
        if i < |s.parked| {
          assert r.parked[i] == s.parked[i];
        }
      }
    } else if e.Arrive? {
      forall i | 0 <= i < |r.parked| ensures r.balance < r.parked[i] {
        if i < |s.parked| {
          assert r.parked[i] == s.parked[i];
        }
      }
    }
  }

  /**
    With `Monitor.PulseAll`, no sequence of calls ever leaves a parked withdrawal
    whose amount the balance covers; in particular none is ever stranded.
   */
  lemma {:induction false} BroadcastNeverStrands(s: MonitorState, events: seq<Event>)
    requires NoneCovered(s)
    ensures NoneCovered(Steps(s, events, PulseAll)) && !Stranded(Steps(s, events, PulseAll))
    decreases |events|
  {
    if events != [] {
      BroadcastStepKeeps(s, events[0]);
      BroadcastNeverStrands(Step(s, events[0], PulseAll), events[1..]);
    }
  }
}
