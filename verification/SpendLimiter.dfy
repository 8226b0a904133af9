/** The spend limiter object of crs/app/helpers.py, for one counter.  `limit` is an
    asynchronous context manager; each method is the code between two of its suspension
    points and one step of LimiterSpec. */
module SpendLimiter {
  import opened Wrappers
  import opened LimiterSpec

  class SpendLimiter {
    const limits: Limits
    var counter: real
    var holder: Option<Job>        // who holds the counter's lock
    var jobs: map<Job, JobState>   // the locals of the blocks entered: refund, tracked spend
    ghost var admittedSpend: real
    ghost var otherSpend: real
    ghost var total: real

    ghost function View(): State
      reads this
    {
      State(counter, holder, jobs, admittedSpend, otherSpend, total)
    }

    /** The counter may hold what was settled before. */
    constructor (limits: Limits, settled: real)
      ensures this.limits == limits && View() == Start(settled)
    {
      this.limits := limits;
      counter, holder, jobs := settled, None, map[];
      admittedSpend, otherSpend, total := 0.0, settled, settled;
    }

    method Enter(j: Job)
      requires j !in jobs
      modifies this
      ensures Step(limits, old(View()), View(), Arrive(j))
    {
      jobs := jobs[j := JobState(Queued, 0.0, 0.0)];
    }

    method AcquireLock(j: Job)
      requires j in jobs && jobs[j].phase == Queued && holder == None
      modifies this
      ensures Step(limits, old(View()), View(), TakeLock(j))
    {
      holder := Some(j);
      jobs := jobs[j := jobs[j].(phase := Checking)];
    }

    method CheckLimit(j: Job) returns (refused: bool)
      requires j in jobs && jobs[j].phase == Checking
      modifies this
      ensures Step(limits, old(View()), View(), Check(j))
      ensures refused <==> old(counter) >= limits.max
    {
      refused := counter >= limits.max;
      jobs := jobs[j := jobs[j].(phase := if refused then Refused else Admitted)];
    }

    /** Shielded: once started it completes, so the refund is always recorded with it. */
    method AddDeposit(j: Job)
      requires j in jobs && jobs[j].phase == Admitted
      modifies this
      ensures Step(limits, old(View()), View(), LimiterSpec.Event.Deposit(j))
    {
      counter := counter + limits.deposit;
      jobs := jobs[j := jobs[j].(phase := Deposited, refund := limits.deposit)];
    }

    method ReleaseLock(j: Job)
      requires j in jobs && jobs[j].phase in {Deposited, Refused, Checking}
      modifies this
      ensures Step(limits, old(View()), View(), Unlock(j))
    {
      holder := None;
      jobs := jobs[j := jobs[j].(phase := AfterUnlock(jobs[j].phase))];
    }

    /** The tracker of the block sees an amount spent. */
    method Track(j: Job, amount: real)
      requires j in jobs && jobs[j].phase in {Running, Refused} && amount >= 0.0
      modifies this
      ensures Step(limits, old(View()), View(), Spend(j, amount))
    {
      jobs := jobs[j := jobs[j].(spent := jobs[j].spent + amount)];
      total := total + amount;
    }

    /** The finalizer of the block. */
    method UpdateSpend(j: Job)
      requires j in jobs && jobs[j].phase in {Running, Leaving, Queued}
      modifies this
      ensures Step(limits, old(View()), View(), Settle(j))
    {
      var b := jobs[j];
      var amount := b.spent - b.refund;
      if amount != 0.0 {
        counter := counter + (b.spent - b.refund);
      }
      if b.phase == Running {
        admittedSpend := admittedSpend + b.spent;
      } else {
        otherSpend := otherSpend + b.spent;
      }
      jobs := jobs - {j};
    }
  }
}
