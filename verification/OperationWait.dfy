// The wait for a Compute zone operation: poll, back off, give up after five minutes.
module OperationWait {

  // Times are in nanoseconds.
  const SECOND: nat := 1_000_000_000
  const MAX_WAIT: nat := 300 * SECOND
  const LONGEST_BACKOFF: nat := 30 * SECOND

  // What one poll comes back with.
  datatype Reply = Done | DoneWithError | Running | Pending | OtherStatus | RequestError

  datatype Outcome = Succeeded | OperationFailed | UnexpectedStatus | RequestFailed | TimedOut

  predicate Waits(reply: Reply) {
    reply.Running? || reply.Pending?
  }

  // The server and the clock, by poll number: what the poll answers, how long its request takes and by
  // how much the sleep after it overruns the time asked for.
  datatype World = World(reply: nat -> Reply, took: nat -> nat, overslept: nat -> nat)

  function Backoff(i: nat): (b: nat) {
    if i == 0 then SECOND
    else if Backoff(i - 1) * 2 < LONGEST_BACKOFF then Backoff(i - 1) * 2 else LONGEST_BACKOFF
  }

  // Time passed when the loop comes round for the `n`-th time.
  function Elapsed(w: World, n: nat): (t: nat) {
    if n == 0 then 0 else Elapsed(w, n - 1) + w.took(n - 1) + Backoff(n - 1) + w.overslept(n - 1)
  }

  // The first `n` replies all said to wait.
  ghost predicate Waited(w: World, n: nat) {
    forall i: nat | i < n :: Waits(w.reply(i))
  }

  // What the wait promises: `polls` polls were made, the last (so every one) begun within the limit and
  // each but the last told to wait, and the last reply, or else the limit, decided.
  ghost predicate Ended(w: World, polls: nat, outcome: Outcome) {
    && (polls > 0 ==> Elapsed(w, polls - 1) <= MAX_WAIT)
    && if outcome.TimedOut?
       then Waited(w, polls) && Elapsed(w, polls) > MAX_WAIT
       else polls > 0 && Waited(w, polls - 1) && !Waits(w.reply(polls - 1)) && outcome == Verdict(w.reply(polls - 1))
  }

  function Verdict(reply: Reply): (outcome: Outcome)
    requires !Waits(reply)
  {
    match reply
    case Done => Succeeded
    case DoneWithError => OperationFailed
    case OtherStatus => UnexpectedStatus
    case RequestError => RequestFailed
  }

  method WaitForZoneOperation(w: World) returns (outcome: Outcome, polls: nat)
    ensures Ended(w, polls, outcome)
    ensures polls <= 14
  {
    var elapsed, backoff := 0, SECOND;
    polls := 0;
    while true
      invariant elapsed == Elapsed(w, polls) && backoff == Backoff(polls)
      invariant polls > 0 ==> Elapsed(w, polls - 1) <= MAX_WAIT
      invariant Waited(w, polls)
      invariant polls <= 14
      decreases 14 - polls
    {
      if elapsed > MAX_WAIT {
        return TimedOut, polls;
      }
      AFifteenthPollIsTooLate(w, polls);
      var reply := w.reply(polls);
      if !Waits(reply) {
        return Verdict(reply), polls + 1;
      }
      elapsed := elapsed + w.took(polls) + backoff + w.overslept(polls);
      polls := polls + 1;
      backoff := if backoff * 2 < LONGEST_BACKOFF then backoff * 2 else LONGEST_BACKOFF;
    }
  }

  // ---------- the bound ----------

  // 1 + 2 + 4 + 8 + 16 seconds, then 30 each time.
  lemma {:induction false} BackoffsAddUp(w: World, n: nat)
    requires n >= 5
    ensures Backoff(n) == LONGEST_BACKOFF
    ensures Elapsed(w, n) >= (31 + 30 * (n - 5)) * SECOND
  {
    if n == 5 {
      FirstBackoffs();
      assert Elapsed(w, 1) >= SECOND;
      assert Elapsed(w, 2) >= 3 * SECOND;
      assert Elapsed(w, 3) >= 7 * SECOND;
      assert Elapsed(w, 4) >= 15 * SECOND;
    } else {
      BackoffsAddUp(w, n - 1);
    }
  }

  lemma FirstBackoffs()
    ensures Backoff(0) == SECOND && Backoff(1) == 2 * SECOND && Backoff(2) == 4 * SECOND
    ensures Backoff(3) == 8 * SECOND && Backoff(4) == 16 * SECOND && Backoff(5) == LONGEST_BACKOFF
  {
    assert Backoff(1) == 2 * SECOND;
    assert Backoff(2) == 4 * SECOND;
    assert Backoff(3) == 8 * SECOND;
    assert Backoff(4) == 16 * SECOND;
  }

  // The clock at the fifteenth check is past the limit, whatever the server did.
  lemma AFifteenthPollIsTooLate(w: World, polls: nat)
    requires Elapsed(w, polls) <= MAX_WAIT
    ensures polls < 14
  {
    if polls >= 14 {
      BackoffsAddUp(w, polls);
    }
  }

  lemma {:induction false} ElapsedGrows(w: World, m: nat, n: nat)
    requires m <= n
    ensures Elapsed(w, m) <= Elapsed(w, n)
  {
    if m < n {
      ElapsedGrows(w, m, n - 1);
    }
  }

  // ---------- what the promise determines ----------

  // Only one ending fits a server and a clock.
  lemma EndingIsUnique(w: World, polls: nat, outcome: Outcome, polls': nat, outcome': Outcome)
    requires Ended(w, polls, outcome) && Ended(w, polls', outcome')
    ensures polls == polls' && outcome == outcome'
  {
    if polls < polls' {
      NoLaterEnding(w, polls, outcome, polls', outcome');
    } else if polls' < polls {
      NoLaterEnding(w, polls', outcome', polls, outcome);
    }
  }

  lemma NoLaterEnding(w: World, polls: nat, outcome: Outcome, later: nat, outcome': Outcome)
    requires Ended(w, polls, outcome) && polls < later
    ensures !Ended(w, later, outcome')
  {
    ElapsedGrows(w, polls, later - 1);
    assert !outcome.TimedOut? ==> !Waits(w.reply(polls - 1));
  }

  // The wait succeeds exactly when some poll begun within the limit says done without an error and every
  // poll before it said to wait.
  lemma SucceedsExactlyWhen(w: World, polls: nat, outcome: Outcome)
    requires Ended(w, polls, outcome)
    ensures outcome.Succeeded? <==>
      exists k: nat :: w.reply(k).Done? && Elapsed(w, k) <= MAX_WAIT && forall i: nat | i < k :: Waits(w.reply(i))
  {
    if outcome.Succeeded? {
      assert w.reply(polls - 1).Done?;
    }
    if k: nat :| w.reply(k).Done? && Elapsed(w, k) <= MAX_WAIT && forall i: nat | i < k :: Waits(w.reply(i)) {
      assert Ended(w, k + 1, Succeeded);
      EndingIsUnique(w, polls, outcome, k + 1, Succeeded);
    }
  }

  // It times out exactly when the limit passes while every reply so far said to wait.
  lemma TimesOutExactlyWhen(w: World, polls: nat, outcome: Outcome)
    requires Ended(w, polls, outcome)
    ensures outcome.TimedOut? <==>
      exists n: nat :: Elapsed(w, n) > MAX_WAIT && (forall i: nat | i < n :: Waits(w.reply(i)))
  {
    if outcome.TimedOut? {
      assert Elapsed(w, polls) > MAX_WAIT;
      assert forall i: nat | i < polls :: Waits(w.reply(i));
    }
    if n: nat :| Elapsed(w, n) > MAX_WAIT && (forall i: nat | i < n :: Waits(w.reply(i))) {
      if !outcome.TimedOut? {
        DecidedInTime(w, polls, outcome, n);
      }
    }
  }

  lemma DecidedInTime(w: World, polls: nat, outcome: Outcome, n: nat)
    requires Ended(w, polls, outcome) && !outcome.TimedOut?
    requires forall i: nat | i < n :: Waits(w.reply(i))
    ensures Elapsed(w, n) <= MAX_WAIT
  {
    assert !Waits(w.reply(polls - 1));
    ElapsedGrows(w, n, polls - 1);
  }

  // ---------- in words and seconds ----------

  // Which reply gives which outcome, and that RUNNING and PENDING are the two that wait.
  lemma OutcomeCaseByCase(w: World, polls: nat, outcome: Outcome)
    requires Ended(w, polls, outcome)
    ensures forall i: nat | i < polls - 1 :: w.reply(i) == Running || w.reply(i) == Pending
    ensures outcome == TimedOut ==> polls == 0 || w.reply(polls - 1) == Running || w.reply(polls - 1) == Pending
    ensures outcome != TimedOut ==> polls > 0
    ensures outcome == Succeeded ==> w.reply(polls - 1) == Done
    ensures outcome == OperationFailed ==> w.reply(polls - 1) == DoneWithError
    ensures outcome == UnexpectedStatus ==> w.reply(polls - 1) == OtherStatus
    ensures outcome == RequestFailed ==> w.reply(polls - 1) == RequestError
  {
  }

  // The first poll's reply alone decides unless it is RUNNING or PENDING.
  lemma FirstReplyCaseByCase(w: World, polls: nat, outcome: Outcome)
    requires Ended(w, polls, outcome)
    ensures w.reply(0) == Done ==> outcome == Succeeded
    ensures w.reply(0) == DoneWithError ==> outcome == OperationFailed
    ensures w.reply(0) == OtherStatus ==> outcome == UnexpectedStatus
    ensures w.reply(0) == RequestError ==> outcome == RequestFailed
    ensures w.reply(0) == Running || w.reply(0) == Pending ==> polls > 1 || outcome == TimedOut
  {
    assert Elapsed(w, 0) == 0;
    assert polls > 1 ==> Waits(w.reply(0));
  }

  // Five minutes in all, and sleeps of 1, 2, 4, 8, 16 and then 30 seconds.
  lemma LimitsInNanoseconds(n: nat)
    ensures MAX_WAIT == 300_000_000_000
    ensures Backoff(0) == 1_000_000_000 && Backoff(1) == 2_000_000_000 && Backoff(2) == 4_000_000_000
    ensures Backoff(3) == 8_000_000_000 && Backoff(4) == 16_000_000_000
    ensures n >= 5 ==> Backoff(n) == 30_000_000_000
  {
    FirstBackoffs();
    if n >= 5 {
      BackoffsAddUp(World(_ => Running, _ => 0, _ => 0), n);
    }
  }

  // ---------- the bound is reached ----------

  // A server that never finishes and answers at once is asked fourteen times, not fewer.
  lemma FourteenPollsHappen(polls: nat, outcome: Outcome)
    requires Ended(NeverDone(), polls, outcome)
    ensures polls == 14 && outcome.TimedOut?
  {
    ExactBackoffs(NeverDone(), 13);
    ExactBackoffs(NeverDone(), 14);
    EndsAtFourteen(NeverDone());
    EndingIsUnique(NeverDone(), polls, outcome, 14, TimedOut);
  }

  function NeverDone(): (w: World) {
    World(_ => Running, _ => 0, _ => 0)
  }

  lemma EndsAtFourteen(w: World)
    requires Elapsed(w, 13) <= MAX_WAIT < Elapsed(w, 14) && forall i: nat :: w.reply(i).Running?
    ensures Ended(w, 14, TimedOut)
  {
  }

  lemma {:induction false} ExactBackoffs(w: World, n: nat)
    requires n >= 5 && forall i: nat :: w.took(i) == 0 && w.overslept(i) == 0
    ensures Elapsed(w, n) == (31 + 30 * (n - 5)) * SECOND && Backoff(n) == LONGEST_BACKOFF
  {
    FirstBackoffs();
    if n == 5 {
      assert Elapsed(w, 1) == SECOND;
      assert Elapsed(w, 2) == 3 * SECOND;
      assert Elapsed(w, 3) == 7 * SECOND;
      assert Elapsed(w, 4) == 15 * SECOND;
    } else {
      ExactBackoffs(w, n - 1);
    }
  }
}
