/**
 * The optimistic transaction pattern the scripts share (WATCH, read, validate, MULTI/EXEC, retry on
 * WatchError until a deadline). One attempt validates a snapshot into a plan: None when the
 * business rule rejects (UNWATCH, return None), or the state after the staged batch and the reply.
 * The batch commits unless a watched key changed, which the environment reports per attempt.
 */
module Optimistic {
  import opened Common

  /** What the environment shows at the head of one loop iteration: the clock, and whether
      another client modifies a watched key before this attempt's EXEC. */
  datatype Tick = Tick(now: int, conflict: bool)

  /** The result of one attempt. */
  datatype Attempt<R> = Committed(value: R) | Conflicted | Rejected

  /** The result of a retried operation: the scripts' True (or reply), None and False. */
  datatype Outcome<R> = Success(value: R) | Rejection | Timeout

  /** One attempt on state `s`: a rejected plan writes nothing; a conflict discards the batch. */
  function Try<S, R>(s: S, plan: Option<(S, R)>, conflict: bool): (S, Attempt<R>)
  {
    match plan
    case None => (s, Rejected)
    case Some(p) => if conflict then (s, Conflicted) else (p.0, Committed(p.1))
  }

  /** `while time.time() < end`; a loop without a deadline (`while 1`) is always open. */
  predicate Open(deadline: Option<int>, t: Tick) {
    deadline.None? || t.now < deadline.value
  }

  /** The retry loop: attempt while the deadline is open, stop at the first commit or rejection. */
  function Run<S, R>(s: S, plan: Option<(S, R)>, deadline: Option<int>, ticks: seq<Tick>): (S, Outcome<R>)
    decreases |ticks|
  {
    if ticks == [] || !Open(deadline, ticks[0]) then (s, Timeout)
    else match Try(s, plan, ticks[0].conflict)
      case (_, Rejected) => (s, Rejection)
      case (s', Committed(r)) => (s', Success(r))
      case (_, Conflicted) => Run(s, plan, deadline, ticks[1..])
  }

  /** How many attempts the loop makes at most: the ticks before the first closed one. */
  function Window(deadline: Option<int>, ticks: seq<Tick>): (n: nat)
    ensures n <= |ticks|
    decreases |ticks|
  {
    if ticks == [] || !Open(deadline, ticks[0]) then 0 else 1 + Window(deadline, ticks[1..])
  }

  lemma {:induction false} WindowSpec(deadline: Option<int>, ticks: seq<Tick>)
    ensures forall i :: 0 <= i < Window(deadline, ticks) ==> Open(deadline, ticks[i])
    ensures Window(deadline, ticks) < |ticks| ==> !Open(deadline, ticks[Window(deadline, ticks)])
    decreases |ticks|
  {
    if ticks != [] && Open(deadline, ticks[0]) {
      WindowSpec(deadline, ticks[1..]);
      forall i | 0 < i < Window(deadline, ticks) ensures Open(deadline, ticks[i]) {
        assert ticks[i] == ticks[1..][i - 1];
      }
    }
  }

  /**
   * What the retry loop returns. It times out exactly when no attempt fits before the deadline or
   * every attempt that does is hit by a conflict; it rejects exactly when the plan rejects and an
   * attempt is made; it succeeds exactly when the plan validates and some attempt in the window runs
   * without conflict, and then the state is the plan's. Anything but success leaves the state alone.
   */
  lemma {:induction false} RunSpec<S, R>(s: S, plan: Option<(S, R)>, deadline: Option<int>, ticks: seq<Tick>)
    ensures var n := Window(deadline, ticks);
      && (Run(s, plan, deadline, ticks).1.Timeout? <==>
            n == 0 || (plan.Some? && forall i :: 0 <= i < n ==> ticks[i].conflict))
      && (Run(s, plan, deadline, ticks).1.Rejection? <==> n > 0 && plan.None?)
      && (Run(s, plan, deadline, ticks).1.Success? <==>
            n > 0 && plan.Some? && exists i :: 0 <= i < n && !ticks[i].conflict)
    ensures Run(s, plan, deadline, ticks).1.Success? ==>
              plan.Some? && Run(s, plan, deadline, ticks) == (plan.value.0, Success(plan.value.1))
    ensures !Run(s, plan, deadline, ticks).1.Success? ==> Run(s, plan, deadline, ticks).0 == s
    decreases |ticks|
  {
    var n := Window(deadline, ticks);
    if ticks != [] && Open(deadline, ticks[0]) && plan.Some? && ticks[0].conflict {
      RunSpec(s, plan, deadline, ticks[1..]);
      var m := Window(deadline, ticks[1..]);
      assert n == m + 1;
      forall i | 0 < i < n ensures ticks[i] == ticks[1..][i - 1] { }
      if exists i :: 0 <= i < n && !ticks[i].conflict {
        var i :| 0 <= i < n && !ticks[i].conflict;
        assert 0 <= i - 1 < m && !ticks[1..][i - 1].conflict;
      }
      if exists i :: 0 <= i < m && !ticks[1..][i].conflict {
        var i :| 0 <= i < m && !ticks[1..][i].conflict;
        assert !ticks[i + 1].conflict;
      }
    }
  }

  /** A property of the state that every validated plan keeps holds after the retry loop. */
  lemma RunPreserves<S, R>(inv: S -> bool, s: S, plan: Option<(S, R)>, deadline: Option<int>, ticks: seq<Tick>)
    requires inv(s)
    requires plan.Some? ==> inv(plan.value.0)
    ensures inv(Run(s, plan, deadline, ticks).0)
  {
    RunSpec(s, plan, deadline, ticks);
  }

  /** Skipping one conflicted attempt: the loop's state after it is the loop on the remaining ticks. */
  lemma RunStep<S, R>(s: S, plan: Option<(S, R)>, deadline: Option<int>, ticks: seq<Tick>, i: nat)
    requires i < |ticks| && Open(deadline, ticks[i]) && plan.Some? && ticks[i].conflict
    ensures Run(s, plan, deadline, ticks[i..]) == Run(s, plan, deadline, ticks[i + 1..])
  {
    assert ticks[i..][0] == ticks[i] && ticks[i..][1..] == ticks[i + 1..];
  }

  // ---------------------------------------------------------------------------------------------
  // Attempts that plan from the clock

  /**
   * The retry loop when each attempt plans from what it reads at its own tick (the current hour,
   * a timestamp): attempt while the deadline is open, stop at the first commit or rejection.
   */
  function RunAt<S, R>(s: S, plan: Tick -> Option<(S, R)>, deadline: Option<int>, ticks: seq<Tick>): (S, Outcome<R>)
    decreases |ticks|
  {
    if ticks == [] || !Open(deadline, ticks[0]) then (s, Timeout)
    else match Try(s, plan(ticks[0]), ticks[0].conflict)
      case (_, Rejected) => (s, Rejection)
      case (s', Committed(r)) => (s', Success(r))
      case (_, Conflicted) => RunAt(s, plan, deadline, ticks[1..])
  }

  /** An attempt ends the loop when its plan rejects or nothing conflicts with it. */
  predicate Settles<S, R>(plan: Tick -> Option<(S, R)>, t: Tick) {
    plan(t).None? || !t.conflict
  }

  /** The index of the attempt that ends the loop, if one does before the deadline. */
  function FirstSettled<S, R>(plan: Tick -> Option<(S, R)>, deadline: Option<int>, ticks: seq<Tick>): (k: Option<nat>)
    ensures k.Some? ==> k.value < |ticks|
    decreases |ticks|
  {
    if ticks == [] || !Open(deadline, ticks[0]) then None
    else if Settles(plan, ticks[0]) then Some(0)
    else match FirstSettled(plan, deadline, ticks[1..])
      case None => None
      case Some(k) => Some(k + 1)
  }

  /** The state and reply of the attempt that ends the loop. */
  function Settle<S, R>(s: S, p: Option<(S, R)>): (S, Outcome<R>) {
    match p
    case None => (s, Rejection)
    case Some(q) => (q.0, Success(q.1))
  }

  /**
   * The loop ends at the first attempt before the deadline that settles: every earlier one was
   * open and conflicted; with none, it times out and nothing changes.
   */
  lemma {:induction false} FirstSettledSpec<S, R>(plan: Tick -> Option<(S, R)>, deadline: Option<int>, ticks: seq<Tick>)
    ensures var k := FirstSettled(plan, deadline, ticks);
      && (k.Some? ==> k.value < Window(deadline, ticks) && Settles(plan, ticks[k.value])
                      && forall j :: 0 <= j < k.value ==> !Settles(plan, ticks[j]))
      && (k.None? <==> forall i :: 0 <= i < Window(deadline, ticks) ==> !Settles(plan, ticks[i]))
    decreases |ticks|
  {
    if ticks != [] && Open(deadline, ticks[0]) && !Settles(plan, ticks[0]) {
      FirstSettledSpec(plan, deadline, ticks[1..]);
      var n := Window(deadline, ticks);
      forall i | 0 < i < n ensures ticks[i] == ticks[1..][i - 1] { }
      if forall i :: 0 <= i < Window(deadline, ticks[1..]) ==> !Settles(plan, ticks[1..][i]) {
        forall i | 0 <= i < n ensures !Settles(plan, ticks[i]) {
          if i > 0 {
            assert !Settles(plan, ticks[1..][i - 1]);
          }
        }
      }
    }
  }

  /** What the loop returns: the settling attempt's outcome, or a timeout that changes nothing. */
  lemma {:induction false} RunAtSpec<S, R>(s: S, plan: Tick -> Option<(S, R)>, deadline: Option<int>, ticks: seq<Tick>)
    ensures RunAt(s, plan, deadline, ticks) ==
      match FirstSettled(plan, deadline, ticks)
      case None => (s, Timeout)
      case Some(k) => Settle(s, plan(ticks[k]))
    decreases |ticks|
  {
    FirstSettledSpec(plan, deadline, ticks);
    if ticks != [] && Open(deadline, ticks[0]) && !Settles(plan, ticks[0]) {
      RunAtSpec(s, plan, deadline, ticks[1..]);
      FirstSettledSpec(plan, deadline, ticks[1..]);
      match FirstSettled(plan, deadline, ticks[1..])
      case None =>
      case Some(k) =>
        assert ticks[k + 1] == ticks[1..][k];
    }
  }

  /** Skipping one attempt that does not settle: the loop after it is the loop on the remaining ticks. */
  lemma RunAtStep<S, R>(s: S, plan: Tick -> Option<(S, R)>, deadline: Option<int>, ticks: seq<Tick>, i: nat)
    requires i < |ticks| && Open(deadline, ticks[i]) && !Settles(plan, ticks[i])
    ensures RunAt(s, plan, deadline, ticks[i..]) == RunAt(s, plan, deadline, ticks[i + 1..])
  {
    assert ticks[i..][0] == ticks[i] && ticks[i..][1..] == ticks[i + 1..];
  }
}
