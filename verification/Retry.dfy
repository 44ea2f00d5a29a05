/** The scheduler's set-and-check machine: an action is performed, checked some time later, and retried. */
module Retry {

  const RESULT_SUCCESS := 1
  const RESULT_DEVICE_UNREACHABLE := 2
  const RESULT_SERVER_UNREACHABLE := 6
  const RESULT_FAILURE := 7
  const RESULT_CANCELLED := 8
  const RESULT_WITHOUT_CONFIRMATION := 9

  /** What an action class fixes. Times are in seconds. */
  datatype Policy = Policy(tryLimit: int, timeToRetry: int, timeToCheck: int, retryWhenFail: bool,
                           checkBeforeStart: bool, channelGroup: bool, allowed: bool)

  datatype Connection = Connected | Disconnected | ServerUnreachable

  /** The answers of the world to one execution: whether the state is as requested before the start, whether the
      action could be performed, whether the state is as requested at the check, the code of the obstacle seen there
      (0 if none), and how the device can be reached. */
  datatype Answers = Answers(startOk: bool, action: bool, checkOk: bool, failCode: int, connection: Connection)

  /** The record of a job: how often it was rescheduled, the results and waits requested, and the actions performed. */
  datatype Record = Record(retryCount: nat, results: seq<int>, waits: seq<int>, actions: nat)

  const START := Record(0, [], [], 0)

  function WithResult(r: Record, result: int): Record {
    r.(results := r.results + [result])
  }

  function WithRetry(r: Record, seconds: int): Record {
    r.(retryCount := r.retryCount + 1, waits := r.waits + [seconds])
  }

  /** The effect of one execution on the record. */
  function Executed(p: Policy, r: Record, a: Answers): Record {
    if !p.allowed then WithResult(r, RESULT_CANCELLED)
    else if !p.channelGroup && p.checkBeforeStart && r.retryCount == 0 && a.startOk then WithResult(r, RESULT_SUCCESS)
    else if r.retryCount % 2 == 0 then AfterSet(p, r.(actions := r.actions + 1), a)
    else if a.checkOk then WithResult(r, RESULT_SUCCESS)
    else if p.retryWhenFail && r.retryCount + 1 < p.tryLimit * 2 then WithRetry(r, p.timeToRetry - p.timeToCheck)
    else if a.failCode > 0 then WithResult(r, a.failCode)
    else WithResult(r, match a.connection
                       case Connected => RESULT_FAILURE
                       case Disconnected => RESULT_DEVICE_UNREACHABLE
                       case ServerUnreachable => RESULT_SERVER_UNREACHABLE)
  }

  function AfterSet(p: Policy, r: Record, a: Answers): Record {
    if p.channelGroup then
      WithResult(r, if a.action then RESULT_WITHOUT_CONFIRMATION
                    else if a.connection.ServerUnreachable? then RESULT_SERVER_UNREACHABLE else RESULT_FAILURE)
    else if r.retryCount == 0 && p.tryLimit <= 1 then
      WithResult(r, if a.action then RESULT_WITHOUT_CONFIRMATION else RESULT_FAILURE)
    else WithRetry(r, p.timeToCheck)
  }

  /** The job object, updated through its database record. */
  class Job {
    const policy: Policy
    var retryCount: nat
    var results: seq<int>
    var waits: seq<int>
    var actions: nat

    function Image(): Record
      reads this
    {
      Record(retryCount, results, waits, actions)
    }

    constructor (policy: Policy)
      ensures this.policy == policy && Image() == START
    {
      this.policy := policy;
      retryCount, results, waits, actions := 0, [], [], 0;
    }

    method SetResult(result: int)
      modifies this`results
      ensures Image() == WithResult(old(Image()), result)
    {
      results := results + [result];
    }

    method SetRetry(seconds: int)
      modifies this`retryCount, this`waits
      ensures Image() == WithRetry(old(Image()), seconds)
    {
      retryCount := retryCount + 1;
      waits := waits + [seconds];
    }

    method Execute(a: Answers)
      modifies this
      ensures Image() == Executed(policy, old(Image()), a)
    {
      if !policy.allowed {
        SetResult(RESULT_CANCELLED);
        return;
      }
      if !policy.channelGroup && policy.checkBeforeStart && retryCount == 0 && a.startOk {
        SetResult(RESULT_SUCCESS);
        return;
      }
      if retryCount % 2 == 0 {
        actions := actions + 1;
        if policy.channelGroup {
          if a.action {
            SetResult(RESULT_WITHOUT_CONFIRMATION);
          } else if a.connection.ServerUnreachable? {
            SetResult(RESULT_SERVER_UNREACHABLE);
          } else {
            SetResult(RESULT_FAILURE);
          }
        } else if retryCount == 0 && policy.tryLimit <= 1 {
          SetResult(if a.action then RESULT_WITHOUT_CONFIRMATION else RESULT_FAILURE);
        } else {
          SetRetry(policy.timeToCheck);
        }
        return;
      }
      if a.checkOk {
        SetResult(RESULT_SUCCESS);
      } else if policy.retryWhenFail && retryCount + 1 < policy.tryLimit * 2 {
        SetRetry(policy.timeToRetry - policy.timeToCheck);
      } else if a.failCode > 0 {
        SetResult(a.failCode);
      } else {
        match a.connection
        case Connected => SetResult(RESULT_FAILURE);
        case Disconnected => SetResult(RESULT_DEVICE_UNREACHABLE);
        case ServerUnreachable => SetResult(RESULT_SERVER_UNREACHABLE);
      }
    }
  }

  // ----- whole runs -----

  /** The counts a run can reach. */
  predicate Reachable(p: Policy, r: Record) {
    r.retryCount == 0 || r.retryCount < 2 * p.tryLimit
  }

  /** Executions one after the other, until there is a result; answers(k) is what execution k meets. */
  function RunJob(p: Policy, r: Record, answers: nat -> Answers): Record
    requires Reachable(p, r)
    decreases 2 * (if p.tryLimit < 1 then 1 else p.tryLimit) - r.retryCount
  {
    var r' := Executed(p, r, answers(r.retryCount));
    if r'.results != r.results then r' else RunJob(p, r', answers)
  }

  function Sum(s: seq<int>): int {
    if s == [] then 0 else Sum(s[..|s| - 1]) + s[|s| - 1]
  }

  /** The time a job may take, as announced. */
  function MaxTime(p: Policy): int {
    p.tryLimit * p.timeToRetry
  }

  /** The wait requested by execution n, if it does not end the run. */
  function WaitAfter(p: Policy, n: nat): int {
    if n % 2 == 0 then p.timeToCheck else p.timeToRetry - p.timeToCheck
  }

  /** The time requested up to a retry count. */
  function TimeAt(p: Policy, retryCount: nat): int {
    if retryCount == 0 then 0 else TimeAt(p, retryCount - 1) + WaitAfter(p, retryCount - 1)
  }

  /** It is full rounds, and a wait for the check if one is pending. */
  lemma {:induction false} TimeIsRounds(p: Policy, n: nat)
    ensures TimeAt(p, n) == n / 2 * p.timeToRetry + if n % 2 == 0 then 0 else p.timeToCheck
  {
    if n >= 2 {
      TimeIsRounds(p, n - 2);
      assert TimeAt(p, n) == TimeAt(p, n - 2) + WaitAfter(p, n - 2) + WaitAfter(p, n - 1);
      var half := n / 2 - 1;
      assert (n - 2) / 2 == half && (half + 1) * p.timeToRetry == half * p.timeToRetry + p.timeToRetry;
    }
  }

  /** What holds between two executions of a run. */
  predicate OnCourse(p: Policy, r: Record) {
    && Reachable(p, r) && r.results == []
    && r.actions == (r.retryCount + 1) / 2
    && Sum(r.waits) == TimeAt(p, r.retryCount)
  }

  lemma {:induction false} WaitOnCourse(p: Policy, r: Record, actions: nat)
    requires OnCourse(p, r) && actions == (r.retryCount + 2) / 2 && r.retryCount + 1 < 2 * p.tryLimit
    ensures OnCourse(p, WithRetry(r, WaitAfter(p, r.retryCount)).(actions := actions))
  {
    assert (r.waits + [WaitAfter(p, r.retryCount)])[..|r.waits|] == r.waits;
  }

  /** An execution of a run either requests one more wait, and counts an action if it was one to act, ... */
  lemma {:induction false} ExecutionWaits(p: Policy, r: Record, a: Answers)
    requires Reachable(p, r) && r.results == [] && Executed(p, r, a).results == []
    ensures r.retryCount + 1 < 2 * p.tryLimit
    ensures Executed(p, r, a) ==
            WithRetry(r, WaitAfter(p, r.retryCount)).(actions := r.actions + if r.retryCount % 2 == 0 then 1 else 0)
  {
  }

  /** ... or ends the run with a result. */
  lemma {:induction false} ExecutionEnds(p: Policy, r: Record, a: Answers)
    requires r.results == [] && Executed(p, r, a).results != []
    ensures var r' := Executed(p, r, a);
            && |r'.results| == 1 && r'.waits == r.waits && r'.retryCount == r.retryCount
            && r.actions <= r'.actions <= r.actions + if r.retryCount % 2 == 0 then 1 else 0
  {
  }

  lemma {:induction false} ExecutionStaysOnCourse(p: Policy, r: Record, a: Answers)
    requires OnCourse(p, r) && Executed(p, r, a).results == []
    ensures OnCourse(p, Executed(p, r, a)) && Executed(p, r, a).retryCount == r.retryCount + 1
  {
    ExecutionWaits(p, r, a);
    WaitOnCourse(p, r, Executed(p, r, a).actions);
  }

  lemma {:induction false} RunStaysOnCourse(p: Policy, r: Record, answers: nat -> Answers)
    requires OnCourse(p, r)
    ensures var end := RunJob(p, r, answers);
            && |end.results| == 1 && Reachable(p, end)
            && end.actions <= end.retryCount / 2 + 1
            && (end.retryCount % 2 == 1 ==> end.actions == (end.retryCount + 1) / 2)
            && Sum(end.waits) == TimeAt(p, end.retryCount)
    decreases 2 * (if p.tryLimit < 1 then 1 else p.tryLimit) - r.retryCount
  {
    var a := answers(r.retryCount);
    if Executed(p, r, a).results == [] {
      ExecutionStaysOnCourse(p, r, a);
      RunStaysOnCourse(p, Executed(p, r, a), answers);
    } else {
      ExecutionEnds(p, r, a);
    }
  }

  /** Whatever the world answers, a run ends with exactly one result, after at most tryLimit actions (one, if the
      limit is lower), and the waits it requested are full rounds and at most one wait for a check. */
  lemma RunsEndWithOneResult(p: Policy, answers: nat -> Answers)
    ensures var end := RunJob(p, START, answers);
            && |end.results| == 1
            && end.actions <= (if p.tryLimit < 1 then 1 else p.tryLimit)
            && (end.retryCount == 0 || end.retryCount < 2 * p.tryLimit)
            && Sum(end.waits) == end.retryCount / 2 * p.timeToRetry
                                 + if end.retryCount % 2 == 0 then 0 else p.timeToCheck
  {
    RunStaysOnCourse(p, START, answers);
    TimeIsRounds(p, RunJob(p, START, answers).retryCount);
  }

  /** The position is looked at in execution n, and is as requested. */
  predicate SeenAsRequested(p: Policy, n: nat, a: Answers) {
    if n % 2 == 1 then a.checkOk else n == 0 && p.checkBeforeStart && !p.channelGroup && a.startOk
  }

  /** The action is given up at its check, and an obstacle was seen there. */
  predicate SeesObstacle(p: Policy, n: nat, a: Answers) {
    p.allowed && n % 2 == 1 && !a.checkOk && a.failCode > 0
  }

  /** What a result after n retries tells. */
  predicate Tells(p: Policy, n: nat, a: Answers, result: int) {
    && (if SeesObstacle(p, n, a) then result == a.failCode
        else
          && (result == RESULT_CANCELLED <==> !p.allowed)
          && (result == RESULT_SUCCESS <==> p.allowed && SeenAsRequested(p, n, a))
          && (result == RESULT_WITHOUT_CONFIRMATION <==>
              p.allowed && n == 0 && !SeenAsRequested(p, n, a) && a.action && (p.channelGroup || p.tryLimit <= 1))
          && (result == RESULT_DEVICE_UNREACHABLE <==>
              p.allowed && n % 2 == 1 && !a.checkOk && a.connection.Disconnected?)
          && (result == RESULT_SERVER_UNREACHABLE <==>
              p.allowed && a.connection.ServerUnreachable?
              && ((n % 2 == 1 && !a.checkOk)
                  || (n == 0 && !SeenAsRequested(p, n, a) && p.channelGroup && !a.action)))
          && (result == RESULT_FAILURE <==>
              p.allowed
              && ((n % 2 == 1 && !a.checkOk && a.connection.Connected?)
                  || (n == 0 && !SeenAsRequested(p, n, a) && !a.action
                      && (if p.channelGroup then !a.connection.ServerUnreachable? else p.tryLimit <= 1)))))
    && (p.allowed && n % 2 == 0 && !p.channelGroup && p.tryLimit > 1 ==> SeenAsRequested(p, n, a))
    && (p.allowed && n % 2 == 1 && !a.checkOk && p.retryWhenFail ==> n + 1 == 2 * p.tryLimit)
  }

  lemma ResultTells(p: Policy, r: Record, a: Answers)
    requires Reachable(p, r) && r.results == [] && Executed(p, r, a).results != []
    requires p.channelGroup ==> r.retryCount == 0
    ensures Tells(p, r.retryCount, a, Executed(p, r, a).results[0])
  {
  }

  /** The executions from one count to another did not see the position requested. */
  predicate NeverSeen(p: Policy, answers: nat -> Answers, from: nat, to: nat) {
    forall k :: from <= k < to ==> !SeenAsRequested(p, k, answers(k))
  }

  lemma {:induction false} WaitingSawNothing(p: Policy, r: Record, answers: nat -> Answers, to: nat)
    requires Reachable(p, r) && r.results == [] && Executed(p, r, answers(r.retryCount)).results == []
    requires NeverSeen(p, answers, r.retryCount + 1, to)
    ensures NeverSeen(p, answers, r.retryCount, to)
  {
    assert !SeenAsRequested(p, r.retryCount, answers(r.retryCount));
  }

  lemma {:induction false} RunTells(p: Policy, r: Record, answers: nat -> Answers)
    requires OnCourse(p, r) && (p.channelGroup ==> r.retryCount == 0)
    ensures var end := RunJob(p, r, answers);
            && |end.results| == 1 && Tells(p, end.retryCount, answers(end.retryCount), end.results[0])
            && NeverSeen(p, answers, r.retryCount, end.retryCount)
    decreases 2 * (if p.tryLimit < 1 then 1 else p.tryLimit) - r.retryCount
  {
    var a := answers(r.retryCount);
    if Executed(p, r, a).results == [] {
      ExecutionStaysOnCourse(p, r, a);
      RunTells(p, Executed(p, r, a), answers);
      WaitingSawNothing(p, r, answers, RunJob(p, r, answers).retryCount);
    } else {
      ExecutionEnds(p, r, a);
      ResultTells(p, r, a);
    }
  }

  /** What the one result of a run tells. If the last look saw an obstacle, the result is its code. Otherwise it is
      success exactly if the last look, and no earlier one, saw the position requested; cancelled exactly if the
      action is not allowed; no confirmation exactly if one unchecked action was performed; device unreachable exactly
      if the last look failed while the device was away. An action that may be checked ends before its check only with
      the position seen, and a retried action is given up only at the limit. */
  lemma {:induction false} ResultsAreTrue(p: Policy, answers: nat -> Answers)
    ensures var end := RunJob(p, START, answers);
            && |end.results| == 1 && Tells(p, end.retryCount, answers(end.retryCount), end.results[0])
            && NeverSeen(p, answers, 0, end.retryCount)
  {
    RunTells(p, START, answers);
  }

  lemma Rounds(a: int, b: int, t: int)
    requires a <= b && t >= 0
    ensures a * t <= b * t
  {
  }

  /** A run stays within the announced time if checking comes no later than retrying. */
  lemma RunsKeepTheirTime(p: Policy, answers: nat -> Answers)
    requires 0 <= p.timeToCheck <= p.timeToRetry && p.tryLimit >= 1
    ensures Sum(RunJob(p, START, answers).waits) <= MaxTime(p)
  {
    RunsEndWithOneResult(p, answers);
    var n := RunJob(p, START, answers).retryCount;
    var rounds := n / 2;
    assert rounds + 1 <= p.tryLimit;
    Rounds(rounds + 1, p.tryLimit, p.timeToRetry);
    assert (rounds + 1) * p.timeToRetry == rounds * p.timeToRetry + p.timeToRetry;
    assert n % 2 == 0 || n % 2 == 1;
  }

  const NEVER := Answers(false, false, false, 0, Connected)

  /** An action that never takes effect is retried to the limit. */
  lemma {:induction false} HopelessRun(p: Policy, r: Record)
    requires OnCourse(p, r) && p.allowed && !p.channelGroup && p.retryWhenFail && p.tryLimit >= 2
    ensures RunJob(p, r, _ => NEVER).retryCount == 2 * p.tryLimit - 1
    decreases 2 * p.tryLimit - r.retryCount
  {
    var r' := Executed(p, r, NEVER);
    if r'.results == [] {
      ExecutionStaysOnCourse(p, r, NEVER);
      HopelessRun(p, r');
    }
  }

  lemma {:induction false} WaitingMeans(p: Policy, r: Record, a: Answers)
    requires Reachable(p, r) && r.results == [] && Executed(p, r, a).results == []
    ensures if r.retryCount % 2 == 0 then r.retryCount == 0 ==> Checked(p) else p.retryWhenFail
  {
  }

  lemma {:induction false} OneExecution(p: Policy, r: Record, answers: nat -> Answers)
    requires OnCourse(p, r)
    ensures var r' := Executed(p, r, answers(r.retryCount));
            if r'.results == [] then OnCourse(p, r') && r'.retryCount == r.retryCount + 1
                                     && RunJob(p, r, answers) == RunJob(p, r', answers)
            else RunJob(p, r, answers) == r' && r'.retryCount == r.retryCount
  {
    if Executed(p, r, answers(r.retryCount)).results == [] {
      ExecutionStaysOnCourse(p, r, answers(r.retryCount));
    } else {
      ExecutionEnds(p, r, answers(r.retryCount));
    }
  }

  /** Some execution may be followed by a check. */
  predicate Checked(p: Policy) {
    p.allowed && !p.channelGroup && p.tryLimit > 1
  }

  /** An action that is not checked waits for nothing, and one that is not retried is checked at most once. */
  lemma {:induction false} ShortRun(p: Policy, answers: nat -> Answers)
    ensures !Checked(p) ==> RunJob(p, START, answers).retryCount == 0
    ensures !p.retryWhenFail ==> RunJob(p, START, answers).retryCount <= 1
  {
    OneExecution(p, START, answers);
    var r := Executed(p, START, answers(0));
    if r.results == [] {
      WaitingMeans(p, START, answers(0));
      OneExecution(p, r, answers);
      if Executed(p, r, answers(1)).results == [] {
        WaitingMeans(p, r, answers(1));
      }
    }
  }

  /** An action that is not retried and never takes effect is given up at its check. */
  lemma {:induction false} HopelessCheck(p: Policy)
    requires Checked(p) && !p.retryWhenFail
    ensures RunJob(p, START, _ => NEVER).retryCount == 1
  {
    OneExecution(p, START, _ => NEVER);
    OneExecution(p, Executed(p, START, NEVER), _ => NEVER);
  }

  /** The wait for a check fits: before the next try, or, without one, into the whole time. */
  predicate CheckFits(p: Policy) {
    p.timeToCheck <= if p.retryWhenFail then p.timeToRetry else MaxTime(p)
  }

  lemma {:induction false} CheckThatFits(p: Policy, answers: nat -> Answers)
    requires 0 <= p.timeToCheck && 0 <= p.timeToRetry && MaxTime(p) >= 0 && (Checked(p) ==> CheckFits(p))
    ensures Sum(RunJob(p, START, answers).waits) <= MaxTime(p)
  {
    ShortRun(p, answers);
    RunsEndWithOneResult(p, answers);
    if Checked(p) && p.retryWhenFail {
      RunsKeepTheirTime(p, answers);
    }
  }

  lemma {:induction false} CheckThatDoesNotFit(p: Policy)
    requires 0 <= p.timeToCheck && 0 <= p.timeToRetry && (MaxTime(p) < 0 || (Checked(p) && !CheckFits(p)))
    ensures Sum(RunJob(p, START, _ => NEVER).waits) > MaxTime(p)
  {
    RunsEndWithOneResult(p, _ => NEVER);
    if MaxTime(p) < 0 {
      Rounds(0, RunJob(p, START, _ => NEVER).retryCount / 2, p.timeToRetry);
    } else if p.retryWhenFail {
      HopelessRun(p, START);
      var n := 2 * p.tryLimit - 1;
      assert n / 2 == p.tryLimit - 1 && n % 2 == 1;
      assert (p.tryLimit - 1) * p.timeToRetry == MaxTime(p) - p.timeToRetry;
    } else {
      HopelessCheck(p);
    }
  }

  /** The bound is exact, for every policy: the announced time is kept in every run if and only if it is not negative
      and, where a check can follow, the wait for it fits. */
  lemma {:induction false} TimeBoundIsExact(p: Policy)
    requires 0 <= p.timeToCheck && 0 <= p.timeToRetry
    ensures (forall answers: nat -> Answers :: Sum(RunJob(p, START, answers).waits) <= MaxTime(p))
       <==> MaxTime(p) >= 0 && (Checked(p) ==> CheckFits(p))
  {
    if MaxTime(p) >= 0 && (Checked(p) ==> CheckFits(p)) {
      forall answers: nat -> Answers ensures Sum(RunJob(p, START, answers).waits) <= MaxTime(p) {
        CheckThatFits(p, answers);
      }
    } else {
      CheckThatDoesNotFit(p);
      assert Sum(RunJob(p, START, _ => NEVER).waits) > MaxTime(p);
    }
  }
}
