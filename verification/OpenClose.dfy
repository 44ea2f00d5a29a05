/** Opening and closing gates, garage doors and valves with the set-and-check machine. */
module OpenClose {
  import opened Retry

  datatype Function = Gate | GarageDoor | Valve | GatewayLock | DoorLock | OtherFunction

  const RESULT_NO_SENSOR := 3
  const RESULT_VALVE_CLOSED_MANUALLY_OR_FLOODING := 10

  /** The open or the close action on a channel. */
  datatype Action = Action(doOpen: bool, func: Function, channelGroup: bool, workerRetries: bool) {
    predicate Garage() {
      func == Gate || func == GarageDoor
    }

    predicate Allowed() {
      || (!channelGroup && (Garage() || func == Valve))
      || (doOpen && (func == GatewayLock || func == DoorLock))
    }

    function Policy(): Policy {
      var supervised := Garage() || func == Valve;
      Retry.Policy(if supervised then 4 else 1, if supervised then 60 else 30, if supervised then 55 else 2,
                   if supervised then true else workerRetries, Garage(), channelGroup, Allowed())
    }
  }

  /** What a valve reports; none if it cannot be read. */
  datatype ValveReading = NoValve | ValveState(closed: int, flooding: bool, manuallyClosed: bool)

  /** What is read when the state is looked at: the opening sensor (-1 without one), and the valve. */
  datatype Reading = Reading(sensor: int, valve: ValveReading)

  /** The readings of one execution: before the start, before acting, and at the check; then whether a command sent
      reaches the device, and how the device can be reached. Each may differ from all others. */
  datatype World = World(start: Reading, acting: Reading, check: Reading, sendOk: bool, connection: Connection)

  /** The reading shows the requested position; for other functions than supervised ones, it always does. */
  predicate ShowsRequested(a: Action, r: Reading) {
    if a.func == Valve then r.valve.ValveState? && (r.valve.closed == 0) == a.doOpen
    else if a.Garage() then r.sensor != -1 && a.doOpen == (r.sensor != 1)
    else true
  }

  predicate Blocked(v: ValveReading) {
    v == NoValve || v.flooding || v.manuallyClosed
  }

  function FailCode(a: Action, r: Reading): int {
    if ShowsRequested(a, r) then 0
    else if a.func == Valve then
      if a.doOpen && r.valve.ValveState? && Blocked(r.valve) then RESULT_VALVE_CLOSED_MANUALLY_OR_FLOODING else 0
    else if a.Garage() && r.sensor == -1 then RESULT_NO_SENSOR
    else 0
  }

  /** Whether acting sends a command, after what it reads. */
  predicate Sends(a: Action, r: Reading) {
    if a.func == Valve then !a.doOpen || !Blocked(r.valve)
    else !a.Garage() || r.sensor != -1
  }

  /** The command: a valve is told what to do, everything else gets a pulse. */
  function Command(a: Action): int {
    if a.func == Valve && !a.doOpen then 0 else 1
  }

  function AnswersOf(a: Action, w: World): Answers {
    Answers(ShowsRequested(a, w.start), Sends(a, w.acting) && w.sendOk, ShowsRequested(a, w.check),
            FailCode(a, w.check), w.connection)
  }

  // ----- what a run does, step by step -----

  /** Looked: the position was judged. Read: the device was read before acting. Sent: a command went out. */
  datatype Event = Looked(reading: Reading) | Read(reading: Reading) | Sent(command: int)

  /** What acting does. */
  function Acting(a: Action, w: World): seq<Event> {
    (if a.Garage() || (a.func == Valve && a.doOpen) then [Read(w.acting)] else [])
    + (if Sends(a, w.acting) then [Sent(Command(a))] else [])
  }

  /** What execution k does. */
  function EventsOf(a: Action, k: nat, w: World): seq<Event> {
    if !a.Allowed() then []
    else if !a.channelGroup && a.Garage() && k == 0 then
      [Looked(w.start)] + if ShowsRequested(a, w.start) then [] else Acting(a, w)
    else if k % 2 == 0 then Acting(a, w)
    else [Looked(w.check)]
  }

  function AnswersIn(a: Action, world: nat -> World): nat -> Answers {
    (k: nat) => AnswersOf(a, world(k))
  }

  /** The executions of a run. */
  function RunOf(a: Action, world: nat -> World): Record {
    RunJob(a.Policy(), START, AnswersIn(a, world))
  }

  /** The events of the first n executions. */
  function Trace(a: Action, world: nat -> World, n: nat): seq<Event> {
    if n == 0 then [] else Trace(a, world, n - 1) + EventsOf(a, n - 1, world(n - 1))
  }

  /** Everything that happens in a whole run. */
  function WholeTrace(a: Action, world: nat -> World): seq<Event> {
    Trace(a, world, RunOf(a, world).retryCount + 1)
  }

  function Pulses(t: seq<Event>): nat {
    if t == [] then 0 else Pulses(t[..|t| - 1]) + if t[|t| - 1].Sent? then 1 else 0
  }

  /** At j the sensor was looked at and read closed or did not answer, if the action opens, or did not read closed,
      if it closes; and no command has gone out from there to i. */
  predicate ClearedAt(a: Action, t: seq<Event>, j: nat, i: nat)
    requires j < i <= |t|
  {
    && t[j].Looked?
    && (if a.doOpen then t[j].reading.sensor in {1, -1} else t[j].reading.sensor != 1)
    && forall k :: j < k < i ==> !t[k].Sent?
  }

  /** What a reading shows of a gate or garage door: 1 is closed, -1 no answer, anything else open. */
  lemma {:induction false} SensorShows(a: Action, r: Reading)
    requires a.Garage()
    ensures a.doOpen ==> (ShowsRequested(a, r) <==> r.sensor !in {1, -1})
    ensures !a.doOpen ==> (ShowsRequested(a, r) <==> r.sensor == 1)
  {
  }

  /** No reading satisfies both an action and its opposite, and one that answers satisfies one of them. */
  lemma {:induction false} OppositesDisagree(a: Action, r: Reading)
    requires a.Garage() || a.func == Valve
    ensures var opposite := a.(doOpen := !a.doOpen);
            var answers := if a.func == Valve then r.valve.ValveState? else r.sensor != -1;
            && !(ShowsRequested(a, r) && ShowsRequested(opposite, r))
            && (answers <==> ShowsRequested(a, r) || ShowsRequested(opposite, r))
  {
  }

  /** A command is due at i: since the last command, or the start, the position was not the one requested. */
  predicate Due(a: Action, t: seq<Event>, i: nat)
    requires i <= |t|
  {
    exists j :: 0 <= j < i && ClearedAt(a, t, j, i)
  }

  /** Every command was due. */
  predicate OnlyWhenDue(a: Action, t: seq<Event>) {
    forall i :: 0 <= i < |t| && t[i].Sent? ==> Due(a, t, i)
  }

  // ----- the program's methods -----

  /** Judges the position; failCode is what is reported if the action is given up here, 0 for nothing special. */
  method ResultSuccess(a: Action, r: Reading) returns (ok: bool, failCode: int)
    ensures ok == ShowsRequested(a, r) && failCode == FailCode(a, r)
    ensures a.func == Valve ==>
              && (ok <==> r.valve.ValveState? && (if a.doOpen then r.valve.closed == 0 else r.valve.closed != 0))
              && failCode == if a.doOpen && r.valve.ValveState? && r.valve.closed != 0
                                && (r.valve.flooding || r.valve.manuallyClosed) then 10 else 0
    ensures a.func == Gate || a.func == GarageDoor ==>
              && (ok <==> if a.doOpen then r.sensor !in {1, -1} else r.sensor == 1)
              && failCode == if r.sensor == -1 then 3 else 0
    ensures a.func !in {Valve, Gate, GarageDoor} ==> ok && failCode == 0
  {
    failCode := 0;
    if a.func == Valve {
      if r.valve.NoValve? {
        return false, failCode;
      }
      if (r.valve.closed == 0) == a.doOpen {
        return true, failCode;
      }
      if a.doOpen && (r.valve.flooding || r.valve.manuallyClosed) {
        failCode := RESULT_VALVE_CLOSED_MANUALLY_OR_FLOODING;
      }
      return false, failCode;
    } else if a.Garage() {
      if r.sensor == -1 {
        failCode := RESULT_NO_SENSOR;
      } else {
        return a.doOpen == (if r.sensor == 1 then false else true), failCode;
      }
      return false, failCode;
    }
    return true, failCode;
  }

  /** Acts: the result, and the commands sent. */
  method DoAction(a: Action, w: World) returns (ok: bool, events: seq<Event>)
    ensures ok == AnswersOf(a, w).action && events == Acting(a, w)
    ensures a.func == Valve && a.doOpen ==>
              var clear := w.acting.valve.ValveState? && !w.acting.valve.flooding && !w.acting.valve.manuallyClosed;
              events == [Read(w.acting)] + (if clear then [Sent(1)] else []) && ok == (clear && w.sendOk)
    ensures a.func == Valve && !a.doOpen ==> events == [Sent(0)] && ok == w.sendOk
    ensures a.func == Gate || a.func == GarageDoor ==>
              && events == [Read(w.acting)] + (if w.acting.sensor != -1 then [Sent(1)] else [])
              && ok == (w.acting.sensor != -1 && w.sendOk)
    ensures a.func !in {Valve, Gate, GarageDoor} ==> events == [Sent(1)] && ok == w.sendOk
  {
    events := [];
    if a.func == Valve {
      if a.doOpen {
        events := [Read(w.acting)];
        if w.acting.valve.NoValve? || (w.acting.valve.flooding || w.acting.valve.manuallyClosed) {
          return false, events;
        }
      }
      return w.sendOk, events + [Sent(if a.doOpen then 1 else 0)];
    }
    if a.Garage() {
      events := [Read(w.acting)];
    }
    if !a.Garage() || w.acting.sensor != -1 {
      return w.sendOk, events + [Sent(1)];
    }
    return false, events;
  }

  // ----- safety over whole runs -----

  /** An execution of a run that is not its last one asked for a retry. */
  lemma {:induction false} EarlierExecutionsRetry(p: Retry.Policy, r: Record, answers: nat -> Answers, k: nat)
    requires OnCourse(p, r) && r.retryCount <= k < RunJob(p, r, answers).retryCount
    ensures Executed(p, Record(k, [], [], 0), answers(k)).results == []
    decreases k - r.retryCount
  {
    var a := answers(r.retryCount);
    if Executed(p, r, a).results == [] {
      if k > r.retryCount {
        ExecutionStaysOnCourse(p, r, a);
        EarlierExecutionsRetry(p, Executed(p, r, a), answers, k);
      }
    }
  }

  lemma {:induction false} DueStays(a: Action, t: seq<Event>, u: seq<Event>, i: nat)
    requires i <= |t| && Due(a, t, i)
    ensures Due(a, t + u, i)
  {
    var j :| 0 <= j < i && ClearedAt(a, t, j, i);
    assert ClearedAt(a, t + u, j, i);
  }

  /** Reading changes nothing about a command being due; acting when it is due is safe. */
  lemma {:induction false} ActingWhenDue(a: Action, t: seq<Event>, w: World)
    requires OnlyWhenDue(a, t) && Due(a, t, |t|) && a.Garage()
    ensures OnlyWhenDue(a, t + Acting(a, w))
  {
    var u := t + Acting(a, w);
    var j :| 0 <= j < |t| && ClearedAt(a, t, j, |t|);
    assert u[|t|] == Read(w.acting);
    if Sends(a, w.acting) {
      assert ClearedAt(a, u, j, |t| + 1);
    }
    forall i | 0 <= i < |u| && u[i].Sent? ensures Due(a, u, i) {
      if i < |t| {
        DueStays(a, t, Acting(a, w), i);
      }
    }
  }

  lemma {:induction false} LookingIsSafe(a: Action, t: seq<Event>, r: Reading)
    requires OnlyWhenDue(a, t) && a.Garage()
    ensures OnlyWhenDue(a, t + [Looked(r)])
    ensures !ShowsRequested(a, r) ==> Due(a, t + [Looked(r)], |t| + 1)
  {
    var u := t + [Looked(r)];
    forall i | 0 <= i < |u| && u[i].Sent? ensures Due(a, u, i) {
      DueStays(a, t, [Looked(r)], i);
    }
    SensorShows(a, r);
    if !ShowsRequested(a, r) {
      assert ClearedAt(a, u, |t|, |t| + 1);
    }
  }

  lemma {:induction false} TraceIsSafe(a: Action, world: nat -> World, n: nat)
    requires a.Garage() && a.Allowed() && n <= RunOf(a, world).retryCount + 1
    ensures OnlyWhenDue(a, Trace(a, world, n))
    ensures n % 2 == 0 && 0 < n <= RunOf(a, world).retryCount ==> Due(a, Trace(a, world, n), |Trace(a, world, n)|)
  {
    if n > 0 {
      var k, t, w := n - 1, Trace(a, world, n - 1), world(n - 1);
      TraceIsSafe(a, world, k);
      if k == 0 {
        assert t == [];
        LookingIsSafe(a, [], w.start);
        assert [] + [Looked(w.start)] == [Looked(w.start)];
        assert Trace(a, world, n) == EventsOf(a, 0, w);
        if !ShowsRequested(a, w.start) {
          ActingWhenDue(a, [Looked(w.start)], w);
        }
      } else if k % 2 == 0 {
        ActingWhenDue(a, t, w);
      } else {
        LookingIsSafe(a, t, w.check);
        if k < RunOf(a, world).retryCount {
          EarlierExecutionsRetry(a.Policy(), START, AnswersIn(a, world), k);
        }
      }
    }
  }

  lemma {:induction false} PulsesAppend(t: seq<Event>, u: seq<Event>)
    ensures Pulses(t + u) == Pulses(t) + Pulses(u)
  {
    if u == [] {
      assert t + u == t;
    } else {
      PulsesAppend(t, u[..|u| - 1]);
      assert (t + u)[..|t + u| - 1] == t + u[..|u| - 1];
    }
  }

  lemma {:induction false} OnePulse(e: Event)
    ensures Pulses([e]) == if e.Sent? then 1 else 0
  {
    assert [e][..0] == [];
  }

  lemma {:induction false} AtMostOnePulse(a: Action, k: nat, w: World)
    ensures Pulses(EventsOf(a, k, w)) <= if k % 2 == 0 then 1 else 0
  {
    var acting := Acting(a, w);
    PulsesAppend(if a.Garage() || (a.func == Valve && a.doOpen) then [Read(w.acting)] else [],
                 if Sends(a, w.acting) then [Sent(Command(a))] else []);
    assert Pulses([Read(w.acting)]) == 0 && Pulses([Sent(Command(a))]) == 1 && Pulses([Looked(w.start)]) == 0;
    PulsesAppend([Looked(w.start)], acting);
    PulsesAppend([Looked(w.start)], []);
    assert Pulses([Looked(w.check)]) == 0;
  }

  lemma {:induction false} OneExecutionMore(all: seq<Event>, t: seq<Event>, u: seq<Event>, k: nat)
    requires all == t + u && Pulses(t) <= (k + 1) / 2 && Pulses(u) <= if k % 2 == 0 then 1 else 0
    ensures Pulses(all) <= (k + 2) / 2
  {
    PulsesAppend(t, u);
  }

  lemma {:induction false} NextPulses(a: Action, world: nat -> World, k: nat) returns (u: seq<Event>)
    ensures Trace(a, world, k + 1) == Trace(a, world, k) + u && Pulses(u) <= if k % 2 == 0 then 1 else 0
  {
    u := EventsOf(a, k, world(k));
    AtMostOnePulse(a, k, world(k));
  }

  lemma {:induction false} PulsesAreFew(a: Action, world: nat -> World, n: nat)
    ensures Pulses(Trace(a, world, n)) <= (n + 1) / 2
  {
    if n > 0 {
      var k := n - 1;
      PulsesAreFew(a, world, k);
      var u := NextPulses(a, world, k);
      OneExecutionMore(Trace(a, world, n), Trace(a, world, k), u, k);
    }
  }

  /** Gate safety: over a whole run, with the sensor changing arbitrarily, at most four pulses are sent, and before
      each of them, since the previous one or the start, the position was found not to be the requested one. */
  lemma GateSafety(a: Action, world: nat -> World)
    requires a.Garage()
    ensures Pulses(WholeTrace(a, world)) <= 4
    ensures OnlyWhenDue(a, WholeTrace(a, world))
  {
    var n := RunOf(a, world).retryCount + 1;
    RunsEndWithOneResult(a.Policy(), AnswersIn(a, world));
    PulsesAreFew(a, world, n);
    if a.Allowed() {
      TraceIsSafe(a, world, n);
    } else {
      NothingHappens(a, world, n);
    }
  }

  lemma {:induction false} NothingHappens(a: Action, world: nat -> World, n: nat)
    requires !a.Allowed()
    ensures Trace(a, world, n) == []
  {
    if n > 0 {
      NothingHappens(a, world, n - 1);
    }
  }

  /** Valve safety: an open command is only ever sent right after the valve was read and reported neither flooding nor
      that it was closed by hand. */
  lemma {:induction false} ValveSafety(a: Action, world: nat -> World, n: nat, i: nat)
    requires a.func == Valve && i < |Trace(a, world, n)| && Trace(a, world, n)[i] == Sent(1)
    ensures i > 0 && Trace(a, world, n)[i - 1].Read? && !Blocked(Trace(a, world, n)[i - 1].reading.valve)
  {
    var t := Trace(a, world, n - 1);
    if i < |t| {
      ValveSafety(a, world, n - 1, i);
    }
  }

  /** A pulse to a gate or garage door is only ever sent right after its sensor was read and answered. */
  lemma {:induction false} PulsesNeedASensor(a: Action, world: nat -> World, n: nat, i: nat)
    requires a.Garage() && i < |Trace(a, world, n)| && Trace(a, world, n)[i].Sent?
    ensures i > 0 && Trace(a, world, n)[i - 1].Read? && Trace(a, world, n)[i - 1].reading.sensor != -1
  {
    var t := Trace(a, world, n - 1);
    if i < |t| {
      PulsesNeedASensor(a, world, n - 1, i);
    }
  }

  /** A supervised action takes at most the announced four minutes. */
  lemma SupervisedRunsAreShort(a: Action, world: nat -> World)
    requires a.Garage() || a.func == Valve
    ensures Sum(RunOf(a, world).waits) <= 240 && RunOf(a, world).actions <= 4 && |RunOf(a, world).results| == 1
  {
    RunsKeepTheirTime(a.Policy(), AnswersIn(a, world));
    RunsEndWithOneResult(a.Policy(), AnswersIn(a, world));
  }

  /** A gate, garage door or valve reports success exactly if the last look saw what was asked for: for opening, a
      sensor that answers and is not 1, or a valve whose `closed` is 0; for closing, a sensor of 1, or a valve whose
      `closed` is not 0. If it reports anything else, it has been acted on four times and waited for 235 seconds. */
  lemma {:induction false} SuccessMeansSeen(a: Action, world: nat -> World)
    requires a.func in {Gate, GarageDoor, Valve} && a.Allowed()
    ensures var end := RunOf(a, world);
            var last := if end.retryCount == 0 then world(0).start else world(end.retryCount).check;
            && |end.results| == 1
            && (end.results[0] == 1 <==>
                if a.func == Valve then last.valve.ValveState? && (last.valve.closed == 0 <==> a.doOpen)
                else if a.doOpen then last.sensor !in {1, -1} else last.sensor == 1)
            && (end.results[0] != 1 ==> end.actions == 4 && Sum(end.waits) == 235)
  {
    ResultsAreTrue(a.Policy(), AnswersIn(a, world));
    RunStaysOnCourse(a.Policy(), START, AnswersIn(a, world));
    RunsEndWithOneResult(a.Policy(), AnswersIn(a, world));
  }

  /** The time a supervised job has waited: a minute for each full round, and 55 seconds for a check. */
  lemma {:induction false} SupervisedWaits(a: Action, world: nat -> World)
    requires a.func in {Gate, GarageDoor, Valve}
    ensures var end := RunOf(a, world);
            Sum(end.waits) == end.retryCount / 2 * 60 + if end.retryCount % 2 == 0 then 0 else 55
    ensures MaxTime(a.Policy()) == 240
  {
    RunsEndWithOneResult(a.Policy(), AnswersIn(a, world));
  }

  /** What a gate does not refuse is done: if the sensor answers whenever the job acts, it sends a pulse for every
      action, and it acts at least once unless the gate already was as requested. */
  lemma {:induction false} GatePulses(a: Action, world: nat -> World)
    requires a.func in {Gate, GarageDoor} && a.Allowed()
    requires SensorAnswers(world)
    ensures var end := RunOf(a, world);
            && Pulses(WholeTrace(a, world)) == (end.retryCount + 1) / 2
            && (end.retryCount == 0 <==>
                if a.doOpen then world(0).start.sensor !in {1, -1} else world(0).start.sensor == 1)
            && (end.results != [1] ==> Pulses(WholeTrace(a, world)) == 4)
  {
    SensorShows(a, world(0).start);
    FirstLook(a, world);
    PulsesOfRun(a, world, RunOf(a, world).retryCount + 1, ShowsRequested(a, world(0).start));
    GivenUpAtTheEnd(a, world);
  }

  lemma {:induction false} PulsesOfRun(a: Action, world: nat -> World, n: nat, asRequested: bool)
    requires a.Garage() && a.Allowed() && SensorAnswers(world) && asRequested == ShowsRequested(a, world(0).start)
    requires n > 0 && (asRequested <==> n == 1) && (n == 1 || n % 2 == 0)
    ensures Pulses(Trace(a, world, n)) == n / 2
  {
    HalfOfThem(n, asRequested);
    EveryActionPulses(a, world, n, asRequested);
  }

  lemma {:induction false} HalfOfThem(n: nat, asRequested: bool)
    requires n > 0 && (asRequested <==> n == 1) && (n == 1 || n % 2 == 0)
    ensures ActionsBefore(n, asRequested) == n / 2
  {
    ActionsBeforeIsHalf(n, asRequested);
  }

  lemma {:induction false} GivenUpAtTheEnd(a: Action, world: nat -> World)
    requires a.Garage() && a.Allowed()
    ensures RunOf(a, world).results != [1] ==> RunOf(a, world).retryCount == 7
  {
    var end := RunOf(a, world);
    ResultsAreTrue(a.Policy(), AnswersIn(a, world));
    assert end.results == [end.results[0]];
    var last := AnswersIn(a, world)(end.retryCount);
    assert last == AnswersOf(a, world(end.retryCount));
  }

  /** The sensor answers whenever the job acts. */
  ghost predicate SensorAnswers(world: nat -> World) {
    forall k :: world(k).acting.sensor != -1
  }

  lemma {:induction false} FirstLook(a: Action, world: nat -> World)
    requires a.Garage() && a.Allowed()
    ensures RunOf(a, world).retryCount == 0 <==> ShowsRequested(a, world(0).start)
    ensures RunOf(a, world).retryCount == 0 || RunOf(a, world).retryCount % 2 == 1
  {
    ResultsAreTrue(a.Policy(), AnswersIn(a, world));
    OneExecution(a.Policy(), START, AnswersIn(a, world));
    assert AnswersIn(a, world)(0) == AnswersOf(a, world(0));
    RunStaysOnCourse(a.Policy(), START, AnswersIn(a, world));
    if Executed(a.Policy(), START, AnswersOf(a, world(0))).results == [] {
      RunGoesOn(a.Policy(), Executed(a.Policy(), START, AnswersOf(a, world(0))), AnswersIn(a, world));
    }
  }

  lemma {:induction false} RunGoesOn(p: Retry.Policy, r: Record, answers: nat -> Answers)
    requires OnCourse(p, r)
    ensures RunJob(p, r, answers).retryCount >= r.retryCount
    decreases 2 * (if p.tryLimit < 1 then 1 else p.tryLimit) - r.retryCount
  {
    OneExecution(p, r, answers);
    if Executed(p, r, answers(r.retryCount)).results == [] {
      RunGoesOn(p, Executed(p, r, answers(r.retryCount)), answers);
    }
  }

  lemma {:induction false} EveryActionPulses(a: Action, world: nat -> World, n: nat, asRequested: bool)
    requires a.Garage() && a.Allowed() && SensorAnswers(world)
    requires asRequested == ShowsRequested(a, world(0).start)
    ensures Pulses(Trace(a, world, n)) == ActionsBefore(n, asRequested)
  {
    if n > 0 {
      var k := n - 1;
      EveryActionPulses(a, world, k, asRequested);
      var u := NextPulse(a, world, k, asRequested);
      OneActionMore(Trace(a, world, n), Trace(a, world, k), u, n, asRequested);
    }
  }

  lemma {:induction false} OneActionMore(all: seq<Event>, t: seq<Event>, u: seq<Event>, n: nat, asRequested: bool)
    requires n > 0 && all == t + u
    requires Pulses(u) == Acts(n, asRequested) && Pulses(t) == ActionsBefore(n - 1, asRequested)
    ensures Pulses(all) == ActionsBefore(n, asRequested)
  {
    PulsesAppend(t, u);
  }

  /** Whether execution n - 1 acts: every other one does, the first only if the gate was not as requested. */
  function Acts(n: nat, asRequested: bool): nat {
    if n % 2 == 0 || (n == 1 && asRequested) then 0 else 1
  }

  /** How many of the first n executions act. */
  function ActionsBefore(n: nat, asRequested: bool): int {
    if n == 0 then 0 else ActionsBefore(n - 1, asRequested) + Acts(n, asRequested)
  }

  lemma {:induction false} ActionsBeforeIsHalf(n: nat, asRequested: bool)
    ensures ActionsBefore(n, asRequested) == (n + 1) / 2 - if n > 0 && asRequested then 1 else 0
  {
    if n > 0 {
      ActionsBeforeIsHalf(n - 1, asRequested);
    }
  }

  lemma {:induction false} NextPulse(a: Action, world: nat -> World, k: nat, asRequested: bool) returns (u: seq<Event>)
    requires a.Garage() && a.Allowed() && SensorAnswers(world)
    requires asRequested == ShowsRequested(a, world(0).start)
    ensures Trace(a, world, k + 1) == Trace(a, world, k) + u && Pulses(u) == Acts(k + 1, asRequested)
  {
    u := EventsOf(a, k, world(k));
    var pulses := PulsesOfExecution(a, k, world(k));
  }

  lemma {:induction false} PulsesOfExecution(a: Action, k: nat, w: World) returns (pulses: nat)
    requires a.Garage() && a.Allowed() && w.acting.sensor != -1
    ensures pulses == Pulses(EventsOf(a, k, w))
    ensures pulses == if k % 2 == 1 || (k == 0 && ShowsRequested(a, w.start)) then 0 else 1
  {
    pulses := Pulses(EventsOf(a, k, w));
    ReadThenSend(w.acting, Command(a), w.start);
    assert Acting(a, w) == [Read(w.acting)] + [Sent(Command(a))];
    OnePulse(Looked(w.check));
    OnePulse(Looked(w.start));
    assert [Looked(w.start)] + [] == [Looked(w.start)];
  }

  lemma {:induction false} ReadThenSend(r: Reading, command: int, start: Reading)
    ensures Pulses([Read(r)] + [Sent(command)]) == 1
    ensures Pulses([Looked(start)] + ([Read(r)] + [Sent(command)])) == 1
  {
    OnePulse(Read(r));
    OnePulse(Sent(command));
    OnePulse(Looked(start));
    PulsesAppend([Read(r)], [Sent(command)]);
    PulsesAppend([Looked(start)], [Read(r)] + [Sent(command)]);
  }

  /** What the executions of a valve job do: every other one acts, the others look; closing always sends its
      command, and opening does if the valve reads neither flooding nor closed by hand. */
  lemma {:induction false} ValveExecutions(a: Action, k: nat, w: World)
    requires a.func == Valve && !a.channelGroup
    ensures EventsOf(a, k, w) ==
            if k % 2 == 1 then [Looked(w.check)]
            else if !a.doOpen then [Sent(0)]
            else
              match w.acting.valve
              case NoValve => [Read(w.acting)]
              case ValveState(_, flooding, manually) =>
                if flooding || manually then [Read(w.acting)] else [Read(w.acting), Sent(1)]
  {
  }

  /** Which actions are carried out: opening and closing of single gates, garage doors and valves, and opening of
      locks; all others are cancelled. */
  lemma {:induction false} CancelledExactly(a: Action, world: nat -> World)
    ensures RunOf(a, world).results == [8] <==>
            !(|| (!a.channelGroup && a.func in {Gate, GarageDoor, Valve})
              || (a.doOpen && a.func in {GatewayLock, DoorLock}))
  {
    ResultsAreTrue(a.Policy(), AnswersIn(a, world));
    var end := RunOf(a, world);
    assert end.results == [end.results[0]];
    assert AnswersIn(a, world)(end.retryCount) == AnswersOf(a, world(end.retryCount));
    assert FailCode(a, world(end.retryCount).check) in {0, 3, 10};
  }

  /** A lock is opened with one command that nothing checks: no waits, and the result tells whether it was sent. */
  lemma {:induction false} LocksAreNotChecked(a: Action, world: nat -> World)
    requires a.doOpen && a.func in {GatewayLock, DoorLock}
    ensures var end, w := RunOf(a, world), world(0);
            && end.actions == 1 && end.waits == [] && WholeTrace(a, world) == [Sent(1)]
            && end.results == [if w.sendOk then 9
                               else if a.channelGroup && w.connection.ServerUnreachable? then 6
                               else 7]
  {
    OneExecution(a.Policy(), START, AnswersIn(a, world));
    assert AnswersIn(a, world)(0) == AnswersOf(a, world(0));
    assert Trace(a, world, 1) == Trace(a, world, 0) + EventsOf(a, 0, world(0));
  }
}
