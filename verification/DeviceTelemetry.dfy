/**
  What a running device with empty queues is asked: its health once a second, and its telemetry as scheduled.
*/
module DeviceTelemetry {
  import opened Bytes
  import opened Messages
  import opened DeviceSpec
  import opened DeviceRuns
  import opened DeviceTurns
  import DeviceAccounts

  // A turn with nothing of the user's to send.
  ghost predicate IsIdle(dev: Device, e: Event) {
    IsDue(dev, e) && dev.state == Running && dev.commandQueue == [] && dev.requestQueue == []
  }

  ghost predicate HealthIsDue(dev: Device, e: Event)
    requires e.TickAt?
  {
    e.time - dev.lastHealthReq >= 1000
  }

  ghost predicate UnitIsDue(sched: seq<Telemetry>, i: int, time: int) {
    0 <= i < |sched| && time - sched[i].lastUpdateTime >= sched[i].updateTime
  }

  // A due unit after which none is due.
  ghost predicate IsLastDue(sched: seq<Telemetry>, i: int, time: int) {
    UnitIsDue(sched, i, time) && forall j :: i < j < |sched| ==> !UnitIsDue(sched, j, time)
  }

  lemma {:induction false} LastDueIs(sched: seq<Telemetry>, time: int) returns (i: nat)
    ensures match LastDue(sched, time)
            case None => forall j :: !UnitIsDue(sched, j, time)
            case Some(unit) => IsLastDue(sched, i, time) && unit == sched[i]
  {
    i := 0;
    if sched != [] {
      var k := |sched| - 1;
      if UnitIsDue(sched, k, time) {
        i := k;
      } else {
        i := LastDueIs(sched[..k], time);
        assert forall j :: 0 <= j < k ==> sched[..k][j] == sched[j];
        assert forall j :: j < k ==> (UnitIsDue(sched[..k], j, time) <==> UnitIsDue(sched, j, time));
      }
    }
  }

  // ----- one turn -----

  lemma IdleAct(dev: Device, addr: byte, time: int)
    requires dev.commandQueue == [] && dev.requestQueue == []
    ensures var act, healthDue := ActRunning(dev, addr, time), time - dev.lastHealthReq >= 1000;
            && act.dev.lastHealthReq == (if healthDue then time else dev.lastHealthReq)
            && (healthDue ==> act.body == (if addr == 0xFF then None else Some(HealthReq)))
            && (!healthDue ==>
                  match LastDue(dev.telemSched, time)
                  case None => act.body == None
                  case Some(unit) =>
                    act.body == if addr == 0xFF then None else Some(BlobRequest(unit.req, unit.reqSize)))
            && act.dev.telemSched
               == if healthDue || LastDue(dev.telemSched, time) == None then dev.telemSched
                  else MarkDue(dev.telemSched, time)
  {
    hide LastDue, MarkDue;
  }

  // The schedule after a turn at which these units were due.
  ghost predicate Marked(sched: seq<Telemetry>, after: seq<Telemetry>, time: int) {
    && |after| == |sched|
    && forall i :: 0 <= i < |sched| ==>
         after[i] == if UnitIsDue(sched, i, time) then sched[i].(lastUpdateTime := time) else sched[i]
  }

  // Scheduling and timeouts leave what is asked to the act itself.
  lemma TickKeepsSchedule(crcFile: CrcFile, dev: Device, e: Event)
    requires IsDue(dev, e) && dev.state == Running
    ensures var o, act := Apply(crcFile, dev, e), ActRunning(dev, e.addr, e.time);
            o.sent == act.body && o.dev.telemSched == act.dev.telemSched && o.dev.lastHealthReq == act.dev.lastHealthReq
  {
    hide ActRunning;
  }

  /**
    The health of an idle device is asked for when it has not been for a second. Otherwise the due telemetry unit
    after which none is due goes out, request and size as scheduled; and exactly the due units take the time.
  */
  lemma IdleTurn(crcFile: CrcFile, dev: Device, e: Event)
    requires IsIdle(dev, e)
    ensures var o, sched := Apply(crcFile, dev, e), dev.telemSched;
            if HealthIsDue(dev, e) then
              && o.sent == (if e.addr == 0xFF then None else Some(HealthReq))
              && o.dev.lastHealthReq == e.time && o.dev.telemSched == sched
            else
              && (forall i :: IsLastDue(sched, i, e.time) ==>
                    o.sent == if e.addr == 0xFF then None else Some(BlobRequest(sched[i].req, sched[i].reqSize)))
              && ((forall i :: !UnitIsDue(sched, i, e.time)) ==> o.sent == None)
              && Marked(sched, o.dev.telemSched, e.time) && o.dev.lastHealthReq == dev.lastHealthReq
  {
    IdleAct(dev, e.addr, e.time);
    var k := LastDueIs(dev.telemSched, e.time);
    TickKeepsSchedule(crcFile, dev, e);
    hide ActRunning, LastDue, Apply;
  }

  ghost function Scheduling(e: Event): seq<Telemetry> {
    if e.UserSchedule? then [Telemetry(e.req, e.reqSize, e.period, 0)] else []
  }

  // Not a health request; and if it is a blob request, the first one queued.
  ghost predicate IsOfUser(dev: Device, body: Body) {
    match body
    case HealthReq => false
    case BlobRequest(request, size) => dev.requestQueue != [] && dev.requestQueue[0] == (request, size)
    case _ => true
  }

  lemma BusyAct(crcFile: CrcFile, dev: Device, e: Event)
    requires e.TickAt? && !(dev.state == Running && dev.commandQueue == [] && dev.requestQueue == [])
    ensures var act := ActOn(crcFile, dev, e.addr, e.temporaryUid, e.time);
            && act.dev.telemSched == dev.telemSched && act.dev.lastHealthReq == dev.lastHealthReq
            && (act.body.Some? ==> IsOfUser(dev, act.body.value))
  {
    DeviceAccounts.SendingTouchesOnlyTransfer(dev, e.addr);
    hide ActSending, LastDue, MarkDue;
  }

  /** Nothing but an idle device's turn, and the user, touches the schedule or asks for the health. */
  lemma OtherEvents(crcFile: CrcFile, dev: Device, e: Event)
    requires !IsIdle(dev, e)
    ensures var o := Apply(crcFile, dev, e);
            && o.dev.telemSched == dev.telemSched + Scheduling(e) && o.dev.lastHealthReq == dev.lastHealthReq
            && (o.sent.Some? ==> IsOfUser(dev, o.sent.value))
  {
    if IsDue(dev, e) {
      BusyAct(crcFile, dev, e);
      hide ActOn;
    }
  }

  // ----- whole runs -----

  // What the user has scheduled so far.
  ghost function Schedules(run: seq<Event>): seq<Telemetry> {
    if run == [] then [] else Schedules(run[..|run| - 1]) + Scheduling(run[|run| - 1])
  }

  // The same units, but for when they were last asked for.
  ghost predicate SameUnits(a: seq<Telemetry>, b: seq<Telemetry>) {
    && |a| == |b|
    && forall i :: 0 <= i < |a| ==>
         a[i].req == b[i].req && a[i].reqSize == b[i].reqSize && a[i].updateTime == b[i].updateTime
  }

  lemma ScheduleStep(crcFile: CrcFile, dev: Device, e: Event)
    ensures SameUnits(Apply(crcFile, dev, e).dev.telemSched, dev.telemSched + Scheduling(e))
  {
    if IsIdle(dev, e) {
      IdleTurn(crcFile, dev, e);
    } else {
      OtherEvents(crcFile, dev, e);
    }
    hide Apply, IsLastDue, IsIdle;
  }

  /** In every run, the schedule is what the user has scheduled, in that order. */
  lemma {:induction false} ScheduleIsAsAsked(crcFile: CrcFile, run: seq<Event>)
    ensures SameUnits(Final(crcFile, NEW_DEVICE, run).telemSched, Schedules(run))
  {
    if run != [] {
      ScheduleIsAsAsked(crcFile, run[..|run| - 1]);
      ScheduleStep(crcFile, Final(crcFile, NEW_DEVICE, run[..|run| - 1]), run[|run| - 1]);
      hide Apply;
    }
  }

  lemma {:induction false} ScheduledByUser(run: seq<Event>, i: nat) returns (k: nat)
    requires i < |Schedules(run)|
    ensures k < |run| && run[k].UserSchedule? && Scheduling(run[k])[0] == Schedules(run)[i]
  {
    var earlier := run[..|run| - 1];
    if i < |Schedules(earlier)| {
      k := ScheduledByUser(earlier, i);
    } else {
      k := |run| - 1;
    }
  }

  // An idle device is asked for a blob only as scheduled.
  lemma IdleRequest(crcFile: CrcFile, dev: Device, e: Event, request: byte, size: byte) returns (i: nat)
    requires IsIdle(dev, e) && Apply(crcFile, dev, e).sent == Some(BlobRequest(request, size))
    ensures IsLastDue(dev.telemSched, i, e.time)
    ensures dev.telemSched[i].req == request && dev.telemSched[i].reqSize == size
  {
    IdleTurn(crcFile, dev, e);
    i := LastDueIs(dev.telemSched, e.time);
    hide Apply, Marked, LastDue;
  }

  lemma IdleIsIdle(dev: Device, e: Event)
    requires IsIdle(dev, e)
    ensures dev.requestQueue == []
  {
  }

  /**
    In every run, a blob request on the wire is the first of the user's queue, or it is for request and size of a
    telemetry unit the user has scheduled.
  */
  lemma RequestsAreAskedFor(crcFile: CrcFile, run: seq<Event>, e: Event, request: byte, size: byte)
    requires Apply(crcFile, Final(crcFile, NEW_DEVICE, run), e).sent == Some(BlobRequest(request, size))
    ensures var dev := Final(crcFile, NEW_DEVICE, run);
            if dev.requestQueue != [] then dev.requestQueue[0] == (request, size)
            else exists k :: 0 <= k < |run| && run[k].UserSchedule? && run[k].req == request && run[k].reqSize == size
  {
    hide Apply, Final, IsIdle;
    var dev := Final(crcFile, NEW_DEVICE, run);
    if IsIdle(dev, e) {
      IdleIsIdle(dev, e);
      ScheduleIsAsAsked(crcFile, run);
      var i := IdleRequest(crcFile, dev, e, request, size);
      var k := ScheduledByUser(run, i);
    } else {
      OtherEvents(crcFile, dev, e);
    }
  }

  // ----- pace -----

  // The times at which the device's health was asked for, or its turn to be asked came without an address.
  ghost function HealthTimes(crcFile: CrcFile, run: seq<Event>): seq<int> {
    if run == [] then []
    else
      var dev, e := Final(crcFile, NEW_DEVICE, run[..|run| - 1]), run[|run| - 1];
      HealthTimes(crcFile, run[..|run| - 1]) + if IsIdle(dev, e) && HealthIsDue(dev, e) then [e.time] else []
  }

  // The times at which the i-th telemetry unit was due on a turn that looked at the schedule.
  ghost function UnitTimes(crcFile: CrcFile, run: seq<Event>, i: nat): seq<int> {
    if run == [] then []
    else
      var dev, e := Final(crcFile, NEW_DEVICE, run[..|run| - 1]), run[|run| - 1];
      var due := IsIdle(dev, e) && !HealthIsDue(dev, e) && UnitIsDue(dev.telemSched, i, e.time);
      UnitTimes(crcFile, run[..|run| - 1], i) + if due then [e.time] else []
  }

  // Each at least `period` after the one before, the first at least so late itself.
  ghost predicate Spaced(times: seq<int>, period: int) {
    && (times != [] ==> times[0] >= period)
    && forall i, j :: 0 <= i < |times| && j == i + 1 < |times| ==> times[j] - times[i] >= period
  }

  ghost function Last(times: seq<int>): int {
    if times == [] then 0 else times[|times| - 1]
  }

  lemma SpacedOn(times: seq<int>, time: int, period: int)
    requires Spaced(times, period) && time - Last(times) >= period
    ensures Spaced(times + [time], period) && Last(times + [time]) == time
  {
  }

  lemma NothingSpaced(period: int)
    ensures Spaced([], period) && Last([]) == 0
  {
  }

  lemma HealthStep(crcFile: CrcFile, dev: Device, e: Event)
    ensures Apply(crcFile, dev, e).dev.lastHealthReq
            == if IsIdle(dev, e) && HealthIsDue(dev, e) then e.time else dev.lastHealthReq
  {
    if IsIdle(dev, e) {
      IdleTurn(crcFile, dev, e);
    } else {
      OtherEvents(crcFile, dev, e);
    }
    hide Apply, IsLastDue, IsIdle, Marked, UnitIsDue;
  }

  /** In every run, the health of a device is asked for at most once a second. */
  lemma {:induction false} HealthIsPaced(crcFile: CrcFile, run: seq<Event>)
    ensures Spaced(HealthTimes(crcFile, run), 1000)
    ensures Final(crcFile, NEW_DEVICE, run).lastHealthReq == Last(HealthTimes(crcFile, run))
  {
    if run != [] {
      hide Apply, IsIdle, Spaced, Last;
      HealthIsPaced(crcFile, run[..|run| - 1]);
      var dev, e := Final(crcFile, NEW_DEVICE, run[..|run| - 1]), run[|run| - 1];
      var times := HealthTimes(crcFile, run[..|run| - 1]);
      HealthStep(crcFile, dev, e);
      if IsIdle(dev, e) && HealthIsDue(dev, e) {
        SpacedOn(times, e.time, 1000);
      } else {
        assert times + [] == times;
      }
    } else {
      NothingSpaced(1000);
    }
  }

  lemma UnitStep(crcFile: CrcFile, dev: Device, e: Event, i: nat)
    requires i < |dev.telemSched|
    ensures var next := Apply(crcFile, dev, e).dev.telemSched;
            var due := IsIdle(dev, e) && !HealthIsDue(dev, e) && UnitIsDue(dev.telemSched, i, e.time);
            && i < |next| && next[i].updateTime == dev.telemSched[i].updateTime
            && next[i].lastUpdateTime == if due then e.time else dev.telemSched[i].lastUpdateTime
  {
    if IsIdle(dev, e) {
      IdleTurn(crcFile, dev, e);
    } else {
      OtherEvents(crcFile, dev, e);
    }
    hide Apply, IsLastDue, IsIdle;
  }

  lemma NewUnit(crcFile: CrcFile, dev: Device, e: Event, i: nat)
    requires |dev.telemSched| <= i < |Apply(crcFile, dev, e).dev.telemSched|
    ensures Apply(crcFile, dev, e).dev.telemSched[i].lastUpdateTime == 0
  {
    if IsIdle(dev, e) {
      IdleTurn(crcFile, dev, e);
    } else {
      OtherEvents(crcFile, dev, e);
    }
    hide Apply, IsLastDue, IsIdle;
  }

  lemma DueSince(sched: seq<Telemetry>, i: nat, time: int)
    requires UnitIsDue(sched, i, time)
    ensures i < |sched| && time - sched[i].lastUpdateTime >= sched[i].updateTime
  {
  }

  lemma NotThere(sched: seq<Telemetry>, i: nat, time: int)
    requires i >= |sched|
    ensures !UnitIsDue(sched, i, time)
  {
  }

  /** In every run, a telemetry unit is asked for at most once in its period. */
  lemma {:induction false} UnitsArePaced(crcFile: CrcFile, run: seq<Event>, i: nat)
    ensures var sched, times := Final(crcFile, NEW_DEVICE, run).telemSched, UnitTimes(crcFile, run, i);
            if i < |sched| then Spaced(times, sched[i].updateTime) && sched[i].lastUpdateTime == Last(times)
            else times == []
  {
    if run != [] {
      hide Apply, IsIdle, Spaced, Last, UnitIsDue;
      UnitsArePaced(crcFile, run[..|run| - 1], i);
      var dev, e := Final(crcFile, NEW_DEVICE, run[..|run| - 1]), run[|run| - 1];
      var times := UnitTimes(crcFile, run[..|run| - 1], i);
      assert times + [] == times;
      if i < |dev.telemSched| {
        UnitStep(crcFile, dev, e, i);
        if IsIdle(dev, e) && !HealthIsDue(dev, e) && UnitIsDue(dev.telemSched, i, e.time) {
          DueSince(dev.telemSched, i, e.time);
          SpacedOn(times, e.time, dev.telemSched[i].updateTime);
        }
      } else {
        if e.TickAt? {
          NotThere(dev.telemSched, i, e.time);
        }
        if i < |Apply(crcFile, dev, e).dev.telemSched| {
          NewUnit(crcFile, dev, e, i);
          NothingSpaced(Apply(crcFile, dev, e).dev.telemSched[i].updateTime);
        }
      }
    }
  }

  // ----- units of equal period -----

  lemma {:induction false} SchedulesConcat(a: seq<Event>, b: seq<Event>)
    ensures Schedules(a + b) == Schedules(a) + Schedules(b)
  {
    if b == [] {
      assert a + b == a;
    } else {
      var earlier := b[..|b| - 1];
      assert (a + b)[..|a + b| - 1] == a + earlier;
      SchedulesConcat(a, earlier);
    }
  }

  // Two units that are due at the same times.
  ghost predicate Twins(sched: seq<Telemetry>, i: nat, j: nat) {
    && i < j < |sched| && sched[i].updateTime == sched[j].updateTime
    && sched[i].lastUpdateTime == sched[j].lastUpdateTime
  }

  lemma TwinsAtFirst(crcFile: CrcFile, dev: Device, first: Event, second: Event)
    requires first.UserSchedule? && second.UserSchedule? && first.period == second.period
    ensures Twins(Apply(crcFile, Apply(crcFile, dev, first).dev, second).dev.telemSched,
                  |dev.telemSched|, |dev.telemSched| + 1)
  {
  }

  lemma TwinStep(crcFile: CrcFile, dev: Device, e: Event, i: nat, j: nat)
    requires Twins(dev.telemSched, i, j)
    ensures Twins(Apply(crcFile, dev, e).dev.telemSched, i, j)
  {
    UnitStep(crcFile, dev, e, i);
    UnitStep(crcFile, dev, e, j);
    hide Apply, IsIdle;
  }

  lemma {:induction false} TwinsStay(crcFile: CrcFile, run: seq<Event>, more: seq<Event>, i: nat, j: nat)
    requires Twins(Final(crcFile, NEW_DEVICE, run).telemSched, i, j)
    ensures Twins(Final(crcFile, NEW_DEVICE, run + more).telemSched, i, j)
  {
    hide Apply, Twins;
    if more == [] {
      assert run + more == run;
    } else {
      var earlier, e := more[..|more| - 1], more[|more| - 1];
      TwinsStay(crcFile, run, earlier, i, j);
      assert (run + more)[..|run + more| - 1] == run + earlier;
      TwinStep(crcFile, Final(crcFile, NEW_DEVICE, run + earlier), e, i, j);
    }
  }

  lemma TwinsInRun(crcFile: CrcFile, run: seq<Event>, first: Event, second: Event, more: seq<Event>)
    requires first.UserSchedule? && second.UserSchedule? && first.period == second.period
    ensures Twins(Final(crcFile, NEW_DEVICE, run + [first, second] + more).telemSched,
                  |Schedules(run)|, |Schedules(run)| + 1)
  {
    hide Apply, Twins, Schedules;
    ScheduleIsAsAsked(crcFile, run);
    TwinsAtFirst(crcFile, Final(crcFile, NEW_DEVICE, run), first, second);
    assert (run + [first])[..|run|] == run;
    assert (run + [first, second])[..|run| + 1] == run + [first];
    TwinsStay(crcFile, run + [first, second], more, |Schedules(run)|, |Schedules(run)| + 1);
  }

  lemma ScheduledTwice(run: seq<Event>, first: Event, second: Event, more: seq<Event>)
    requires first.UserSchedule? && second.UserSchedule?
    ensures Schedules(run + [first, second] + more)
            == Schedules(run) + [Scheduling(first)[0], Scheduling(second)[0]] + Schedules(more)
  {
    SchedulesConcat(run + [first, second], more);
    SchedulesConcat(run, [first, second]);
    assert Schedules([first]) == Schedules([]) + Scheduling(first) by {
      assert [first][..0] == [];
    }
    assert [first, second][..1] == [first];
  }

  // A unit other than the first of the two is for what another call has scheduled.
  lemma OtherUnits(run: seq<Event>, first: Event, second: Event, more: seq<Event>, i: nat) returns (o: Event)
    requires first.UserSchedule? && second.UserSchedule?
    requires i < |Schedules(run + [first, second] + more)| && i != |Schedules(run)|
    ensures o in run + [second] + more && o.UserSchedule?
    ensures Scheduling(o)[0] == Schedules(run + [first, second] + more)[i]
  {
    ScheduledTwice(run, first, second, more);
    hide Schedules, Scheduling;
    var n := |Schedules(run)|;
    if i < n {
      var k := ScheduledByUser(run, i);
      o := run[k];
    } else if i == n + 1 {
      o := second;
    } else {
      var k := ScheduledByUser(more, i - n - 2);
      o := more[k];
    }
  }

  lemma FirstTwinIsNotLast(sched: seq<Telemetry>, i: nat, j: nat, time: int)
    requires Twins(sched, i, j)
    ensures !IsLastDue(sched, i, time)
  {
    assert UnitIsDue(sched, i, time) ==> UnitIsDue(sched, j, time);
  }

  /**
    Two telemetry units scheduled one after the other with the same period: whatever happens, the first is never
    asked for. Its request is on the wire only if another call has scheduled or queued the same.
  */
  lemma EqualPeriodsStarve(
    crcFile: CrcFile, run: seq<Event>, first: Event, second: Event, more: seq<Event>, e: Event)
    requires first.UserSchedule? && second.UserSchedule? && first.period == second.period
    requires forall o :: o in run + [second] + more && o.UserSchedule? ==>
               (o.req, o.reqSize) != (first.req, first.reqSize)
    ensures var dev := Final(crcFile, NEW_DEVICE, run + [first, second] + more);
            Apply(crcFile, dev, e).sent == Some(BlobRequest(first.req, first.reqSize)) ==>
              dev.requestQueue != [] && dev.requestQueue[0] == (first.req, first.reqSize)
  {
    var all := run + [first, second] + more;
    var dev := Final(crcFile, NEW_DEVICE, all);
    if IsIdle(dev, e) && Apply(crcFile, dev, e).sent == Some(BlobRequest(first.req, first.reqSize)) {
      var n := |Schedules(run)|;
      TwinsInRun(crcFile, run, first, second, more);
      FirstTwinIsNotLast(dev.telemSched, n, n + 1, e.time);
      var i := IdleRequest(crcFile, dev, e, first.req, first.reqSize);
      ScheduleIsAsAsked(crcFile, all);
      var o := OtherUnits(run, first, second, more, i);
    } else {
      if !IsIdle(dev, e) {
        OtherEvents(crcFile, dev, e);
      }
    }
    hide Apply, Final, IsIdle, Schedules;
  }
}
