/** Whole-run accounts of one device: lifecycle, losses, transfers, queues and pacing. */
module DeviceAccounts {
  import opened Bytes
  import opened Messages
  import opened DeviceSpec
  import opened DeviceRuns

  // All that `Sending` touches is its own transfer, and all it sends is chunks.
  lemma SendingTouchesOnlyTransfer(dev: Device, addr: byte)
    ensures var act := ActSending(dev, addr);
            && act.dev == dev.(transfer := act.dev.transfer)
            && act.reports == [] && (act.body.Some? ==> act.body.value.FileWriteChunk?)
  {
    hide NextChunk;
  }

  // ----- what a single event does to the lifecycle -----

  ghost predicate TimesOut(crcFile: CrcFile, dev: Device, e: Event) {
    e.TickAt? && TimedOut(ScheduledBy(crcFile, dev, e), e.time)
  }

  ghost predicate IsLost(crcFile: CrcFile, dev: Device, e: Event) {
    TimesOut(crcFile, dev, e) && dev.timeoutCounter + 1 >= TIMEOUTS_FOR_LOST
  }

  // The one move that leaves a state, and the only event that makes it.
  ghost predicate Moves(dev: Device, e: Event, next: DeviceState) {
    || (dev.state == InfoRequest && next == Running && e.InfoIn? && InfoAccepted(dev, e.number))
    || (dev.state == Running && next == FileTransfer && e.UserFile?)
    || (dev.state == FileTransfer && next == Running && e.AckIn? && Answers(dev, e.number)
      && Awaiting(dev, FILE_WRITE_FINALIZE))
    || (dev.state == FileTransfer && next == Running && e.TickAt? && dev.transfer.state == Cancel)
    || (dev.state == Probing && next == InfoRequest && e.AckIn? && Answers(dev, e.number))
    || (dev.state == Lost && next == Probing && e.TickAt?)
  }

  // A turn leaves the counter alone, and a state only when lost or cancelling.
  lemma TurnsFollowLifecycle(crcFile: CrcFile, dev: Device, e: Event)
    requires Coherent(dev) && e.TickAt?
    ensures var d := ScheduledBy(crcFile, dev, e);
            && d.timeoutCounter == dev.timeoutCounter
            && (dev.state == Lost ==> d.pending == None)
            && d.state == if dev.nextCall <= e.time && dev.state == Lost then Probing
                          else if dev.nextCall <= e.time && InTransfer(dev, Cancel) then Running
                          else dev.state
  {
    hide ActSending, LastDue, MarkDue;
    SendingTouchesOnlyTransfer(dev, e.addr);
  }

  /** A device changes state only along the lifecycle, for its reasons, or by its twentieth timeout. */
  lemma StatesFollowLifecycle(crcFile: CrcFile, dev: Device, e: Event)
    requires Coherent(dev)
    ensures var next := Apply(crcFile, dev, e).dev.state;
            && (IsLost(crcFile, dev, e) <==> dev.state != Lost && next == Lost)
            && (next != Lost && next != dev.state ==> Moves(dev, e, next))
  {
    if e.TickAt? {
      TurnsFollowLifecycle(crcFile, dev, e);
      hide Scheduled;
    }
  }

  // ----- counts over a run -----

  datatype Tally = Timeouts | Losses | LostReports | FilesAccepted | FileResults | FilesAbandoned

  ghost function Reported(reports: seq<Report>, lost: bool): nat {
    if reports == [] then 0
    else
      var counts := if lost then reports[0].DeviceLost? else reports[0].FileWriteResult?;
      (if counts then 1 else 0) + Reported(reports[1..], lost)
  }

  ghost function CountOf(crcFile: CrcFile, what: Tally, dev: Device, e: Event): nat {
    var o := Apply(crcFile, dev, e);
    match what
    case Timeouts => if TimesOut(crcFile, dev, e) then 1 else 0
    case Losses => if IsLost(crcFile, dev, e) then 1 else 0
    case LostReports => Reported(o.reports, true)
    case FilesAccepted => if e.UserFile? && dev.state == Running then 1 else 0
    case FileResults => Reported(o.reports, false)
    // Dropped with the device: lost in mid-transfer, and no result is ever reported.
    case FilesAbandoned =>
      if dev.state == FileTransfer && IsLost(crcFile, dev, e) && Reported(o.reports, false) == 0 then 1 else 0
  }

  ghost function Total(crcFile: CrcFile, what: Tally, dev: Device, run: seq<Event>): nat {
    if run == [] then 0
    else
      var earlier := run[..|run| - 1];
      Total(crcFile, what, dev, earlier) + CountOf(crcFile, what, Final(crcFile, dev, earlier), run[|run| - 1])
  }

  lemma ReportedOne(r: Report, lost: bool)
    ensures Reported([r], lost) == if (if lost then r.DeviceLost? else r.FileWriteResult?) then 1 else 0
  {
    assert [r][1..] == [];
  }

  lemma {:induction false} ReportedConcat(a: seq<Report>, b: seq<Report>, lost: bool)
    ensures Reported(a + b, lost) == Reported(a, lost) + Reported(b, lost)
  {
    if a == [] {
      assert a + b == b;
    } else {
      assert (a + b)[1..] == a[1..] + b;
      ReportedConcat(a[1..], b, lost);
    }
  }

  ghost function One(b: bool): nat {
    if b then 1 else 0
  }

  lemma TickReports(crcFile: CrcFile, dev: Device, e: Event, lost: bool)
    requires e.TickAt?
    ensures Reported(Apply(crcFile, dev, e).reports, lost) ==
            One(dev.nextCall <= e.time && if lost then dev.state == Lost else InTransfer(dev, Cancel))
  {
    hide ActSending, LastDue, MarkDue;
    SendingTouchesOnlyTransfer(dev, e.addr);
    var s := Scheduled(crcFile, dev, e.addr, e.temporaryUid, e.number, e.time, e.now);
    ReportedOne(DeviceLost, lost);
    ReportedOne(FileWriteResult(ERROR), lost);
    assert Reported([], lost) == 0;
    if TimedOut(s.dev, e.time) {
      var r := AckNotReceived(s.dev.pending.value.msgType);
      ReportedOne(r, lost);
      ReportedConcat(s.reports, [r], lost);
    }
  }

  lemma AnswerReports(crcFile: CrcFile, dev: Device, e: Event, lost: bool)
    requires !e.TickAt?
    ensures Reported(Apply(crcFile, dev, e).reports, lost) ==
            One(!lost && e.AckIn? && Answers(dev, e.number) && dev.state == FileTransfer
              && Awaiting(dev, FILE_WRITE_FINALIZE))
  {
    assert Reported([], lost) == 0;
    match e
    case AckIn(number, code, now) =>
      if Answers(dev, number) {
        var first, rest := AckReceived(dev.pending.value.msgType, code), AckMeans(dev.(lastAck := now), code).1;
        ReportedConcat([first], rest, lost);
        ReportedOne(first, lost);
        ReportedOne(CommandResult(code), lost);
        ReportedOne(RequestError(code), lost);
        ReportedOne(FileWriteResult(code), lost);
      }
    case InfoIn(_, version, _) => ReportedOne(Registered(version), lost);
    case BlobIn(_, request, answer) => ReportedOne(BlobReceived(request, answer), lost);
    case HealthIn(_, health, flags) => ReportedOne(HealthReceived(health, flags), lost);
    case _ =>
  }

  // ----- losses -----

  lemma CounterStep(crcFile: CrcFile, dev: Device, e: Event)
    requires Coherent(dev) && e.TickAt?
    ensures var next := Apply(crcFile, dev, e).dev;
            next.timeoutCounter
            == if IsLost(crcFile, dev, e) then 0 else dev.timeoutCounter + One(TimesOut(crcFile, dev, e))
    ensures dev.state == Lost ==> Apply(crcFile, dev, e).dev.state == if dev.nextCall <= e.time then Probing else Lost
  {
    hide ActSending, LastDue, MarkDue;
    SendingTouchesOnlyTransfer(dev, e.addr);
  }

  lemma LossStep(crcFile: CrcFile, dev: Device, e: Event)
    requires Coherent(dev)
    ensures var next := Apply(crcFile, dev, e).dev;
            && CountOf(crcFile, Timeouts, dev, e) + dev.timeoutCounter
               == TIMEOUTS_FOR_LOST * CountOf(crcFile, Losses, dev, e) + next.timeoutCounter
            && CountOf(crcFile, Losses, dev, e) + One(dev.state == Lost)
               == CountOf(crcFile, LostReports, dev, e) + One(next.state == Lost)
  {
    StatesFollowLifecycle(crcFile, dev, e);
    if e.TickAt? {
      TickReports(crcFile, dev, e, true);
      CounterStep(crcFile, dev, e);
    } else {
      AnswerReports(crcFile, dev, e, true);
    }
    hide Reported;
  }

  /**
    Over any run of a new device: every twentieth timeout is a loss, and every loss is reported once,
    when the device is next scheduled.
  */
  lemma {:induction false} LossesAreReported(crcFile: CrcFile, run: seq<Event>)
    requires forall e :: e in run ==> Timely(e)
    ensures var last := Final(crcFile, NEW_DEVICE, run);
            var losses := Total(crcFile, Losses, NEW_DEVICE, run);
            && Total(crcFile, Timeouts, NEW_DEVICE, run) == 20 * losses + last.timeoutCounter
            && last.timeoutCounter < 20
            && losses == Total(crcFile, LostReports, NEW_DEVICE, run) + One(last.state == Lost)
  {
    RunsAreCoherent(crcFile, NEW_DEVICE, run);
    if run != [] {
      var earlier := run[..|run| - 1];
      LossesAreReported(crcFile, earlier);
      RunsAreCoherent(crcFile, NEW_DEVICE, earlier);
      LossStep(crcFile, Final(crcFile, NEW_DEVICE, earlier), run[|run| - 1]);
      hide Apply, Coherent, CountOf;
    }
  }

  // ----- transfers -----

  lemma TransferEnds(crcFile: CrcFile, dev: Device, e: Event)
    requires e.TickAt? && dev.state == FileTransfer
    ensures var next := Apply(crcFile, dev, e).dev;
            next.state == if IsLost(crcFile, dev, e) then Lost
                          else if dev.nextCall <= e.time && dev.transfer.state == Cancel then Running else FileTransfer
  {
    hide ActSending;
    SendingTouchesOnlyTransfer(dev, e.addr);
  }

  lemma FileStep(crcFile: CrcFile, dev: Device, e: Event)
    requires Coherent(dev)
    ensures var next := Apply(crcFile, dev, e).dev;
            CountOf(crcFile, FilesAccepted, dev, e) + One(dev.state == FileTransfer)
            == CountOf(crcFile, FileResults, dev, e) + CountOf(crcFile, FilesAbandoned, dev, e)
               + One(next.state == FileTransfer)
  {
    StatesFollowLifecycle(crcFile, dev, e);
    if e.TickAt? {
      TickReports(crcFile, dev, e, false);
      if dev.state == FileTransfer {
        TransferEnds(crcFile, dev, e);
      }
    } else {
      AnswerReports(crcFile, dev, e, false);
    }
    hide Reported;
  }

  /**
    Over any run of a new device: every accepted file ends in exactly one reported result, is still
    being transferred, or was dropped because its device was lost.
  */
  lemma {:induction false} FilesAreAccounted(crcFile: CrcFile, run: seq<Event>)
    requires forall e :: e in run ==> Timely(e)
    ensures Total(crcFile, FilesAccepted, NEW_DEVICE, run)
         == Total(crcFile, FileResults, NEW_DEVICE, run) + Total(crcFile, FilesAbandoned, NEW_DEVICE, run)
            + One(Final(crcFile, NEW_DEVICE, run).state == FileTransfer)
  {
    if run != [] {
      var earlier := run[..|run| - 1];
      FilesAreAccounted(crcFile, earlier);
      RunsAreCoherent(crcFile, NEW_DEVICE, earlier);
      FileStep(crcFile, Final(crcFile, NEW_DEVICE, earlier), run[|run| - 1]);
      hide Apply, Coherent, CountOf;
    }
  }

  // ----- queues -----

  type Pair = (byte, byte)

  datatype Queue = Commands | Requests

  ghost function QueueOf(dev: Device, q: Queue): seq<Pair> {
    match q case Commands => dev.commandQueue case Requests => dev.requestQueue
  }

  // What happens to an item: the user's call is accepted, its turn comes, it is put on the wire.
  datatype Stage = Accepted | Taken | Sent

  ghost function AcceptedIn(dev: Device, q: Queue, e: Event): seq<Pair> {
    if dev.state != Running then []
    else
      match e
      case UserCommand(command, value) => if q == Commands then [(command, value)] else []
      case UserRequest(request, size) => if q == Requests then [(request, size)] else []
      case _ => []
  }

  ghost predicate HasTurn(dev: Device, e: Event) {
    e.TickAt? && dev.nextCall <= e.time && dev.state == Running
  }

  // A running device's turn takes the first command, or the first request if no command waits.
  ghost function TakenIn(dev: Device, q: Queue, e: Event): seq<Pair> {
    if HasTurn(dev, e) && QueueOf(dev, q) != [] && (q == Commands || dev.commandQueue == [])
    then [QueueOf(dev, q)[0]] else []
  }

  // Commands on the wire; and blob requests that come from the user's queue rather than from the schedule.
  ghost function SentIn(crcFile: CrcFile, dev: Device, q: Queue, e: Event): seq<Pair> {
    match Apply(crcFile, dev, e).sent
    case Some(Command(command, value)) => if q == Commands then [(command, value)] else []
    case Some(BlobRequest(request, size)) => if q == Requests && dev.requestQueue != [] then [(request, size)] else []
    case _ => []
  }

  ghost function InStage(crcFile: CrcFile, stage: Stage, dev: Device, q: Queue, e: Event): seq<Pair> {
    match stage
    case Accepted => AcceptedIn(dev, q, e)
    case Taken => TakenIn(dev, q, e)
    case Sent => SentIn(crcFile, dev, q, e)
  }

  // Scheduling and timeouts leave the queues to the act itself.
  lemma TickIsItsAct(crcFile: CrcFile, dev: Device, e: Event)
    requires e.TickAt?
    ensures var o, act := Apply(crcFile, dev, e), ActOn(crcFile, dev, e.addr, e.temporaryUid, e.time);
            if dev.nextCall <= e.time
            then
              && o.sent == act.body
              && o.dev.commandQueue == act.dev.commandQueue && o.dev.requestQueue == act.dev.requestQueue
            else o.sent == None && o.dev.commandQueue == dev.commandQueue && o.dev.requestQueue == dev.requestQueue
  {
    hide ActOn;
  }

  lemma RunningTakesFront(dev: Device, addr: byte, time: int)
    ensures var act := ActRunning(dev, addr, time);
            && (act.body.Some? ==> addr != RESERVED_UID)
            && if dev.commandQueue != [] then
                 && (addr != RESERVED_UID ==> act.body == Some(Command(dev.commandQueue[0].0, dev.commandQueue[0].1)))
                 && act.dev.commandQueue == dev.commandQueue[1..] && act.dev.requestQueue == dev.requestQueue
               else
                 && act.dev.commandQueue == dev.commandQueue
                 && (act.body.Some? ==> !act.body.value.Command?)
                 && if dev.requestQueue != [] then
                      && (addr != RESERVED_UID ==>
                            act.body == Some(BlobRequest(dev.requestQueue[0].0, dev.requestQueue[0].1)))
                      && act.dev.requestQueue == dev.requestQueue[1..]
                    else act.dev.requestQueue == dev.requestQueue
  {
    hide LastDue, MarkDue;
  }

  lemma OthersLeaveQueues(crcFile: CrcFile, dev: Device, e: Event)
    requires e.TickAt? && dev.state != Running
    ensures var act := ActOn(crcFile, dev, e.addr, e.temporaryUid, e.time);
            && act.dev.commandQueue == dev.commandQueue && act.dev.requestQueue == dev.requestQueue
            && (act.body.Some? ==>
                  !act.body.value.Command? && !act.body.value.BlobRequest? && !act.body.value.HealthReq?)
  {
    SendingTouchesOnlyTransfer(dev, e.addr);
    hide ActSending, ActRunning;
  }

  lemma QueueCall(crcFile: CrcFile, dev: Device, q: Queue, e: Event)
    requires !e.TickAt?
    ensures QueueOf(Apply(crcFile, dev, e).dev, q) == QueueOf(dev, q) + AcceptedIn(dev, q, e)
    ensures SentIn(crcFile, dev, q, e) == [] == TakenIn(dev, q, e)
  {
  }

  lemma QueueTurn(crcFile: CrcFile, dev: Device, q: Queue, e: Event)
    requires e.TickAt?
    ensures QueueOf(dev, q) == TakenIn(dev, q, e) + QueueOf(Apply(crcFile, dev, e).dev, q)
            && AcceptedIn(dev, q, e) == []
    ensures SentIn(crcFile, dev, q, e) == if e.addr == RESERVED_UID then [] else TakenIn(dev, q, e)
  {
    hide Apply, ActRunning, ActTransfer;
    TickIsItsAct(crcFile, dev, e);
    if dev.state == Running {
      RunningTakesFront(dev, e.addr, e.time);
    } else {
      OthersLeaveQueues(crcFile, dev, e);
    }
    if QueueOf(dev, q) != [] {
      assert QueueOf(dev, q) == [QueueOf(dev, q)[0]] + QueueOf(dev, q)[1..];
    }
  }

  /**
    One event moves a queue only at its ends. What a turn takes from the front is what goes out, if the
    device has an address, and is dropped if it has none.
  */
  lemma QueueStep(crcFile: CrcFile, dev: Device, q: Queue, e: Event)
    ensures QueueOf(dev, q) + AcceptedIn(dev, q, e) == TakenIn(dev, q, e) + QueueOf(Apply(crcFile, dev, e).dev, q)
    ensures SentIn(crcFile, dev, q, e) == if e.TickAt? && e.addr == RESERVED_UID then [] else TakenIn(dev, q, e)
  {
    if e.TickAt? {
      QueueTurn(crcFile, dev, q, e);
    } else {
      QueueCall(crcFile, dev, q, e);
    }
    hide Apply, SentIn, TakenIn, AcceptedIn, QueueOf;
  }

  /** A queued request goes out only when no command waits, a health request only when neither queue holds anything. */
  lemma QueueTick(crcFile: CrcFile, dev: Device, e: Event)
    requires e.TickAt?
    ensures var o := Apply(crcFile, dev, e);
            && (o.sent.Some? && o.sent.value.Command? ==> HasTurn(dev, e) && dev.commandQueue != [])
            && (o.sent.Some? && o.sent.value.BlobRequest? ==> HasTurn(dev, e) && dev.commandQueue == [])
            && (o.sent.Some? && o.sent.value.HealthReq? ==>
                  HasTurn(dev, e) && dev.commandQueue == [] && dev.requestQueue == [])
  {
    TickIsItsAct(crcFile, dev, e);
    if dev.state == Running {
      RunningTakesFront(dev, e.addr, e.time);
    } else {
      OthersLeaveQueues(crcFile, dev, e);
    }
    hide Apply, ActRunning, ActTransfer;
  }

  ghost function All(crcFile: CrcFile, stage: Stage, dev: Device, q: Queue, run: seq<Event>): seq<Pair> {
    if run == [] then []
    else
      var earlier := run[..|run| - 1];
      All(crcFile, stage, dev, q, earlier) + InStage(crcFile, stage, Final(crcFile, dev, earlier), q, run[|run| - 1])
  }

  // Whenever a turn takes something from the queue, the device's name leads to an address.
  ghost predicate Addressable(dev: Device, q: Queue, e: Event) {
    e.TickAt? && TakenIn(dev, q, e) != [] ==> e.addr != RESERVED_UID
  }

  ghost predicate AlwaysAddressable(crcFile: CrcFile, dev: Device, q: Queue, run: seq<Event>) {
    run != [] ==>
      && AlwaysAddressable(crcFile, dev, q, run[..|run| - 1])
      && Addressable(Final(crcFile, dev, run[..|run| - 1]), q, run[|run| - 1])
  }

  lemma SeqRegroup(a: seq<Pair>, b: seq<Pair>, c: seq<Pair>, d: seq<Pair>, e: seq<Pair>)
    requires b + c == d + e
    ensures (a + b) + c == (a + d) + e
  {
    assert (a + b) + c == a + (b + c);
    assert (a + d) + e == a + (d + e);
  }

  /**
    Through losses and re-registrations: the accepted items are, in order, those whose turn has come and those
    still queued.
  */
  lemma {:induction false} QueuesAreConserved(crcFile: CrcFile, q: Queue, run: seq<Event>)
    ensures All(crcFile, Accepted, NEW_DEVICE, q, run)
         == All(crcFile, Taken, NEW_DEVICE, q, run) + QueueOf(Final(crcFile, NEW_DEVICE, run), q)
  {
    if run != [] {
      var earlier, e := run[..|run| - 1], run[|run| - 1];
      QueuesAreConserved(crcFile, q, earlier);
      var d := Final(crcFile, NEW_DEVICE, earlier);
      QueueStep(crcFile, d, q, e);
      hide Apply, SentIn, TakenIn, AcceptedIn, QueueOf;
      SeqRegroup(All(crcFile, Taken, NEW_DEVICE, q, earlier), QueueOf(d, q), AcceptedIn(d, q, e),
                 TakenIn(d, q, e), QueueOf(Apply(crcFile, d, e).dev, q));
    }
  }

  lemma OnlyTurnsTake(dev: Device, q: Queue, e: Event)
    ensures TakenIn(dev, q, e) != [] ==> e.TickAt?
  {
  }

  // The items sent are those taken, or fewer.
  lemma {:induction false} SentAreTaken(crcFile: CrcFile, q: Queue, run: seq<Event>)
    ensures var sent, taken := All(crcFile, Sent, NEW_DEVICE, q, run), All(crcFile, Taken, NEW_DEVICE, q, run);
            && |sent| <= |taken|
            && (AlwaysAddressable(crcFile, NEW_DEVICE, q, run) ==> sent == taken)
            && (!AlwaysAddressable(crcFile, NEW_DEVICE, q, run) ==> |sent| < |taken|)
  {
    if run != [] {
      var earlier, e := run[..|run| - 1], run[|run| - 1];
      SentAreTaken(crcFile, q, earlier);
      QueueStep(crcFile, Final(crcFile, NEW_DEVICE, earlier), q, e);
      OnlyTurnsTake(Final(crcFile, NEW_DEVICE, earlier), q, e);
      hide Apply, SentIn, TakenIn, AcceptedIn, QueueOf;
    }
  }

  /**
    Over any run, the accepted items of a queue are, in order, those sent and those still queued, if and only
    if every turn that takes one finds an address for its device.
  */
  lemma QueuesReachTheWire(crcFile: CrcFile, q: Queue, run: seq<Event>)
    ensures All(crcFile, Accepted, NEW_DEVICE, q, run)
            == All(crcFile, Sent, NEW_DEVICE, q, run) + QueueOf(Final(crcFile, NEW_DEVICE, run), q)
            <==> AlwaysAddressable(crcFile, NEW_DEVICE, q, run)
  {
    QueuesAreConserved(crcFile, q, run);
    SentAreTaken(crcFile, q, run);
    hide All, Final, QueueOf;
  }

  // ----- pacing -----

  // The times of the ticks at which the device's record put a frame on the wire.
  ghost function SendTimes(crcFile: CrcFile, dev: Device, run: seq<Event>): seq<int> {
    if run == [] then []
    else
      var earlier, e := run[..|run| - 1], run[|run| - 1];
      var d := Final(crcFile, dev, earlier);
      SendTimes(crcFile, dev, earlier) + if e.TickAt? && Apply(crcFile, d, e).sent.Some? then [e.time] else []
  }

  lemma PaceStep(crcFile: CrcFile, dev: Device, e: Event)
    ensures var o := Apply(crcFile, dev, e);
            && o.dev.nextCall >= dev.nextCall
            && (o.sent.Some? ==> e.TickAt? && dev.nextCall <= e.time && o.dev.nextCall >= e.time + 50)
  {
    hide NextChunk, LastDue, MarkDue;
  }

  ghost predicate Paced(times: seq<int>, nextCall: int) {
    && (forall i, j :: 0 <= i <= j < |times| ==> times[j] - times[i] >= 50 * (j - i))
    && (forall i :: 0 <= i < |times| ==> nextCall - times[i] >= 50 * (|times| - i))
  }

  lemma OneMoreFrame(times: seq<int>, nextCall: int, time: int, later: int)
    requires Paced(times, nextCall) && nextCall <= time && time + 50 <= later
    ensures Paced(times + [time], later)
  {
  }

  /** Any k frames of one device, first to last, are at least 50 (k - 1) ms apart, on any clock. */
  lemma {:induction false} FramesArePaced(crcFile: CrcFile, dev: Device, run: seq<Event>)
    ensures Paced(SendTimes(crcFile, dev, run), Final(crcFile, dev, run).nextCall)
  {
    if run != [] {
      var earlier, e := run[..|run| - 1], run[|run| - 1];
      FramesArePaced(crcFile, dev, earlier);
      var d, times := Final(crcFile, dev, earlier), SendTimes(crcFile, dev, earlier);
      PaceStep(crcFile, d, e);
      hide Apply, Final, SendTimes;
      var o := Apply(crcFile, d, e);
      if o.sent.Some? {
        OneMoreFrame(times, d.nextCall, e.time, o.dev.nextCall);
      }
    }
  }
}
