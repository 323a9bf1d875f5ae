/**
  What the observer is told, in full: each report exactly when its reason occurs, with what was received; and
  over runs, that an answer counts only for the message sent last.
*/
module DeviceReports {
  import opened Bytes
  import opened Messages
  import opened DeviceSpec
  import opened DeviceRuns
  import DeviceAccounts

  // The type of the message an answer is awaited to at the end of a turn, and when it was sent: the one just
  // sent, or the one that was pending.
  ghost function Outstanding(crcFile: CrcFile, dev: Device, e: Event): Option<(byte, int)>
    requires e.TickAt?
  {
    var sent := Apply(crcFile, dev, e).sent;
    if sent.Some? then Some((TypeOf(sent.value), e.now))
    else
      match dev.pending case None => None case Some(p) => Some((p.msgType, p.timestamp))
  }

  ghost predicate TurnOf(dev: Device, e: Event, state: DeviceState) {
    e.TickAt? && dev.nextCall <= e.time && dev.state == state
  }

  lemma ActReportsOnly(crcFile: CrcFile, dev: Device, e: Event)
    requires e.TickAt?
    ensures var act := ActOn(crcFile, dev, e.addr, e.temporaryUid, e.time);
            && act.dev.pending == dev.pending
            && act.reports == if dev.state == Lost then [DeviceLost]
                              else if InTransfer(dev, Cancel) then [FileWriteResult(1)] else []
  {
    hide ActSending, LastDue, MarkDue;
    DeviceAccounts.SendingTouchesOnlyTransfer(dev, e.addr);
  }

  /** What a tick reports: a loss, a cancelled transfer, and a message unanswered for 200 ms. */
  lemma TickReports(crcFile: CrcFile, dev: Device, e: Event)
    requires e.TickAt?
    ensures var waiting := Outstanding(crcFile, dev, e);
            Apply(crcFile, dev, e).reports
            == (if TurnOf(dev, e, Lost) then [DeviceLost]
                else if TurnOf(dev, e, FileTransfer) && dev.transfer.state == Cancel then [FileWriteResult(1)] else [])
               + if waiting.Some? && e.time - waiting.value.1 >= 200 then [AckNotReceived(waiting.value.0)] else []
  {
    ActReportsOnly(crcFile, dev, e);
    hide ActOn;
  }

  // This answers the message that is pending, and its type is one of these.
  ghost predicate Ends(dev: Device, number: byte, types: set<byte>) {
    dev.pending.Some? && dev.pending.value.number == number && dev.pending.value.msgType in types
  }

  /**
    Every report other than those of a tick is told exactly when its reason occurs, and repeats what was
    received: code, version, health and flags, request and data.
  */
  lemma AnswersAreReported(crcFile: CrcFile, dev: Device, e: Event, r: Report)
    requires !e.TickAt?
    ensures r in Apply(crcFile, dev, e).reports <==>
              match r
              case AckReceived(msgType, code) => e.AckIn? && code == e.code && Ends(dev, e.number, {msgType})
              case CommandResult(code) =>
                e.AckIn? && code == e.code && dev.state == Running && Ends(dev, e.number, {2})
              case RequestError(code) =>
                e.AckIn? && code == e.code && dev.state == Running && Ends(dev, e.number, {3})
              case FileWriteResult(code) =>
                e.AckIn? && code == e.code && dev.state == FileTransfer && Ends(dev, e.number, {9})
              case BlobReceived(request, data) =>
                e.BlobIn? && request == e.request && data == e.answer && Ends(dev, e.number, {3})
              case HealthReceived(health, flags) =>
                e.HealthIn? && health == e.health && flags == e.flags && Ends(dev, e.number, {10})
              case Registered(version) =>
                e.InfoIn? && version == e.version && dev.state == InfoRequest
                && dev.pending.Some? && dev.pending.value.number == e.number
              case AckNotReceived(_) => false
              case DeviceLost => false
  {
  }

  /** Nothing is told twice, and no event tells more than two things. */
  lemma NothingTwice(crcFile: CrcFile, dev: Device, e: Event)
    ensures var reports := Apply(crcFile, dev, e).reports;
            |reports| <= 2 && (|reports| == 2 ==> reports[0] != reports[1])
  {
    if e.TickAt? {
      TickReports(crcFile, dev, e);
      hide Apply;
    }
  }

  // ----- what is remembered of a device -----

  // A message that arrives from the device and is the answer to the request for its name.
  ghost predicate Introduces(dev: Device, e: Event) {
    e.InfoIn? && dev.state == InfoRequest && dev.pending.Some? && dev.pending.value.number == e.number
  }

  lemma ActRemembers(crcFile: CrcFile, dev: Device, e: Event)
    requires e.TickAt?
    ensures var next := ActOn(crcFile, dev, e.addr, e.temporaryUid, e.time).dev;
            next.name == dev.name && next.version == dev.version && next.lastAck == dev.lastAck
  {
    hide ActSending, LastDue, MarkDue;
    DeviceAccounts.SendingTouchesOnlyTransfer(dev, e.addr);
  }

  lemma TickRemembers(crcFile: CrcFile, dev: Device, e: Event)
    requires e.TickAt?
    ensures var next := Apply(crcFile, dev, e).dev;
            next.name == dev.name && next.version == dev.version && next.lastAck == dev.lastAck
  {
    ActRemembers(crcFile, dev, e);
    hide ActOn;
  }

  /** Name and version are those of the last introduction, and the time is that of the last acknowledgement. */
  lemma Remembers(crcFile: CrcFile, dev: Device, e: Event)
    ensures var next := Apply(crcFile, dev, e).dev;
            && next.name == (if Introduces(dev, e) then e.name else dev.name)
            && next.version == (if Introduces(dev, e) then e.version else dev.version)
            && next.lastAck == (if e.AckIn? then e.now else dev.lastAck)
  {
    if e.TickAt? {
      TickRemembers(crcFile, dev, e);
      hide Apply;
    }
  }

  // ----- the message an answer is to -----

  // What the k-th event of a run put on the wire.
  ghost function SentAt(crcFile: CrcFile, run: seq<Event>, k: nat): Option<Body>
    requires k < |run|
  {
    Apply(crcFile, Final(crcFile, NEW_DEVICE, run[..k]), run[k]).sent
  }

  ghost predicate LastSent(crcFile: CrcFile, run: seq<Event>, k: nat) {
    && k < |run| && SentAt(crcFile, run, k).Some? && run[k].TickAt?
    && forall j :: k < j < |run| ==> SentAt(crcFile, run, j) == None
  }

  // The pending record is that of this message.
  ghost predicate IsOf(p: Pending, e: Event, body: Body)
    requires e.TickAt?
  {
    p == Pending((e.number + 1) % 0x100, TypeOf(body), e.now)
  }

  // What is pending after an event is what it sent, or was pending before.
  lemma PendingStep(crcFile: CrcFile, dev: Device, e: Event)
    ensures var o := Apply(crcFile, dev, e);
            && (o.sent.Some? ==> e.TickAt?)
            && (o.dev.pending.Some? ==>
                  if o.sent.Some? then IsOf(o.dev.pending.value, e, o.sent.value) else o.dev.pending == dev.pending)
  {
    if e.TickAt? {
      ActReportsOnly(crcFile, dev, e);
      hide ActOn;
    }
  }

  lemma SentEarlier(crcFile: CrcFile, run: seq<Event>, k: nat)
    requires run != [] && k < |run| - 1
    ensures SentAt(crcFile, run[..|run| - 1], k) == SentAt(crcFile, run, k)
  {
    assert run[..|run| - 1][..k] == run[..k];
    hide Apply;
  }

  lemma LastStays(crcFile: CrcFile, run: seq<Event>, k: nat)
    requires run != [] && LastSent(crcFile, run[..|run| - 1], k) && SentAt(crcFile, run, |run| - 1) == None
    ensures LastSent(crcFile, run, k) && SentAt(crcFile, run, k) == SentAt(crcFile, run[..|run| - 1], k)
  {
    hide SentAt;
    SentEarlier(crcFile, run, k);
    forall j | k < j < |run|
      ensures SentAt(crcFile, run, j) == None
    {
      if j < |run| - 1 {
        SentEarlier(crcFile, run, j);
      }
    }
  }

  /** In every run, what is pending is the message sent last: its number, its type and its time. */
  lemma {:induction false} PendingIsLastSent(crcFile: CrcFile, run: seq<Event>) returns (k: nat)
    ensures var dev := Final(crcFile, NEW_DEVICE, run);
            dev.pending.Some? ==>
              && LastSent(crcFile, run, k)
              && IsOf(dev.pending.value, run[k], SentAt(crcFile, run, k).value)
  {
    k := 0;
    if run != [] {
      var earlier, e := run[..|run| - 1], run[|run| - 1];
      var d := Final(crcFile, NEW_DEVICE, earlier);
      PendingStep(crcFile, d, e);
      hide Apply, IsOf;
      if Apply(crcFile, d, e).sent.Some? {
        k := |run| - 1;
      } else {
        k := PendingIsLastSent(crcFile, earlier);
        if Final(crcFile, NEW_DEVICE, run).pending.Some? {
          assert Final(crcFile, NEW_DEVICE, run).pending == d.pending;
          LastStays(crcFile, run, k);
        }
      }
    }
  }

  // ----- what an answer can be to -----

  // In each state only these types of message are awaited an answer to.
  ghost predicate Expectable(state: DeviceState, msgType: byte) {
    match state
    case Probing => msgType == 0
    case InfoRequest => msgType == 5
    case Running => msgType in {2, 3, 10}
    case FileTransfer => msgType in {2, 3, 7, 8, 9, 10}
    case _ => false
  }

  ghost predicate ExpectsOnly(dev: Device) {
    dev.pending.Some? ==> Expectable(dev.state, dev.pending.value.msgType)
  }

  // What a turn sends is expected in the state it leaves; what it leaves pending may be a transfer's.
  lemma ActExpects(crcFile: CrcFile, dev: Device, e: Event)
    requires e.TickAt? && Coherent(dev) && ExpectsOnly(dev)
    ensures var act := ActOn(crcFile, dev, e.addr, e.temporaryUid, e.time);
            && (act.body.Some? ==> Expectable(act.dev.state, TypeOf(act.body.value)))
            && (dev.pending.Some? ==>
                  Expectable(act.dev.state, dev.pending.value.msgType)
                  || (act.dev.state == Running && dev.pending.value.msgType in {7, 8, 9}))
  {
    hide ActSending, LastDue, MarkDue;
    DeviceAccounts.SendingTouchesOnlyTransfer(dev, e.addr);
  }

  lemma TickExpects(crcFile: CrcFile, dev: Device, e: Event)
    requires e.TickAt? && Coherent(dev) && ExpectsOnly(dev) && Timely(e)
    ensures ExpectsOnly(Apply(crcFile, dev, e).dev)
  {
    TickKeepsCoherent(crcFile, dev, e);
    ActExpects(crcFile, dev, e);
    ActReportsOnly(crcFile, dev, e);
    hide ActOn;
  }

  lemma AnswerExpects(crcFile: CrcFile, dev: Device, e: Event)
    requires !e.TickAt? && Coherent(dev) && ExpectsOnly(dev)
    ensures ExpectsOnly(Apply(crcFile, dev, e).dev)
  {
  }

  lemma {:induction false} RunsExpect(crcFile: CrcFile, run: seq<Event>)
    requires forall e :: e in run ==> Timely(e)
    ensures ExpectsOnly(Final(crcFile, NEW_DEVICE, run))
  {
    if run != [] {
      var earlier, e := run[..|run| - 1], run[|run| - 1];
      assert e in run;
      RunsExpect(crcFile, earlier);
      RunsAreCoherent(crcFile, NEW_DEVICE, earlier);
      hide Apply, Coherent, ExpectsOnly;
      if e.TickAt? {
        TickExpects(crcFile, Final(crcFile, NEW_DEVICE, earlier), e);
      } else {
        AnswerExpects(crcFile, Final(crcFile, NEW_DEVICE, earlier), e);
      }
    }
  }

  /**
    In every timely run, whatever is reported on an answer is about the message sent last, which has the number
    of the answer and is of the kind the report is for.
  */
  lemma AnswersAreToTheLastMessage(crcFile: CrcFile, run: seq<Event>, e: Event, r: Report) returns (k: nat)
    requires forall x :: x in run ==> Timely(x)
    requires !e.TickAt? && r in Apply(crcFile, Final(crcFile, NEW_DEVICE, run), e).reports
    ensures LastSent(crcFile, run, k)
    ensures (e.AckIn? || e.InfoIn? || e.BlobIn? || e.HealthIn?) && e.number == (run[k].number + 1) % 0x100
    ensures var body := SentAt(crcFile, run, k).value;
            match r
            case AckReceived(msgType, _) => msgType == TypeOf(body)
            case CommandResult(_) => body.Command?
            case RequestError(_) => body.BlobRequest?
            case FileWriteResult(_) => body.FileWriteFinalize?
            case BlobReceived(_, _) => body.BlobRequest?
            case HealthReceived(_, _) => body.HealthReq?
            case Registered(_) => body.DeviceInfoReq?
            case _ => false
  {
    k := PendingIsLastSent(crcFile, run);
    RunsExpect(crcFile, run);
    AnswersAreReported(crcFile, Final(crcFile, NEW_DEVICE, run), e, r);
    hide Final, LastSent, SentAt, Apply;
  }
}
