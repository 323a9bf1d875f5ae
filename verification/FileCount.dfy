/**
  The chunk count of a second file: `sendFile` does not reset the counter, and an acknowledged transfer
  leaves it as it is.
*/
module FileCount {
  import opened Bytes
  import opened Messages
  import opened DeviceSpec
  import opened DeviceRuns
  import opened DeviceTransfer
  import opened FileSafety
  import opened FilePaths
  import opened FileDelivery
  import opened FileLimits

  // A one-byte file, confirmed and about to be finalized under this count.
  ghost predicate OneByteDone(s: System, b: byte, count: nat) {
    && Complete(s, [b], 1) && s.hub.transfer.file == 0 && s.hub.transfer.chunkSent == count
    && s.hub.transfer.packetAck == None
  }

  lemma OneByteConfirmed(crcFile: CrcFile, c: Setting, s: System, addr: byte, b: byte) returns (done: System)
    requires Acked(s, [b], 1) && s.hub.transfer.file == 0 && s.hub.transfer.sentOffset == 0 && addr != RESERVED_UID
    requires Registers(c.sizes)
    ensures Leads(crcFile, c, s, done) && OneByteDone(done, b, s.hub.transfer.chunkSent + 1)
  {
    assert NextChunk(s.hub.transfer) == [b];
    hide Leads, Apply, Do, Enabled, NextChunk, Can;
    LastPieceTick(crcFile, s, addr, [b], 1);
    MovingTick(crcFile, s.hub, addr, s.counter % 0x100);
    TickCan(crcFile, c, s, addr);
    TickDoes(crcFile, s, addr);
    done := Do(crcFile, s, TickNow(s, addr));
    OneMove(crcFile, c, s, TickNow(s, addr));
  }

  lemma OneByteSent(crcFile: CrcFile, c: Setting, s: System, addr: byte, b: byte) returns (done: System)
    requires Opened(s, [b], 1) && s.hub.transfer.file == 0 && addr != RESERVED_UID && Registers(c.sizes)
    ensures Leads(crcFile, c, s, done) && OneByteDone(done, b, s.hub.transfer.chunkSent + 1)
  {
    var moved := s.hub.transfer.(firstPacket := false);
    assert NextChunk(moved) == NextChunk(s.hub.transfer) == [b];
    assert [b][..0] == [];
    OpenedTick(crcFile, s, addr, [b], 1);
    hide Leads, Apply, Do, Enabled, NextChunk, Can, ChunkOut;
    TickCan(crcFile, c, s, addr);
    var sent := Do(crcFile, s, TickNow(s, addr));
    OneMove(crcFile, c, s, TickNow(s, addr));
    var acked := ChunkAccepted(crcFile, c, sent, moved, [b], 1);
    LeadsOn(crcFile, c, s, sent, acked);
    done := OneByteConfirmed(crcFile, c, acked, addr, b);
    LeadsOn(crcFile, c, s, acked, done);
  }

  lemma OneByteFile(crcFile: CrcFile, c: Setting, s: System, addr: byte, b: byte) returns (done: System)
    requires Ready(s) && addr != RESERVED_UID && Registers(c.sizes)
    ensures Leads(crcFile, c, s, done) && OneByteDone(done, b, s.hub.transfer.chunkSent + 1)
  {
    hide Leads, Opened;
    var asking := FileGiven(crcFile, c, s, 0, [b], 1);
    var begun := RequestExchange(crcFile, c, asking, addr, [b], 1);
    LeadsOn(crcFile, c, s, asking, begun);
    done := OneByteSent(crcFile, c, begun, addr, b);
    LeadsOn(crcFile, c, s, begun, done);
  }

  // The receiver's Ok for a finalized file ends its transfer and keeps its count.
  lemma OkTaken(crcFile: CrcFile, s: System, data: seq<byte>, chunkSize: nat)
    requires Answering(s, data, chunkSize) && s.hub.transfer.packetAck == None
    ensures var next := Do(crcFile, s, HubGets(0));
            Ready(next) && next.hub.transfer.chunkSent == s.hub.transfer.chunkSent
  {
  }

  lemma FirstFileAnswered(crcFile: CrcFile, c: Setting, s: System, addr: byte, name: Blob) returns (end: System)
    requires Starts(s) && Within(s, c.window) && addr != RESERVED_UID && NameFits(c.sizes, name)
    ensures Leads(crcFile, c, s, end) && Answering(end, [7], 1)
    ensures end.hub.transfer.chunkSent == 1 && end.hub.transfer.packetAck == None
  {
    hide Leads, Ready, Answering;
    var ready := Discovery(crcFile, c, s, addr, name);
    var done := OneByteFile(crcFile, c, ready, addr, 7);
    LeadsOn(crcFile, c, s, ready, done);
    end := LastExchange(crcFile, c, done, addr, [7], 1);
    LeadsOn(crcFile, c, s, done, end);
  }

  lemma WhereJoined(a: seq<System>, ms: seq<Move>, b: seq<System>, ns: seq<Move>)
    requires |a| == |ms| + 1 && |b| == |ns| + 1 && a[|ms|] == b[0] && ms != [] && ns != []
    ensures var trace, moves := a + b[1..], ms + ns;
            && trace[..|ms| + 1] == a && moves[..|ms|] == ms && |trace| == |moves| + 1
            && trace[|moves| - 1] == b[|ns| - 1] && moves[|moves| - 1] == ns[|ns| - 1]
  {
  }

  // A message that tells of two chunks where the file makes one.
  ghost predicate Miscounts(crcFile: CrcFile, s: System, m: Move) {
    && m.HubActs? && s.hub.transfer.data == [9] && s.hub.transfer.chunkSize == 1
    && Apply(crcFile, s.hub, m.e).sent == Some(FileWriteFinalize(0, 2, crcFile([9])))
  }

  lemma WayLength(crcFile: CrcFile, c: Setting, trace: seq<System>, moves: seq<Move>)
    requires IsWay(crcFile, c, trace, moves)
    ensures |trace| == |moves| + 1
  {
  }

  lemma FirstDelivery(crcFile: CrcFile, c: Setting, s: System, addr: byte, name: Blob)
    returns (trace: seq<System>, moves: seq<Move>)
    requires Starts(s) && Within(s, c.window) && addr != RESERVED_UID && NameFits(c.sizes, name)
    ensures IsWay(crcFile, c, trace, moves) && trace[0] == s && moves != []
    ensures ReportsOk(crcFile, trace, moves, [7], 1)
    ensures Ready(trace[|moves|]) && trace[|moves|].hub.transfer.chunkSent == 1
  {
    hide Leads, Ready, Reports, Starts, Recent, Audible;
    var end := FirstFileAnswered(crcFile, c, s, addr, name);
    LastAnswer(crcFile, c, end, [7], 1);
    OkTaken(crcFile, end, [7], 1);
    trace, moves := WayTo(crcFile, c, s, end, HubGets(0));
    assert Goes(crcFile, c, trace[|moves| - 1], moves[|moves| - 1], trace[|moves|]);
  }

  lemma SecondFinalize(crcFile: CrcFile, c: Setting, s: System, addr: byte)
    returns (trace: seq<System>, moves: seq<Move>)
    requires Ready(s) && s.hub.transfer.chunkSent == 1 && addr != RESERVED_UID && Registers(c.sizes)
    ensures IsWay(crcFile, c, trace, moves) && trace[0] == s && moves != []
    ensures Miscounts(crcFile, trace[|moves| - 1], moves[|moves| - 1])
  {
    hide Leads, Can, Apply;
    var done := OneByteFile(crcFile, c, s, addr, 9);
    FinalizeTick(crcFile, done.hub, addr, done.counter % 0x100);
    TickCan(crcFile, c, done, addr);
    trace, moves := WayTo(crcFile, c, s, done, TickNow(done, addr));
  }

  lemma BaseIsOff(crcFile: CrcFile, trace: seq<System>, moves: seq<Move>, k: nat)
    requires IsRun(crcFile, trace, moves) && k < |moves| && Miscounts(crcFile, trace[k], moves[k])
    ensures Watched(crcFile, EventsOf(crcFile, trace, moves, k)).base % 0x1_0000 != 0
  {
    RunIsADeviceRun(crcFile, trace, moves, k);
    assert Steps(crcFile, trace[k], moves[k], trace[k + 1]);
    var run := EventsOf(crcFile, trace, moves, k);
    FinalizeCount(crcFile, run, moves[k].e);
    hide IsRun, Watched, EventsOf, Apply, Recent, Do;
  }

  /**
    From any device just found: a run, legal throughout, in which a first one-byte file is reported Ok, and
    the finalize message of a second one, all acknowledged as well, tells of 2 chunks; the counter had not
    started from a multiple of 65536.
  */
  lemma SecondFileMiscounts(crcFile: CrcFile, sizes: Sizes, s: System, addr: byte, name: Blob)
    returns (trace: seq<System>, moves: seq<Move>, first: nat)
    requires Starts(s) && Recent(s) && addr != RESERVED_UID && NameFits(sizes, name)
    ensures IsAudibleRun(crcFile, sizes, trace, moves) && trace[0] == s && first < |moves| - 1
    ensures ReportsOk(crcFile, trace[..first + 2], moves[..first + 1], [7], 1)
    ensures Miscounts(crcFile, trace[|moves| - 1], moves[|moves| - 1]) && Pieces(1, 1) == 1
    ensures Watched(crcFile, EventsOf(crcFile, trace, moves, |moves| - 1)).base % 0x1_0000 != 0
  {
    hide Miscounts, ReportsOk, IsWay, IsAudibleRun, Ready, EventsOf, Watched, Starts, Within;
    var c := Setting(0xFF, sizes);
    var a, ms := FirstDelivery(crcFile, c, s, addr, name);
    WayLength(crcFile, c, a, ms);
    var b, ns := SecondFinalize(crcFile, c, a[|ms|], addr);
    WayLength(crcFile, c, b, ns);
    WaysJoin(crcFile, c, a, ms, b, ns);
    trace, moves, first := a + b[1..], ms + ns, |ms| - 1;
    WayIsRun(crcFile, c, trace, moves);
    WhereJoined(a, ms, b, ns);
    AudibleIsRun(crcFile, sizes, trace, moves);
    BaseIsOff(crcFile, trace, moves, |moves| - 1);
  }
}
