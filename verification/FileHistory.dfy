/**
  Files as the user asked for them: everything a device is sent about a file is about the one last accepted, read
  from the calls of the run and not from the device's record.
*/
module FileHistory {
  import opened Bytes
  import opened Messages
  import opened DeviceSpec
  import opened DeviceRuns
  import opened DeviceTransfer
  import opened Sequences

  // A call that gives the device a file to write, and is not refused.
  ghost predicate Accepts(dev: Device, e: Event) {
    e.UserFile? && dev.state == Running
  }

  // The last accepted call of a run.
  ghost function LastFile(crcFile: CrcFile, run: seq<Event>): Option<Event> {
    if run == [] then None
    else
      var earlier, e := run[..|run| - 1], run[|run| - 1];
      if Accepts(Final(crcFile, NEW_DEVICE, earlier), e) then Some(e) else LastFile(crcFile, earlier)
  }

  // A transfer under way is of this call's file.
  ghost predicate IsOfCall(dev: Device, call: Option<Event>) {
    dev.state == FileTransfer ==>
      && call.Some? && call.value.UserFile?
      && dev.transfer.file == call.value.file && dev.transfer.data == call.value.contents
      && dev.transfer.chunkSize == call.value.chunkSize
  }

  lemma SendingKeepsFile(dev: Device, addr: byte)
    ensures var t, u := dev.transfer, ActSending(dev, addr).dev.transfer;
            u.file == t.file && u.data == t.data && u.chunkSize == t.chunkSize
  {
    hide NextChunk;
  }

  lemma ActKeepsFile(crcFile: CrcFile, dev: Device, e: Event)
    requires e.TickAt?
    ensures var next := ActOn(crcFile, dev, e.addr, e.temporaryUid, e.time).dev;
            next.state == FileTransfer ==>
              && dev.state == FileTransfer && next.transfer.file == dev.transfer.file
              && next.transfer.data == dev.transfer.data && next.transfer.chunkSize == dev.transfer.chunkSize
  {
    SendingKeepsFile(dev, e.addr);
    RunningStays(dev, e.addr, e.time);
    hide ActSending, ActRunning;
  }

  lemma CallStep(crcFile: CrcFile, dev: Device, e: Event, call: Option<Event>)
    requires IsOfCall(dev, call)
    ensures IsOfCall(Apply(crcFile, dev, e).dev, if Accepts(dev, e) then Some(e) else call)
  {
    if e.TickAt? {
      ActKeepsFile(crcFile, dev, e);
      hide ActOn;
    }
  }

  lemma {:induction false} TransfersAreOfCalls(crcFile: CrcFile, run: seq<Event>)
    ensures IsOfCall(Final(crcFile, NEW_DEVICE, run), LastFile(crcFile, run))
  {
    if run != [] {
      var earlier := run[..|run| - 1];
      TransfersAreOfCalls(crcFile, earlier);
      CallStep(crcFile, Final(crcFile, NEW_DEVICE, earlier), run[|run| - 1], LastFile(crcFile, earlier));
      hide Apply, IsOfCall;
    }
  }

  // ----- what goes out -----

  lemma RequestAct(crcFile: CrcFile, dev: Device, e: Event)
    requires e.TickAt?
    ensures var body := ActOn(crcFile, dev, e.addr, e.temporaryUid, e.time).body;
            body.Some? && body.value.FileWriteRequest? ==>
              InTransfer(dev, Request) && body.value.file == dev.transfer.file
              && body.value.size == |dev.transfer.data| % 0x1_0000_0000
  {
    hide NextChunk, LastDue, MarkDue;
  }

  lemma RequestIsOfTransfer(crcFile: CrcFile, dev: Device, e: Event)
    ensures var sent := Apply(crcFile, dev, e).sent;
            sent.Some? && sent.value.FileWriteRequest? ==>
              InTransfer(dev, Request) && sent.value.file == dev.transfer.file
              && sent.value.size == |dev.transfer.data| % 0x1_0000_0000
  {
    if e.TickAt? {
      RequestAct(crcFile, dev, e);
      hide ActOn;
    }
  }

  // The device is sent something about this file.
  ghost predicate IsAbout(file: byte, call: Option<Event>) {
    call.Some? && call.value.UserFile? && call.value.file == file
  }

  /**
    In every run, every file request goes out under the file number of the last accepted call, and tells the size
    of its contents.
  */
  lemma FileRequestsAreAsAsked(crcFile: CrcFile, run: seq<Event>, e: Event, file: byte, size: uint32)
    requires Apply(crcFile, Final(crcFile, NEW_DEVICE, run), e).sent == Some(FileWriteRequest(file, size))
    ensures IsAbout(file, LastFile(crcFile, run))
    ensures size == |LastFile(crcFile, run).value.contents| % 0x1_0000_0000
  {
    TransfersAreOfCalls(crcFile, run);
    RequestIsOfTransfer(crcFile, Final(crcFile, NEW_DEVICE, run), e);
    hide Apply, Final, LastFile;
  }

  // The bytes of the contents that follow the confirmed ones: as many as the chunk size, or as are left, cast to
  // a byte.
  ghost predicate IsPieceAfter(chunk: Blob, confirmed: seq<byte>, contents: seq<byte>, chunkSize: nat) {
    && confirmed + chunk <= contents
    && var rest := |contents| - |confirmed|;
       |chunk| == (if chunkSize < rest then chunkSize else rest) % 0x100
  }

  lemma CarriedPiece(file: byte, chunk: Blob, confirmed: seq<byte>, t: Transfer)
    requires CarriesNext(FileWriteChunk(file, chunk), confirmed, t)
    ensures file == t.file && IsPieceAfter(chunk, confirmed, t.data, t.chunkSize)
  {
  }

  /**
    In every timely run, every chunk goes out under the file number of the last accepted call, and is the piece of
    its contents after what has been confirmed: of the chunk size, or what is left, cast to a byte.
  */
  lemma FileChunksAreAsAsked(crcFile: CrcFile, run: seq<Event>, e: Event, file: byte, chunk: Blob)
    requires (forall x :: x in run ==> Timely(x)) && Timely(e)
    requires Apply(crcFile, Final(crcFile, NEW_DEVICE, run), e).sent == Some(FileWriteChunk(file, chunk))
    ensures IsAbout(file, LastFile(crcFile, run))
    ensures var call := LastFile(crcFile, run).value;
            var confirmed := Concat(Observe(crcFile, Watched(crcFile, run), e).chunks);
            IsPieceAfter(chunk, confirmed, call.contents, call.chunkSize)
  {
    TransfersAreOfCalls(crcFile, run);
    RunsAreFaithful(crcFile, run);
    ChunkOnWire(crcFile, run, e);
    hide Apply, Final, Watched, Observe, Concat, Coherent, Faithful, LastFile, CarriesNext, IsPieceAfter;
    var t := Final(crcFile, NEW_DEVICE, run).transfer;
    CarriedPiece(file, chunk, Concat(Observe(crcFile, Watched(crcFile, run), e).chunks), t);
  }

  /**
    In every timely run, every finalize message goes out under the file number of the last accepted call, with the
    checksum of its contents.
  */
  lemma FileFinalizesAreAsAsked(
    crcFile: CrcFile, run: seq<Event>, e: Event, file: byte, chunks: uint16, crc: uint64)
    requires (forall x :: x in run ==> Timely(x)) && Timely(e)
    requires Apply(crcFile, Final(crcFile, NEW_DEVICE, run), e).sent == Some(FileWriteFinalize(file, chunks, crc))
    ensures IsAbout(file, LastFile(crcFile, run)) && crc == crcFile(LastFile(crcFile, run).value.contents)
  {
    TransfersAreOfCalls(crcFile, run);
    RunsAreFaithful(crcFile, run);
    FinalizeOnWire(crcFile, run, e);
    hide Apply, Final, Watched, Concat, Coherent, Faithful, LastFile;
  }

  // ----- refused files -----

  lemma ActAsks(crcFile: CrcFile, dev: Device, e: Event)
    requires e.TickAt?
    ensures InTransfer(ActOn(crcFile, dev, e.addr, e.temporaryUid, e.time).dev, Request) ==> InTransfer(dev, Request)
  {
    RunningStays(dev, e.addr, e.time);
    hide NextChunk, ActRunning;
  }

  lemma OnlyCallsAsk(crcFile: CrcFile, dev: Device, e: Event)
    ensures InTransfer(Apply(crcFile, dev, e).dev, Request) ==> InTransfer(dev, Request) || Accepts(dev, e)
  {
    if e.TickAt? {
      ActAsks(crcFile, dev, e);
      hide ActOn;
    }
  }

  // None of these events is an accepted file.
  ghost predicate NothingAccepted(crcFile: CrcFile, dev: Device, more: seq<Event>) {
    forall i :: 0 <= i < |more| ==> !Accepts(Final(crcFile, dev, more[..i]), more[i])
  }

  lemma {:induction false} StaysUnasked(crcFile: CrcFile, dev: Device, more: seq<Event>)
    requires !InTransfer(dev, Request) && NothingAccepted(crcFile, dev, more)
    ensures !InTransfer(Final(crcFile, dev, more), Request)
  {
    if more != [] {
      var earlier := more[..|more| - 1];
      forall i | 0 <= i < |earlier|
        ensures !Accepts(Final(crcFile, dev, earlier[..i]), earlier[i])
      {
        assert earlier[..i] == more[..i];
      }
      StaysUnasked(crcFile, dev, earlier);
      OnlyCallsAsk(crcFile, Final(crcFile, dev, earlier), more[|more| - 1]);
      hide Apply;
    }
  }

  /** After a file request is refused, none goes out until another file has been accepted. */
  lemma RefusedIsNotAskedAgain(crcFile: CrcFile, dev: Device, ack: Event, more: seq<Event>, e: Event)
    requires Coherent(dev) && Awaiting(dev, FILE_WRITE_REQUEST)
    requires ack.AckIn? && ack.number == dev.pending.value.number && ack.code != 0
    requires NothingAccepted(crcFile, Apply(crcFile, dev, ack).dev, more)
    ensures var sent := Apply(crcFile, Final(crcFile, Apply(crcFile, dev, ack).dev, more), e).sent;
            sent.Some? ==> !sent.value.FileWriteRequest?
  {
    var d := Apply(crcFile, dev, ack).dev;
    assert !InTransfer(d, Request);
    hide Apply;
    StaysUnasked(crcFile, d, more);
    RequestIsOfTransfer(crcFile, Final(crcFile, d, more), e);
  }
}
