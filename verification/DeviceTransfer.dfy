/**
  A file transfer from the hub's side, whatever the environment answers and whenever: which bytes each
  chunk carries, what has been confirmed, and when and with what the transfer is finalized.
*/
module DeviceTransfer {
  import opened Bytes
  import opened Messages
  import opened DeviceSpec
  import opened DeviceRuns
  import opened Sequences

  // A device with a record of its transfer: the chunks whose Ok the scheduler has consumed, the chunk
  // sent last, and the chunk counter the transfer started from.
  datatype Watch = Watch(dev: Device, chunks: seq<Blob>, last: Option<Blob>, base: nat)

  ghost predicate ConsumesOk(dev: Device, e: Event) {
    && e.TickAt? && dev.nextCall <= e.time && InTransfer(dev, Sending)
    && !dev.transfer.firstPacket && dev.transfer.packetAck == Some(OK)
  }

  ghost predicate StartsFile(dev: Device, e: Event) {
    e.UserFile? && dev.state == Running
  }

  ghost function Observe(crcFile: CrcFile, w: Watch, e: Event): Watch {
    var o := Apply(crcFile, w.dev, e);
    if StartsFile(w.dev, e) then Watch(o.dev, [], None, w.dev.transfer.chunkSent)
    else
      var chunks := if ConsumesOk(w.dev, e) && w.last.Some? then w.chunks + [w.last.value] else w.chunks;
      var last := if o.sent.Some? && o.sent.value.FileWriteChunk? then Some(o.sent.value.chunk) else w.last;
      Watch(o.dev, chunks, last, w.base)
  }

  ghost function Watched(crcFile: CrcFile, run: seq<Event>): Watch {
    if run == [] then Watch(NEW_DEVICE, [], None, 0)
    else Observe(crcFile, Watched(crcFile, run[..|run| - 1]), run[|run| - 1])
  }

  // The confirmed bytes are the file up to the offset, and an outstanding chunk is the next piece of it.
  ghost predicate Faithful(w: Watch) {
    var t := w.dev.transfer;
    w.dev.state == FileTransfer && t.state != Cancel ==>
      && Concat(w.chunks) == t.data[..t.sentOffset]
      && t.chunkSent == w.base + |w.chunks|
      && (t.firstPacket ==> w.chunks == [])
      && (t.state == Sending && (Awaiting(w.dev, FILE_WRITE_CHUNK) || t.packetAck.Some?) ==>
           w.last == Some(NextChunk(t)))
      && (t.state == Request ==> t.firstPacket)
      && (t.state != Finalize && t.data != [] ==> t.sentOffset < |t.data|)
  }

  lemma NextChunkExtends(t: Transfer, chunks: seq<Blob>)
    requires Concat(chunks) == t.data[..t.sentOffset]
    ensures Concat(chunks + [NextChunk(t)]) == t.data[..t.sentOffset + |NextChunk(t)|]
  {
    ConcatOneMore(chunks, NextChunk(t));
  }

  // ----- a tick, with its timeout check set aside -----

  ghost function ActBy(crcFile: CrcFile, dev: Device, e: Event): Act
    requires e.TickAt?
  {
    ActOn(crcFile, dev, e.addr, e.temporaryUid, e.time)
  }

  // A timeout only ever cancels a transfer.
  lemma TickByAct(crcFile: CrcFile, dev: Device, e: Event)
    requires e.TickAt? && dev.nextCall <= e.time
    ensures var o, act := Apply(crcFile, dev, e), ActBy(crcFile, dev, e);
            && o.sent == act.body
            && (o.dev.state == FileTransfer && o.dev.transfer.state != Cancel ==>
                  && act.dev.state == FileTransfer && o.dev.transfer == act.dev.transfer
                  && (act.body.Some? ==> o.dev.pending.Some? && o.dev.pending.value.msgType == TypeOf(act.body.value))
                  && (act.body == None ==> o.dev.pending == act.dev.pending))
  {
    hide ActOn;
  }

  lemma TickTooEarly(crcFile: CrcFile, dev: Device, e: Event)
    requires e.TickAt? && e.time < dev.nextCall
    ensures var o := Apply(crcFile, dev, e);
            o.sent == None && (o.dev.state == FileTransfer && o.dev.transfer.state != Cancel ==> o.dev == dev)
  {
  }

  // What a turn of `Sending` does, by what there is to do.
  lemma SendingAct(dev: Device, addr: byte)
    requires Coherent(dev) && InTransfer(dev, Sending)
    ensures var act, t := ActSending(dev, addr), dev.transfer;
            var u := act.dev.transfer;
            && act.dev == dev.(transfer := u)
            && u.data == t.data && u.file == t.file && u.chunkSize == t.chunkSize
            && !u.firstPacket && u.packetAck == None
            && u.state != Request
            && (act.body.Some? ==> act.body.value == FileWriteChunk(t.file, NextChunk(u)) && u.state == Sending)
            && (act.body == None && u.state == Sending ==> dev.pending == None)
            && if !t.firstPacket && t.packetAck == Some(OK)
               then
                 && t.sentOffset + |NextChunk(t)| <= |t.data|
                 && u.sentOffset == t.sentOffset + |NextChunk(t)| && u.chunkSent == t.chunkSent + 1
                 && u.state == (if u.sentOffset == |t.data| then Finalize else Sending)
               else
                 && u.sentOffset == t.sentOffset && u.chunkSent == t.chunkSent && u.state != Finalize
                 && (!t.firstPacket && t.packetAck == None ==> u.state == Cancel)
  {
    var t := dev.transfer;
    ChunkIsLeft(t);
    SameChunk(t, t.(packetAck := None));
    SameChunk(t, t.(firstPacket := false));
    hide NextChunk;
  }

  lemma SendingIsFaithful(crcFile: CrcFile, w: Watch, e: Event)
    requires Coherent(w.dev) && Faithful(w) && e.TickAt? && InTransfer(w.dev, Sending)
    ensures Faithful(Observe(crcFile, w, e))
  {
    hide NextChunk, Concat, Apply, ActSending;
    if e.time < w.dev.nextCall {
      TickTooEarly(crcFile, w.dev, e);
    } else {
      TickByAct(crcFile, w.dev, e);
      SendingAct(w.dev, e.addr);
      NextChunkExtends(w.dev.transfer, w.chunks);
    }
  }

  lemma RunningStays(dev: Device, addr: byte, time: int)
    ensures ActRunning(dev, addr, time).dev.state == dev.state
    ensures var body := ActRunning(dev, addr, time).body;
            body.Some? ==> !body.value.FileWriteChunk? && !body.value.FileWriteFinalize?
  {
    hide LastDue, MarkDue;
  }

  lemma TickIsFaithful(crcFile: CrcFile, w: Watch, e: Event)
    requires Coherent(w.dev) && Faithful(w) && e.TickAt? && !InTransfer(w.dev, Sending)
    ensures Faithful(Observe(crcFile, w, e))
  {
    hide NextChunk, Concat, Apply, ActRunning, ActSending;
    if e.time < w.dev.nextCall {
      TickTooEarly(crcFile, w.dev, e);
    } else {
      TickByAct(crcFile, w.dev, e);
      assert ActRunning(w.dev, e.addr, e.time).dev.state == w.dev.state by {
        RunningStays(w.dev, e.addr, e.time);
      }
    }
  }

  lemma AnswerIsFaithful(crcFile: CrcFile, w: Watch, e: Event)
    requires Coherent(w.dev) && Faithful(w) && !e.TickAt?
    ensures Faithful(Observe(crcFile, w, e))
  {
    assert w.dev.transfer.data[..0] == [] == Concat([]);
    if e.UserFile? {
      assert e.contents[..0] == [];
    }
    if e.AckIn? && Answers(w.dev, e.number) {
      var t := w.dev.transfer;
      SameChunk(t, t.(packetAck := Some(e.code)));
    }
    hide NextChunk, Concat;
  }

  lemma EventIsFaithful(crcFile: CrcFile, w: Watch, e: Event)
    requires Coherent(w.dev) && Faithful(w)
    ensures Faithful(Observe(crcFile, w, e))
  {
    hide Coherent, Faithful, Observe;
    if !e.TickAt? {
      AnswerIsFaithful(crcFile, w, e);
    } else if InTransfer(w.dev, Sending) {
      SendingIsFaithful(crcFile, w, e);
    } else {
      TickIsFaithful(crcFile, w, e);
    }
  }

  /** In any environment, every transfer of every run is faithful to its file. */
  lemma {:induction false} RunsAreFaithful(crcFile: CrcFile, run: seq<Event>)
    requires forall e :: e in run ==> Timely(e)
    ensures Watched(crcFile, run).dev == Final(crcFile, NEW_DEVICE, run)
    ensures Coherent(Watched(crcFile, run).dev) && Faithful(Watched(crcFile, run))
  {
    RunsAreCoherent(crcFile, NEW_DEVICE, run);
    if run != [] {
      var earlier, e := run[..|run| - 1], run[|run| - 1];
      assert e in run;
      RunsAreFaithful(crcFile, earlier);
      hide Coherent, Faithful, Apply;
      EventIsFaithful(crcFile, Watched(crcFile, earlier), e);
    }
  }

  // ----- two turns in full -----

  // Whatever else awaits an answer, a device in Request asks again on its turn.
  lemma RequestGoesOut(crcFile: CrcFile, dev: Device, e: Event)
    requires InTransfer(dev, Request) && e.TickAt? && e.addr != RESERVED_UID
    requires dev.nextCall <= e.time && e.time - e.now < ACK_TIMEOUT
    ensures var o, t := Apply(crcFile, dev, e), dev.transfer;
            && o.sent == Some(FileWriteRequest(t.file, |t.data| % 0x1_0000_0000))
            && o.dev == dev.(nextCall := e.time + 50,
                             pending := Some(Pending((e.number + 1) % 0x100, FILE_WRITE_REQUEST, e.now)))
  {
    hide ActRunning, ActSending;
  }

  lemma FirstChunkGoesOut(crcFile: CrcFile, dev: Device, e: Event)
    requires InTransfer(dev, Sending) && dev.transfer.firstPacket && e.TickAt? && e.addr != RESERVED_UID
    requires dev.nextCall <= e.time && e.time - e.now < ACK_TIMEOUT
    ensures var o, t := Apply(crcFile, dev, e), dev.transfer;
            && o.sent == Some(FileWriteChunk(t.file, NextChunk(t)))
            && o.dev == dev.(nextCall := e.time + 100, transfer := t.(firstPacket := false),
                             pending := Some(Pending((e.number + 1) % 0x100, FILE_WRITE_CHUNK, e.now)))
  {
    hide NextChunk, ActRunning;
  }

  // ----- what goes out -----

  // A chunk message that carries the piece of t's file after the confirmed bytes: the configured
  // length, or what is left, cast to a byte.
  ghost predicate CarriesNext(body: Body, confirmed: seq<byte>, t: Transfer) {
    && confirmed <= t.data
    && var rest := |t.data| - |confirmed|;
       var length := (if t.chunkSize < rest then t.chunkSize else rest) % 0x100;
       body == FileWriteChunk(t.file, t.data[|confirmed|..|confirmed| + length])
  }

  ghost predicate IsChunk(sent: Option<Body>) {
    sent.Some? && sent.value.FileWriteChunk?
  }

  ghost predicate IsFinalize(sent: Option<Body>) {
    sent.Some? && sent.value.FileWriteFinalize?
  }

  // A finalize message for a completely confirmed file.
  ghost predicate Finalizes(crcFile: CrcFile, body: Body, w: Watch) {
    && Concat(w.chunks) == w.dev.transfer.data
    && body == FileWriteFinalize(w.dev.transfer.file, (w.base + |w.chunks|) % 0x1_0000, crcFile(w.dev.transfer.data))
  }

  // What makes every piece of a file survive the cast of its length to a byte, and hold something.
  ghost predicate Cuttable(data: seq<byte>, chunkSize: nat) {
    data != [] && chunkSize > 0 && (chunkSize <= 0xFF || |data| <= 0xFF)
  }

  ghost predicate Ordinary(t: Transfer) {
    Cuttable(t.data, t.chunkSize)
  }

  // The longest chunk a transfer comes to with so much left to send; it gets no further than an empty one.
  ghost function LongestPiece(rest: nat, chunkSize: nat): nat {
    var piece := Piece(rest, chunkSize);
    if piece == 0 then 0
    else
      var later := LongestPiece(rest - piece, chunkSize);
      if piece < later then later else piece
  }

  // What is left to send.
  ghost function Rest(t: Transfer): nat {
    |t.data| - t.sentOffset
  }

  // The next chunk is none too long, nor is any after it.
  lemma LongestCovers(t: Transfer)
    ensures |NextChunk(t)| == Piece(Rest(t), t.chunkSize) <= LongestPiece(Rest(t), t.chunkSize)
    ensures LongestPiece(Rest(t) - |NextChunk(t)|, t.chunkSize) <= LongestPiece(Rest(t), t.chunkSize)
  {
    hide Piece;
  }

  lemma {:induction false} LongestOfCuttable(rest: nat, chunkSize: nat)
    requires chunkSize > 0 && (chunkSize <= 0xFF || rest <= 0xFF)
    ensures LongestPiece(rest, chunkSize) == if chunkSize < rest then chunkSize else rest
  {
    if chunkSize < rest {
      LongestOfCuttable(rest - chunkSize, chunkSize);
    }
  }

  lemma OnlySendingSendsChunks(crcFile: CrcFile, dev: Device, e: Event)
    requires e.TickAt? && !InTransfer(dev, Sending)
    ensures var sent := Apply(crcFile, dev, e).sent; !(sent.Some? && sent.value.FileWriteChunk?)
  {
    hide Apply, ActSending, ActRunning;
    if e.time < dev.nextCall {
      TickTooEarly(crcFile, dev, e);
    } else {
      TickByAct(crcFile, dev, e);
      RunningStays(dev, e.addr, e.time);
    }
  }

  lemma CarriesSame(sent: Option<Body>, confirmed: seq<byte>, t: Transfer, u: Transfer)
    requires t.data == u.data && t.file == u.file && t.chunkSize == u.chunkSize
    ensures sent.Some? ==> (CarriesNext(sent.value, confirmed, t) <==> CarriesNext(sent.value, confirmed, u))
  {
  }

  lemma NextChunkCarries(t: Transfer)
    ensures CarriesNext(FileWriteChunk(t.file, NextChunk(t)), t.data[..t.sentOffset], t)
    ensures Ordinary(t) && t.sentOffset < |t.data| ==> NextChunk(t) != []
  {
  }

  lemma ChunkOfTurn(crcFile: CrcFile, w: Watch, e: Event)
    requires Coherent(w.dev) && Faithful(w) && e.TickAt? && InTransfer(w.dev, Sending) && w.dev.nextCall <= e.time
    ensures var sent, t := Apply(crcFile, w.dev, e).sent, w.dev.transfer;
            sent.Some? ==>
              && CarriesNext(sent.value, Concat(Observe(crcFile, w, e).chunks), t)
              && (Ordinary(t) && IsChunk(sent) ==> sent.value.chunk != [])
  {
    var t, u := w.dev.transfer, ActSending(w.dev, e.addr).dev.transfer;
    SendingAct(w.dev, e.addr);
    TickByAct(crcFile, w.dev, e);
    NextChunkExtends(t, w.chunks);
    NextChunkCarries(u);
    hide NextChunk, Concat, Apply, ActSending, CarriesNext;
    assert Concat(Observe(crcFile, w, e).chunks) == u.data[..u.sentOffset];
    CarriesSame(Apply(crcFile, w.dev, e).sent, u.data[..u.sentOffset], u, t);
  }

  lemma SentChunk(crcFile: CrcFile, w: Watch, e: Event)
    requires Coherent(w.dev) && Faithful(w)
    ensures var sent, t := Apply(crcFile, w.dev, e).sent, w.dev.transfer;
            IsChunk(sent) ==>
              && InTransfer(w.dev, Sending)
              && CarriesNext(sent.value, Concat(Observe(crcFile, w, e).chunks), t)
              && (Ordinary(t) ==> sent.value.chunk != [])
  {
    if e.TickAt? && InTransfer(w.dev, Sending) {
      if e.time < w.dev.nextCall {
        TickTooEarly(crcFile, w.dev, e);
        hide Apply;
      } else {
        ChunkOfTurn(crcFile, w, e);
        hide Apply;
      }
    } else if e.TickAt? {
      OnlySendingSendsChunks(crcFile, w.dev, e);
      hide Apply;
    }
  }

  /**
    Every chunk put on the wire, a repeated one included, is the piece of the file that follows what has
    been confirmed; of a file that can be cut into pieces of its chunk size, it is not empty either.
  */
  lemma ChunkOnWire(crcFile: CrcFile, run: seq<Event>, e: Event)
    requires (forall x :: x in run ==> Timely(x)) && Timely(e)
    ensures var w := Watched(crcFile, run);
            var sent, t := Apply(crcFile, w.dev, e).sent, w.dev.transfer;
            IsChunk(sent) ==>
              && InTransfer(w.dev, Sending)
              && CarriesNext(sent.value, Concat(Observe(crcFile, w, e).chunks), t)
              && (Ordinary(t) ==> sent.value.chunk != [])
  {
    RunsAreFaithful(crcFile, run);
    hide Watched, Final, Concat, Coherent, Faithful, Apply, Observe, CarriesNext;
    SentChunk(crcFile, Watched(crcFile, run), e);
  }

  lemma OnlyTicksSend(crcFile: CrcFile, dev: Device, e: Event)
    requires !e.TickAt?
    ensures Apply(crcFile, dev, e).sent == None
  {
  }

  lemma SentFinalize(crcFile: CrcFile, w: Watch, e: Event)
    requires Coherent(w.dev) && Faithful(w)
    ensures var sent := Apply(crcFile, w.dev, e).sent;
            IsFinalize(sent) ==> InTransfer(w.dev, Finalize) && Finalizes(crcFile, sent.value, w)
  {
    hide Apply, Concat, NextChunk, ActSending, ActRunning;
    var t := w.dev.transfer;
    assert t.data[..|t.data|] == t.data;
    if !e.TickAt? {
      OnlyTicksSend(crcFile, w.dev, e);
    } else if e.time < w.dev.nextCall {
      TickTooEarly(crcFile, w.dev, e);
    } else {
      TickByAct(crcFile, w.dev, e);
      RunningStays(w.dev, e.addr, e.time);
      if InTransfer(w.dev, Sending) {
        SendingAct(w.dev, e.addr);
      }
    }
  }

  /**
    A transfer is finalized only once every byte of the file has been confirmed, with the checksum of
    exactly those bytes; the chunk count sent is that of the confirmed chunks on top of whatever the
    counter held when the file was accepted.
  */
  lemma FinalizeOnWire(crcFile: CrcFile, run: seq<Event>, e: Event)
    requires (forall x :: x in run ==> Timely(x)) && Timely(e)
    ensures var w := Watched(crcFile, run);
            var sent := Apply(crcFile, w.dev, e).sent;
            IsFinalize(sent) ==> InTransfer(w.dev, Finalize) && Finalizes(crcFile, sent.value, w)
  {
    RunsAreFaithful(crcFile, run);
    hide Watched, Final, Coherent, Faithful, Apply, Finalizes;
    SentFinalize(crcFile, Watched(crcFile, run), e);
  }

  // ----- how many chunks -----

  // All confirmed chunks are full, except that the last of a complete file may be shorter.
  ghost predicate Counted(w: Watch) {
    var t, n := w.dev.transfer, |w.chunks|;
    w.dev.state == FileTransfer && t.state != Cancel && Ordinary(t) ==>
      && (t.state != Finalize ==> t.sentOffset == n * t.chunkSize)
      && (t.state == Finalize ==> n > 0 && (n - 1) * t.chunkSize < |t.data| <= n * t.chunkSize)
  }

  lemma NextChunkLength(t: Transfer)
    requires Ordinary(t)
    ensures |NextChunk(t)| == if t.chunkSize < |t.data| - t.sentOffset then t.chunkSize else |t.data| - t.sentOffset
  {
  }

  lemma OneMoreChunk(n: nat, size: nat)
    ensures (n + 1) * size == n * size + size
  {
  }

  // Where a transfer that goes on stands after an event.
  ghost predicate OffsetFollows(w: Watch, e: Event, next: Watch) {
    var t, u := w.dev.transfer, next.dev.transfer;
    next.dev.state == FileTransfer && u.state != Cancel ==>
      if StartsFile(w.dev, e) then next.chunks == [] && u.sentOffset == 0 && u.state == Request
      else
        && w.dev.state == FileTransfer && t.state != Cancel && u.data == t.data && u.chunkSize == t.chunkSize
        && if ConsumesOk(w.dev, e)
           then
             && u.sentOffset == t.sentOffset + |NextChunk(t)| && |next.chunks| == |w.chunks| + 1
             && u.state == (if u.sentOffset == |t.data| then Finalize else Sending)
           else
             && next.chunks == w.chunks && u.sentOffset == t.sentOffset
             && (u.state == Finalize <==> t.state == Finalize)
  }

  lemma OffsetTicks(crcFile: CrcFile, w: Watch, e: Event)
    requires Coherent(w.dev) && Faithful(w) && e.TickAt?
    ensures OffsetFollows(w, e, Observe(crcFile, w, e))
  {
    hide NextChunk, Concat, ActSending, ActRunning, Apply;
    if e.time < w.dev.nextCall {
      TickTooEarly(crcFile, w.dev, e);
    } else {
      TickByAct(crcFile, w.dev, e);
      RunningStays(w.dev, e.addr, e.time);
      if InTransfer(w.dev, Sending) {
        SendingAct(w.dev, e.addr);
      }
    }
  }

  lemma OffsetMoves(crcFile: CrcFile, w: Watch, e: Event)
    requires Coherent(w.dev) && Faithful(w)
    ensures OffsetFollows(w, e, Observe(crcFile, w, e))
  {
    if e.TickAt? {
      hide OffsetFollows;
      OffsetTicks(crcFile, w, e);
    } else {
      hide NextChunk, Concat;
    }
  }

  lemma EventIsCounted(crcFile: CrcFile, w: Watch, e: Event)
    requires Coherent(w.dev) && Faithful(w) && Counted(w)
    ensures Counted(Observe(crcFile, w, e))
  {
    var t, n := w.dev.transfer, |w.chunks|;
    OffsetMoves(crcFile, w, e);
    OneMoreChunk(n, t.chunkSize);
    if Ordinary(t) {
      NextChunkLength(t);
    }
    hide Observe, NextChunk, Concat, Coherent, Faithful;
  }

  lemma {:induction false} RunsAreCounted(crcFile: CrcFile, run: seq<Event>)
    requires forall e :: e in run ==> Timely(e)
    ensures Counted(Watched(crcFile, run))
  {
    if run != [] {
      var earlier, e := run[..|run| - 1], run[|run| - 1];
      RunsAreCounted(crcFile, earlier);
      RunsAreFaithful(crcFile, earlier);
      EventIsCounted(crcFile, Watched(crcFile, earlier), e);
    }
  }

  ghost function Pieces(size: nat, chunkSize: nat): nat
    requires chunkSize > 0
  {
    (size + chunkSize - 1) / chunkSize
  }

  // The number of chunks a file makes, and when a finalize message tells it.
  ghost predicate TellsPieces(body: Body, w: Watch)
    requires Ordinary(w.dev.transfer)
  {
    var pieces := Pieces(|w.dev.transfer.data|, w.dev.transfer.chunkSize);
    && |w.chunks| == pieces
    && (pieces < 0x1_0000 ==> (body.FileWriteFinalize? && body.chunks == pieces <==> w.base % 0x1_0000 == 0))
  }

  lemma SmallProduct(d: int, m: int, r: int)
    requires 0 <= r < m && 0 <= d * m + r < m
    ensures d == 0
  {
    assert d >= 1 ==> d * m >= m;
    assert d <= -1 ==> d * m <= -m;
  }

  lemma RoundedUp(size: nat, chunkSize: nat, n: nat)
    requires chunkSize > 0 && n > 0 && (n - 1) * chunkSize < size <= n * chunkSize
    ensures Pieces(size, chunkSize) == n
  {
    var q, r := Pieces(size, chunkSize), (size + chunkSize - 1) % chunkSize;
    assert size + chunkSize - 1 == q * chunkSize + r;
    assert (n - 1) * chunkSize + chunkSize == n * chunkSize;
    assert (q - n) * chunkSize + r == size + chunkSize - 1 - n * chunkSize < chunkSize;
    assert (q - n + 1) * chunkSize == (q - n) * chunkSize + chunkSize;
    SmallProduct(q - n, chunkSize, r);
  }

  lemma CountOfComplete(w: Watch)
    requires Counted(w) && InTransfer(w.dev, Finalize)
    ensures var t := w.dev.transfer;
            Ordinary(t) ==> |w.chunks| == Pieces(|t.data|, t.chunkSize)
  {
    if Ordinary(w.dev.transfer) {
      RoundedUp(|w.dev.transfer.data|, w.dev.transfer.chunkSize, |w.chunks|);
    }
    hide Pieces;
  }

  lemma SameModulo(base: nat, n: nat)
    ensures n < 0x1_0000 ==> ((base + n) % 0x1_0000 == n <==> base % 0x1_0000 == 0)
  {
  }

  lemma CountOfFinalize(crcFile: CrcFile, body: Body, w: Watch)
    requires Finalizes(crcFile, body, w) && Counted(w) && InTransfer(w.dev, Finalize) && Ordinary(w.dev.transfer)
    ensures TellsPieces(body, w)
  {
    hide Pieces, Concat;
    CountOfComplete(w);
    SameModulo(w.base, |w.chunks|);
  }

  /**
    The chunk count of a finalize message is right, the file's length in chunks rounded up, exactly when
    the counter was a multiple of 65536 at the start; `sendFile` does not reset it.
  */
  lemma FinalizeCount(crcFile: CrcFile, run: seq<Event>, e: Event)
    requires (forall x :: x in run ==> Timely(x)) && Timely(e)
    ensures var w := Watched(crcFile, run);
            var sent := Apply(crcFile, w.dev, e).sent;
            IsFinalize(sent) && Ordinary(w.dev.transfer) ==> TellsPieces(sent.value, w)
  {
    FinalizeOnWire(crcFile, run, e);
    RunsAreCounted(crcFile, run);
    hide Watched, Final, Apply, Finalizes, TellsPieces, Counted;
    var w := Watched(crcFile, run);
    var sent := Apply(crcFile, w.dev, e).sent;
    if IsFinalize(sent) && Ordinary(w.dev.transfer) {
      CountOfFinalize(crcFile, sent.value, w);
    }
  }

  lemma NextStartsFrom(crcFile: CrcFile, w: Watch, ack: Event, start: Event)
    requires Faithful(w) && InTransfer(w.dev, Finalize) && Awaiting(w.dev, FILE_WRITE_FINALIZE)
    requires ack.AckIn? && Answers(w.dev, ack.number) && start.UserFile?
    ensures var acked := Observe(crcFile, w, ack);
            StartsFile(acked.dev, start) && Observe(crcFile, acked, start).base == w.base + |w.chunks|
  {
  }

  lemma WatchedOneMore(crcFile: CrcFile, run: seq<Event>, e: Event)
    ensures Watched(crcFile, run + [e]) == Observe(crcFile, Watched(crcFile, run), e)
  {
    assert (run + [e])[..|run|] == run;
    hide Observe;
  }

  /**
    In every timely run: after a transfer the device acknowledged, the next one starts from the count of the
    last, which is more by the number of chunks the last file makes.
  */
  lemma CountCarriesOver(crcFile: CrcFile, run: seq<Event>, ack: Event, start: Event)
    requires forall e :: e in run ==> Timely(e)
    requires var dev := Watched(crcFile, run).dev;
             InTransfer(dev, Finalize) && Awaiting(dev, FILE_WRITE_FINALIZE)
             && ack.AckIn? && Answers(dev, ack.number) && start.UserFile?
    ensures var w, next := Watched(crcFile, run), Watched(crcFile, run + [ack, start]);
            && StartsFile(Watched(crcFile, run + [ack]).dev, start) && next.base == w.base + |w.chunks|
            && var t := w.dev.transfer;
               Ordinary(t) ==> next.base == w.base + Pieces(|t.data|, t.chunkSize)
  {
    RunsAreFaithful(crcFile, run);
    RunsAreCounted(crcFile, run);
    WatchedOneMore(crcFile, run, ack);
    assert run + [ack, start] == run + [ack] + [start];
    WatchedOneMore(crcFile, run + [ack], start);
    hide Observe, Watched, Apply, Pieces, Faithful, Counted, Final, Coherent, Ordinary;
    NextStartsFrom(crcFile, Watched(crcFile, run), ack, start);
    CountOfComplete(Watched(crcFile, run));
  }
}
