/** Ways through the system of FileSafety: where it can get from a given point, and the runs that take it there. */
module FilePaths {
  import opened Bytes
  import opened Messages
  import opened DeviceSpec
  import opened DeviceRuns
  import opened FileSafety
  import opened ParserSpec
  import opened ParserStreams
  import opened Codec

  // The message buffers of the hub and of the device, which are also those of their parsers.
  datatype Sizes = Sizes(hub: nat, device: nat)

  // Besides, how many messages of the hub anything in flight may be behind.
  datatype Setting = Setting(window: nat, sizes: Sizes)

  // What a parser reports: its buffer holds more than the message, and a length-prefixed one has something to carry.
  ghost predicate Heard(b: Body, size: nat) {
    ContentLength(b) < size && (IsVolatile(b) ==> Tail(b) != [])
  }

  // What can be written: the frame, with preamble and checksum, is built in the message buffer.
  ghost predicate Written(b: Option<Body>, size: nat) {
    b.Some? ==> ContentLength(b.value) + 2 <= size
  }

  /** These are the messages that are delivered when their frame is fed to an idle handler of that size. */
  lemma HeardIsDelivered(m: Message, pad: byte, size: nat)
    requires size > 0
    ensures Heard(m.body, size) <==> Encode(m, pad) in Feed(size, RESET, Frame(Encode(m, pad))).1
    ensures Written(Some(m.body), size) <==> |Frame(Encode(m, pad))| <= size
  {
    FrameIsDelivered(size, Encode(m, pad));
    EncodedIsWellFormed(m, pad);
    EncodedLength(m, pad);
    hide Encode, Feed, WellFormed, ContentLength;
  }

  // Every frame fits the buffer it is built in, and only what a parser reports is delivered.
  ghost predicate Audible(crcFile: CrcFile, sizes: Sizes, s: System, m: Move) {
    match m
    case HubActs(e) => Written(Apply(crcFile, s.hub, e).sent, sizes.hub)
    case OthersAct(extra) => Written(extra, sizes.hub)
    case DeviceGets(_, reply) =>
      s.toDevice != [] ==> Heard(s.toDevice[0].body, sizes.device) && Written(reply, sizes.device)
    case HubGets(_) => s.toHub != [] ==> Heard(s.toHub[0].body, sizes.hub)
    case _ => true
  }

  // The buffers hold what finding a device takes, and all that a transfer takes but for its chunks.
  ghost predicate Registers(sizes: Sizes) {
    23 <= sizes.hub && 24 <= sizes.device
  }

  ghost predicate NameFits(sizes: Sizes, name: Blob) {
    name != [] && |name| + 22 <= sizes.hub && |name| + 23 <= sizes.device
  }

  // A chunk of this length can be written, and is heard unless it is empty.
  ghost predicate ChunkFits(sizes: Sizes, length: nat) {
    length + 8 <= sizes.hub && length + 7 <= sizes.device
  }

  // What can happen next.
  ghost predicate Can(crcFile: CrcFile, c: Setting, s: System, m: Move) {
    Enabled(crcFile, s, m) && Audible(crcFile, c.sizes, s, m) && Within(s, c.window)
  }

  ghost predicate Path(crcFile: CrcFile, c: Setting, s: System, moves: seq<Move>, t: System)
    decreases |moves|
  {
    if moves == [] then s == t
    else Can(crcFile, c, s, moves[0]) && Path(crcFile, c, Do(crcFile, s, moves[0]), moves[1..], t)
  }

  ghost predicate Leads(crcFile: CrcFile, c: Setting, s: System, t: System) {
    exists moves :: Path(crcFile, c, s, moves, t)
  }

  lemma StaysPut(crcFile: CrcFile, c: Setting, s: System)
    ensures Leads(crcFile, c, s, s)
  {
    assert Path(crcFile, c, s, [], s);
  }

  lemma OneMove(crcFile: CrcFile, c: Setting, s: System, m: Move)
    requires Can(crcFile, c, s, m)
    ensures Leads(crcFile, c, s, Do(crcFile, s, m))
  {
    hide Enabled, Audible, Within, Do;
    assert [m][1..] == [];
    assert Path(crcFile, c, Do(crcFile, s, m), [], Do(crcFile, s, m));
    assert Path(crcFile, c, s, [m], Do(crcFile, s, m));
  }

  lemma {:induction false} PathConcat(
    crcFile: CrcFile, c: Setting, s: System, a: seq<Move>, t: System, b: seq<Move>, u: System)
    requires Path(crcFile, c, s, a, t) && Path(crcFile, c, t, b, u)
    ensures Path(crcFile, c, s, a + b, u)
    decreases |a|
  {
    hide Enabled, Audible, Within, Do;
    if a == [] {
      assert a + b == b;
    } else {
      assert (a + b)[1..] == a[1..] + b;
      PathConcat(crcFile, c, Do(crcFile, s, a[0]), a[1..], t, b, u);
    }
  }

  lemma LeadsOn(crcFile: CrcFile, c: Setting, s: System, t: System, u: System)
    requires Leads(crcFile, c, s, t) && Leads(crcFile, c, t, u)
    ensures Leads(crcFile, c, s, u)
  {
    var a :| Path(crcFile, c, s, a, t);
    var b :| Path(crcFile, c, t, b, u);
    PathConcat(crcFile, c, s, a, t, b, u);
  }

  lemma MoveOn(crcFile: CrcFile, c: Setting, s: System, t: System, m: Move)
    requires Leads(crcFile, c, s, t) && Can(crcFile, c, t, m)
    ensures Leads(crcFile, c, s, Do(crcFile, t, m))
  {
    hide Leads, Enabled, Audible, Within, Do;
    OneMove(crcFile, c, t, m);
    LeadsOn(crcFile, c, s, t, Do(crcFile, t, m));
  }

  // ----- as runs -----

  ghost predicate Goes(crcFile: CrcFile, c: Setting, s: System, m: Move, next: System) {
    Can(crcFile, c, s, m) && next == Do(crcFile, s, m)
  }

  // The systems a path passes through, and its moves.
  ghost predicate IsWay(crcFile: CrcFile, c: Setting, trace: seq<System>, moves: seq<Move>) {
    && |trace| == |moves| + 1
    && forall i :: 0 <= i < |moves| ==> Goes(crcFile, c, trace[i], moves[i], trace[i + 1])
  }

  lemma {:induction false} PathIsWay(crcFile: CrcFile, c: Setting, s: System, moves: seq<Move>, t: System)
    returns (trace: seq<System>)
    requires Path(crcFile, c, s, moves, t)
    ensures IsWay(crcFile, c, trace, moves) && trace[0] == s && trace[|moves|] == t
    decreases |moves|
  {
    hide Enabled, Audible, Within, Do;
    if moves == [] {
      trace := [s];
    } else {
      var rest := PathIsWay(crcFile, c, Do(crcFile, s, moves[0]), moves[1..], t);
      trace := [s] + rest;
      forall i | 0 <= i < |moves|
        ensures Goes(crcFile, c, trace[i], moves[i], trace[i + 1])
      {
        if i > 0 {
          assert Goes(crcFile, c, rest[i - 1], moves[1..][i - 1], rest[i]);
        }
      }
    }
  }

  // A way to t, and the move made there.
  lemma WayTo(crcFile: CrcFile, c: Setting, s: System, t: System, m: Move)
    returns (trace: seq<System>, moves: seq<Move>)
    requires Leads(crcFile, c, s, t) && Can(crcFile, c, t, m)
    ensures IsWay(crcFile, c, trace, moves) && trace[0] == s && moves != []
    ensures trace[|moves| - 1] == t && moves[|moves| - 1] == m
  {
    hide Enabled, Audible, Within, Do;
    var first :| Path(crcFile, c, s, first, t);
    var way := PathIsWay(crcFile, c, s, first, t);
    trace, moves := way + [Do(crcFile, t, m)], first + [m];
    forall i | 0 <= i < |moves|
      ensures Goes(crcFile, c, trace[i], moves[i], trace[i + 1])
    {
      if i < |first| {
        assert Goes(crcFile, c, way[i], first[i], way[i + 1]);
      }
    }
  }

  // One way after another.
  lemma WaysJoin(crcFile: CrcFile, c: Setting, a: seq<System>, ms: seq<Move>, b: seq<System>, ns: seq<Move>)
    requires IsWay(crcFile, c, a, ms) && IsWay(crcFile, c, b, ns) && a[|ms|] == b[0]
    ensures IsWay(crcFile, c, a + b[1..], ms + ns)
  {
    var trace, moves := a + b[1..], ms + ns;
    hide Enabled, Audible, Within, Do;
    forall i | 0 <= i < |moves|
      ensures Goes(crcFile, c, trace[i], moves[i], trace[i + 1])
    {
      if i < |ms| {
        assert Goes(crcFile, c, a[i], ms[i], a[i + 1]);
      } else {
        assert Goes(crcFile, c, b[i - |ms|], ns[i - |ms|], b[i - |ms| + 1]);
      }
    }
  }

  // A run in which every frame fits its buffer, and only what a parser reports is delivered.
  ghost predicate IsAudibleRun(crcFile: CrcFile, sizes: Sizes, trace: seq<System>, moves: seq<Move>) {
    IsRun(crcFile, trace, moves) && forall i :: 0 <= i < |moves| ==> Audible(crcFile, sizes, trace[i], moves[i])
  }

  lemma WayIsRun(crcFile: CrcFile, c: Setting, trace: seq<System>, moves: seq<Move>)
    requires IsWay(crcFile, c, trace, moves) && Starts(trace[0]) && c.window <= 0xFF
    ensures IsAudibleRun(crcFile, c.sizes, trace, moves)
  {
    hide Enabled, Audible, Do;
    forall i | 0 <= i < |moves|
      ensures Steps(crcFile, trace[i], moves[i], trace[i + 1]) && Audible(crcFile, c.sizes, trace[i], moves[i])
    {
      assert Goes(crcFile, c, trace[i], moves[i], trace[i + 1]);
    }
  }
}
