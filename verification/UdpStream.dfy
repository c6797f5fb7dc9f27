/**
 * The UDP stream of acquisition frames: frames are collected into packets, packets are
 * encoded byte by byte in little-endian order and handed to a socket that may refuse them.
 */
module UdpStream {

  type Byte = b: int | 0 <= b < 0x100
  type UInt64 = v: int | 0 <= v < 0x1_0000_0000_0000_0000
  type Int64 = v: int | -0x8000_0000_0000_0000 <= v < 0x8000_0000_0000_0000
  type Int16 = v: int | -0x8000 <= v < 0x8000

  const FRAME_COLUMNS := 48
  const FRAME_SIZE := 112
  const PACKET_VERSION := 1
  const PACKET_HEADER_SIZE := 40
  const PACKET_FLAGS := 1
  const PACKET_MAGIC: seq<Byte> := ['J' as int, 'N' as int, 'D' as int, 'A' as int]
  const DEFAULT_MAX_FRAMES := 10

  type Samples = s: seq<Int16> | |s| == FRAME_COLUMNS witness seq(FRAME_COLUMNS, i => 0)

  datatype Frame = Frame(sequence: UInt64, capturedAtUs: Int64, samples: Samples)

  // ---- Little-endian numbers ----

  function Pow256(n: nat): (p: int)
    ensures p > 0
  {
    if n == 0 then 1 else 0x100 * Pow256(n - 1)
  }

  function LittleEndian(v: nat, n: nat): (s: seq<Byte>)
    ensures |s| == n
  {
    if n == 0 then [] else [v % 0x100] + LittleEndian(v / 0x100, n - 1)
  }

  function Number(s: seq<Byte>): nat {
    if s == [] then 0 else s[0] + 0x100 * Number(s[1..])
  }

  lemma {:induction false} NumberInvertsLittleEndian(v: nat, n: nat)
    requires v < Pow256(n)
    ensures Number(LittleEndian(v, n)) == v
  {
    if n > 0 {
      var s := LittleEndian(v, n);
      assert s[1..] == LittleEndian(v / 0x100, n - 1);
      NumberInvertsLittleEndian(v / 0x100, n - 1);
    }
  }

  lemma Powers()
    ensures Pow256(2) == 0x1_0000
    ensures Pow256(4) == 0x1_0000_0000
    ensures Pow256(8) == 0x1_0000_0000_0000_0000
  {
    assert Pow256(1) == 0x100 && Pow256(3) == 0x100_0000;
    assert Pow256(5) == 0x100_0000_0000 && Pow256(6) == 0x1_0000_0000_0000 && Pow256(7) == 0x100_0000_0000_0000;
  }

  /** A negative number is sent as its two's complement. */
  function Unsigned16(v: Int16): int {
    if v < 0 then v + 0x1_0000 else v
  }

  function Unsigned64(v: Int64): UInt64 {
    if v < 0 then v + 0x1_0000_0000_0000_0000 else v
  }

  function Signed16(v: int): Int16
    requires 0 <= v < 0x1_0000
  {
    if v < 0x8000 then v else v - 0x1_0000
  }

  function Signed64(v: UInt64): Int64 {
    if v < 0x8000_0000_0000_0000 then v else v - 0x1_0000_0000_0000_0000
  }

  // ---- Packets ----

  function SampleBytes(samples: seq<Int16>): (s: seq<Byte>)
    ensures |s| == 2 * |samples|
  {
    if samples == [] then [] else LittleEndian(Unsigned16(samples[0]), 2) + SampleBytes(samples[1..])
  }

  function FrameBytes(f: Frame): (s: seq<Byte>)
    ensures |s| == FRAME_SIZE
  {
    LittleEndian(f.sequence, 8) + LittleEndian(Unsigned64(f.capturedAtUs), 8) + SampleBytes(f.samples)
  }

  function AllFrameBytes(frames: seq<Frame>): (s: seq<Byte>)
    ensures |s| == FRAME_SIZE * |frames|
  {
    if frames == [] then [] else FrameBytes(frames[0]) + AllFrameBytes(frames[1..])
  }

  /** The first 20 bytes; the number of frames is cut to 16 bits. */
  function Preamble(n: nat): (s: seq<Byte>)
    ensures |s| == 16
  {
    PACKET_MAGIC + LittleEndian(PACKET_VERSION, 2) + LittleEndian(PACKET_HEADER_SIZE, 2)
    + LittleEndian(FRAME_COLUMNS, 2) + LittleEndian(n % 0x1_0000, 2) + LittleEndian(PACKET_FLAGS, 4)
  }

  function Span(first: Frame, last: Frame): (s: seq<Byte>)
    ensures |s| == 24
  {
    LittleEndian(first.sequence, 8) + LittleEndian(last.sequence, 8) + LittleEndian(Unsigned64(last.capturedAtUs), 8)
  }

  function Packet(frames: seq<Frame>): (s: seq<Byte>)
    requires frames != []
    ensures |s| == PACKET_HEADER_SIZE + FRAME_SIZE * |frames|
  {
    Preamble(|frames|) + Span(frames[0], frames[|frames| - 1]) + AllFrameBytes(frames)
  }

  // ---- A receiver ----

  datatype Received = Malformed | Frames(frames: seq<Frame>, firstSequence: UInt64, lastSequence: UInt64, lastCapturedAtUs: Int64)

  lemma {:induction false} NumberIsBounded(s: seq<Byte>)
    ensures Number(s) < Pow256(|s|)
  {
    if s != [] {
      NumberIsBounded(s[1..]);
    }
  }

  function UInt64At(s: seq<Byte>, at: nat): UInt64
    requires at + 8 <= |s|
  {
    NumberIsBounded(s[at..at + 8]);
    Powers();
    Number(s[at..at + 8])
  }

  function UInt16At(s: seq<Byte>, at: nat): (v: int)
    requires at + 2 <= |s|
    ensures 0 <= v < 0x1_0000
  {
    NumberIsBounded(s[at..at + 2]);
    Powers();
    Number(s[at..at + 2])
  }

  function SamplesAt(s: seq<Byte>, at: nat, n: nat): (samples: seq<Int16>)
    requires at + 2 * n <= |s|
    ensures |samples| == n
    decreases n
  {
    if n == 0 then [] else [Signed16(UInt16At(s, at))] + SamplesAt(s, at + 2, n - 1)
  }

  function FrameAt(s: seq<Byte>, at: nat): Frame
    requires at + FRAME_SIZE <= |s|
  {
    Frame(UInt64At(s, at), Signed64(UInt64At(s, at + 8)), SamplesAt(s, at + 16, FRAME_COLUMNS))
  }

  function FramesAt(s: seq<Byte>, at: nat, n: nat): seq<Frame>
    requires at + FRAME_SIZE * n <= |s|
    decreases n
  {
    if n == 0 then [] else [FrameAt(s, at)] + FramesAt(s, at + FRAME_SIZE, n - 1)
  }

  /** Reads a packet by the fields of its header; its length must be what the header says. */
  function Receive(s: seq<Byte>): Received {
    if |s| < PACKET_HEADER_SIZE || s[..4] != PACKET_MAGIC || UInt16At(s, 4) != PACKET_VERSION
      || UInt16At(s, 6) != PACKET_HEADER_SIZE || UInt16At(s, 8) != FRAME_COLUMNS
      || Number(s[12..16]) != PACKET_FLAGS
      || |s| != PACKET_HEADER_SIZE + FRAME_SIZE * UInt16At(s, 10)
    then Malformed
    else
      Frames(
        FramesAt(s, PACKET_HEADER_SIZE, UInt16At(s, 10)),
        UInt64At(s, 16), UInt64At(s, 24), Signed64(UInt64At(s, 32)))
  }

  // ---- What is sent is what is received ----

  lemma UInt64Back(before: seq<Byte>, v: UInt64, after: seq<Byte>)
    ensures UInt64At(before + LittleEndian(v, 8) + after, |before|) == v
  {
    var s := before + LittleEndian(v, 8) + after;
    assert s[|before|..|before| + 8] == LittleEndian(v, 8);
    Powers();
    NumberInvertsLittleEndian(v, 8);
  }

  lemma UInt16Back(before: seq<Byte>, v: int, after: seq<Byte>)
    requires 0 <= v < 0x1_0000
    ensures UInt16At(before + LittleEndian(v, 2) + after, |before|) == v
  {
    var s := before + LittleEndian(v, 2) + after;
    assert s[|before|..|before| + 2] == LittleEndian(v, 2);
    Powers();
    NumberInvertsLittleEndian(v, 2);
  }

  lemma {:induction false} SamplesBack(before: seq<Byte>, samples: seq<Int16>, after: seq<Byte>)
    ensures SamplesAt(before + SampleBytes(samples) + after, |before|, |samples|) == samples
    decreases |samples|
  {
    if samples != [] {
      var first := LittleEndian(Unsigned16(samples[0]), 2);
      var s := before + SampleBytes(samples) + after;
      assert s == before + first + (SampleBytes(samples[1..]) + after);
      UInt16Back(before, Unsigned16(samples[0]), SampleBytes(samples[1..]) + after);
      assert s == (before + first) + SampleBytes(samples[1..]) + after;
      SamplesBack(before + first, samples[1..], after);
      assert [samples[0]] + samples[1..] == samples;
    }
  }

  lemma FrameBack(before: seq<Byte>, f: Frame, after: seq<Byte>)
    ensures FrameAt(before + FrameBytes(f) + after, |before|) == f
  {
    var a, b, c := LittleEndian(f.sequence, 8), LittleEndian(Unsigned64(f.capturedAtUs), 8), SampleBytes(f.samples);
    var s := before + FrameBytes(f) + after;
    assert s == before + a + (b + c + after);
    UInt64Back(before, f.sequence, b + c + after);
    assert s == (before + a) + b + (c + after);
    UInt64Back(before + a, Unsigned64(f.capturedAtUs), c + after);
    assert s == (before + a + b) + c + after;
    SamplesBack(before + a + b, f.samples, after);
  }

  lemma {:induction false} FramesBack(before: seq<Byte>, frames: seq<Frame>, after: seq<Byte>)
    ensures FramesAt(before + AllFrameBytes(frames) + after, |before|, |frames|) == frames
    decreases |frames|
  {
    if frames != [] {
      var first := FrameBytes(frames[0]);
      var s := before + AllFrameBytes(frames) + after;
      assert s == before + first + (AllFrameBytes(frames[1..]) + after);
      FrameBack(before, frames[0], AllFrameBytes(frames[1..]) + after);
      assert s == (before + first) + AllFrameBytes(frames[1..]) + after;
      FramesBack(before + first, frames[1..], after);
      assert [frames[0]] + frames[1..] == frames;
    }
  }

  lemma PreambleBack(n: nat, after: seq<Byte>)
    ensures var s := Preamble(n) + after;
      && s[..4] == PACKET_MAGIC
      && UInt16At(s, 4) == PACKET_VERSION
      && UInt16At(s, 6) == PACKET_HEADER_SIZE
      && UInt16At(s, 8) == FRAME_COLUMNS
      && UInt16At(s, 10) == n % 0x1_0000
      && Number(s[12..16]) == PACKET_FLAGS
  {
    hide LittleEndian;
    hide UInt16At;
    hide Number;
    var s := Preamble(n) + after;
    var m := PACKET_MAGIC;
    var v, h, c, k, f := LittleEndian(PACKET_VERSION, 2), LittleEndian(PACKET_HEADER_SIZE, 2),
      LittleEndian(FRAME_COLUMNS, 2), LittleEndian(n % 0x1_0000, 2), LittleEndian(PACKET_FLAGS, 4);
    assert s == m + v + (h + c + k + f + after);
    UInt16Back(m, PACKET_VERSION, h + c + k + f + after);
    assert s == (m + v) + h + (c + k + f + after);
    UInt16Back(m + v, PACKET_HEADER_SIZE, c + k + f + after);
    assert s == (m + v + h) + c + (k + f + after);
    UInt16Back(m + v + h, FRAME_COLUMNS, k + f + after);
    assert s == (m + v + h + c) + k + (f + after);
    UInt16Back(m + v + h + c, n % 0x1_0000, f + after);
    assert s[12..16] == f;
    Powers();
    NumberInvertsLittleEndian(PACKET_FLAGS, 4);
  }

  lemma SpanBack(before: seq<Byte>, first: Frame, last: Frame, after: seq<Byte>)
    ensures var s, at := before + Span(first, last) + after, |before|;
      && UInt64At(s, at) == first.sequence
      && UInt64At(s, at + 8) == last.sequence
      && Signed64(UInt64At(s, at + 16)) == last.capturedAtUs
  {
    var s := before + Span(first, last) + after;
    var a, b, c := LittleEndian(first.sequence, 8), LittleEndian(last.sequence, 8),
      LittleEndian(Unsigned64(last.capturedAtUs), 8);
    assert s == before + a + (b + c + after);
    UInt64Back(before, first.sequence, b + c + after);
    assert s == (before + a) + b + (c + after);
    UInt64Back(before + a, last.sequence, c + after);
    assert s == (before + a + b) + c + after;
    UInt64Back(before + a + b, Unsigned64(last.capturedAtUs), after);
  }

  /**
   * A packet is received as exactly the frames it was made of if and only if their number
   * fits the 16 bits of the header; a longer one is malformed to its receiver.
   */
  lemma PacketIsReceived(frames: seq<Frame>)
    requires frames != []
    ensures var last := frames[|frames| - 1];
      |frames| <= 0xFFFF ==>
        Receive(Packet(frames)) == Frames(frames, frames[0].sequence, last.sequence, last.capturedAtUs)
    ensures |frames| > 0xFFFF ==> Receive(Packet(frames)) == Malformed
  {
    hide Preamble;
    hide Span;
    hide AllFrameBytes;
    hide UInt64At;
    hide UInt16At;
    hide FramesAt;
    hide Signed64;
    hide Number;
    var n, last := |frames|, frames[|frames| - 1];
    var p, q, r := Preamble(n), Span(frames[0], last), AllFrameBytes(frames);
    var s := Packet(frames);
    assert s == p + (q + r);
    PreambleBack(n, q + r);
    if n <= 0xFFFF {
      SpanBack(p, frames[0], last, r);
      assert s == (p + q) + r + [];
      FramesBack(p + q, frames, []);
    }
  }

  // ---- The publisher ----

  /** A packet that was handed to the socket, and whether the socket took it. */
  datatype Attempt = Attempt(frames: seq<Frame>, accepted: bool)

  function AllFrames(attempts: seq<Attempt>): seq<Frame> {
    if attempts == [] then []
    else AllFrames(attempts[..|attempts| - 1]) + attempts[|attempts| - 1].frames
  }

  function Accepted(attempts: seq<Attempt>): seq<Attempt> {
    if attempts == [] then []
    else
      var last := attempts[|attempts| - 1];
      Accepted(attempts[..|attempts| - 1]) + if last.accepted then [last] else []
  }

  lemma AttemptAdded(attempts: seq<Attempt>, attempt: Attempt)
    ensures var all := attempts + [attempt];
      && AllFrames(all) == AllFrames(attempts) + attempt.frames
      && Accepted(all) == Accepted(attempts) + (if attempt.accepted then [attempt] else [])
      && |AllFrames(Accepted(all))| == |AllFrames(Accepted(attempts))| + if attempt.accepted then |attempt.frames| else 0
  {
    var all := attempts + [attempt];
    assert all[..|all| - 1] == attempts;
    if attempt.accepted {
      assert Accepted(all)[..|Accepted(all)| - 1] == Accepted(attempts);
    } else {
      assert Accepted(attempts) + [] == Accepted(attempts);
    }
  }

  ghost predicate IsPacketOf(datagram: seq<Byte>, attempt: Attempt) {
    attempt.frames != [] && datagram == Packet(attempt.frames)
  }

  class Publisher {
    var maxFramesPerPacket: int
    var active: bool
    var pendingFrames: seq<Frame>
    var packetsSent: nat
    var framesSent: nat
    var sendErrors: nat
    var lastError: string

    /** The datagrams that the socket took. */
    var wire: seq<seq<Byte>>

    ghost var attempts: seq<Attempt>
    ghost var pushed: seq<Frame>
    ghost const setupErrors: nat

    /** Nothing is lost, reordered or counted wrongly. */
    ghost predicate Books()
      reads this
    {
      && (active ==> 1 <= maxFramesPerPacket && |pendingFrames| <= maxFramesPerPacket)
      && (forall k :: 0 <= k < |attempts| ==> 1 <= |attempts[k].frames| <= maxFramesPerPacket)
      && AllFrames(attempts) + pendingFrames == pushed
      && packetsSent == |Accepted(attempts)| == |wire|
      && framesSent == |AllFrames(Accepted(attempts))|
      && sendErrors + packetsSent == setupErrors + |attempts|
      && (forall k :: 0 <= k < |wire| ==> IsPacketOf(wire[k], Accepted(attempts)[k]))
      && (attempts != [] && attempts[|attempts| - 1].accepted ==> lastError == "")
    }

    ghost predicate Valid()
      reads this
    {
      Books() && (active ==> |pendingFrames| < maxFramesPerPacket)
    }

    /** `usable` says whether streaming is enabled and addressed, `socketReady` whether a socket could be set up. */
    constructor (usable: bool, maxFrames: int, socketReady: bool, message: string)
      ensures Valid() && attempts == [] && pushed == [] && pendingFrames == []
      ensures active <==> usable && socketReady
      ensures active ==> maxFramesPerPacket == if maxFrames <= 0 then DEFAULT_MAX_FRAMES else maxFrames
      ensures sendErrors == if usable && !socketReady then 1 else 0
    {
      pendingFrames, wire := [], [];
      packetsSent, framesSent := 0, 0;
      attempts, pushed := [], [];
      active := usable && socketReady;
      maxFramesPerPacket := if usable && maxFrames <= 0 then DEFAULT_MAX_FRAMES else maxFrames;
      sendErrors := if usable && !socketReady then 1 else 0;
      setupErrors := if usable && !socketReady then 1 else 0;
      lastError := if usable && !socketReady then message else "";
    }

    /** `accepts` says whether the socket takes a packet now; `message` is the error when it does not. */
    method PushFrame(sequence: UInt64, capturedAtUs: Int64, samples: Samples, accepts: bool, message: string)
      requires Valid()
      modifies this
      ensures Valid()
      ensures unchanged(this`active) && unchanged(this`maxFramesPerPacket)
      ensures old(!active) ==> unchanged(this)
      ensures old(active) ==>
        var frame := Frame(sequence, capturedAtUs, samples);
        && pushed == old(pushed) + [frame]
        && if old(|pendingFrames| + 1 < maxFramesPerPacket)
           then attempts == old(attempts) && pendingFrames == old(pendingFrames) + [frame]
           else attempts == old(attempts) + [Attempt(old(pendingFrames) + [frame], accepts)] && pendingFrames == []
    {
      if !active {
        return;
      }
      var frame := Frame(sequence, capturedAtUs, samples);
      pendingFrames := pendingFrames + [frame];
      pushed := pushed + [frame];
      assert AllFrames(attempts) + pendingFrames == pushed;
      if |pendingFrames| >= maxFramesPerPacket {
        FlushPendingFrames(accepts, message);
      }
    }

    method Flush(accepts: bool, message: string)
      requires Valid()
      modifies this
      ensures Valid()
      ensures unchanged(this`active) && unchanged(this`maxFramesPerPacket) && unchanged(this`pushed)
      ensures old(!active || pendingFrames == []) ==> unchanged(this)
      ensures old(active && pendingFrames != []) ==>
        attempts == old(attempts) + [Attempt(old(pendingFrames), accepts)] && pendingFrames == []
    {
      if !active {
        return;
      }
      FlushPendingFrames(accepts, message);
    }

    method FlushPendingFrames(accepts: bool, message: string)
      requires active && Books()
      modifies this
      ensures Valid()
      ensures unchanged(this`active) && unchanged(this`maxFramesPerPacket) && unchanged(this`pushed)
      ensures old(pendingFrames == []) ==> unchanged(this)
      ensures old(pendingFrames != []) ==>
        attempts == old(attempts) + [Attempt(old(pendingFrames), accepts)] && pendingFrames == []
    {
      hide AllFrames;
      hide Accepted;
      hide Packet;
      if pendingFrames == [] {
        return;
      }
      ghost var all := attempts + [Attempt(pendingFrames, accepts)];
      AttemptAdded(attempts, Attempt(pendingFrames, accepts));
      var sent := SendPacket(pendingFrames, accepts);
      if !sent {
        RecordError(message);
      }
      attempts := all;
      pendingFrames := [];
    }

    /** Encodes and sends; false stands for the exception of a refused packet. */
    method SendPacket(frames: seq<Frame>, accepts: bool) returns (sent: bool)
      requires active && frames != []
      modifies this`wire, this`packetsSent, this`framesSent, this`lastError
      ensures sent == accepts
      ensures !sent ==> unchanged(this)
      ensures sent ==>
        && wire == old(wire) + [Packet(frames)]
        && packetsSent == old(packetsSent) + 1
        && framesSent == old(framesSent) + |frames|
        && lastError == ""
    {
      var buffer := EncodePacket(frames);
      if !accepts {
        return false;
      }
      wire := wire + [buffer];
      packetsSent := packetsSent + 1;
      framesSent := framesSent + |frames|;
      lastError := "";
      return true;
    }

    method RecordError(message: string)
      modifies this`sendErrors, this`lastError
      ensures sendErrors == old(sendErrors) + 1 && lastError == message
    {
      sendErrors := sendErrors + 1;
      lastError := message;
    }
  }

  method EncodePacket(frames: seq<Frame>) returns (buffer: seq<Byte>)
    requires frames != []
    ensures buffer == Packet(frames)
  {
    hide LittleEndian;
    hide FrameBytes;
    var last := frames[|frames| - 1];
    buffer := PACKET_MAGIC;
    buffer := AppendLe(buffer, PACKET_VERSION, 2);
    buffer := AppendLe(buffer, PACKET_HEADER_SIZE, 2);
    buffer := AppendLe(buffer, FRAME_COLUMNS, 2);
    buffer := AppendLe(buffer, |frames| % 0x1_0000, 2);
    buffer := AppendLe(buffer, PACKET_FLAGS, 4);
    assert buffer == Preamble(|frames|);
    buffer := AppendLe(buffer, frames[0].sequence, 8);
    buffer := AppendLe(buffer, last.sequence, 8);
    buffer := AppendLe(buffer, Unsigned64(last.capturedAtUs), 8);
    ghost var header := Preamble(|frames|) + Span(frames[0], last);
    assert buffer == header;
    for k := 0 to |frames|
      invariant buffer + AllFrameBytes(frames[k..]) == header + AllFrameBytes(frames)
    {
      ghost var before := buffer;
      buffer := AppendFrame(buffer, frames[k]);
      assert frames[k..][1..] == frames[k + 1..];
      assert before + AllFrameBytes(frames[k..]) == buffer + AllFrameBytes(frames[k + 1..]);
    }
    assert frames[|frames|..] == [];
    assert buffer + [] == buffer;
  }

  method AppendFrame(buffer: seq<Byte>, frame: Frame) returns (longer: seq<Byte>)
    ensures longer == buffer + FrameBytes(frame)
  {
    hide LittleEndian;
    hide SampleBytes;
    longer := AppendLe(buffer, frame.sequence, 8);
    longer := AppendLe(longer, Unsigned64(frame.capturedAtUs), 8);
    longer := AppendSamples(longer, frame.samples);
    assert longer == buffer + FrameBytes(frame);
  }

  method AppendSamples(buffer: seq<Byte>, samples: Samples) returns (longer: seq<Byte>)
    ensures longer == buffer + SampleBytes(samples)
  {
    hide LittleEndian;
    longer := buffer;
    for k := 0 to FRAME_COLUMNS
      invariant longer + SampleBytes(samples[k..]) == buffer + SampleBytes(samples)
    {
      ghost var before := longer;
      longer := AppendLe(longer, Unsigned16(samples[k]), 2);
      assert samples[k..][1..] == samples[k + 1..];
      assert before + SampleBytes(samples[k..]) == longer + SampleBytes(samples[k + 1..]);
    }
    assert samples[FRAME_COLUMNS..] == [];
    assert longer + [] == longer;
  }

  /** Appends a number of the given width in bytes, lowest byte first. */
  method AppendLe(buffer: seq<Byte>, value: nat, width: nat) returns (longer: seq<Byte>)
    ensures longer == buffer + LittleEndian(value, width)
  {
    longer := buffer;
    var shifted := value;
    for k := 0 to width
      invariant longer + LittleEndian(shifted, width - k) == buffer + LittleEndian(value, width)
    {
      ghost var before := longer;
      longer := longer + [shifted % 0x100];
      assert before + LittleEndian(shifted, width - k) == longer + LittleEndian(shifted / 0x100, width - k - 1);
      shifted := shifted / 0x100;
    }
    assert longer + [] == longer;
  }
}
