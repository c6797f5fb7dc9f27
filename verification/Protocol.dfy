/** Headers of WebTunnel frames, in network byte order. */
module Protocol {

  type Byte = b: int | 0 <= b < 0x100
  type UInt16 = v: int | 0 <= v < 0x1_0000

  const OP_DATA: Byte := 0x00
  const OP_OPEN_REQUEST: Byte := 0x01
  const OP_OPEN_CONFIRM: Byte := 0x11
  const OP_OPEN_FAULT: Byte := 0x81
  const OP_CLOSE: Byte := 0x02
  const OP_PROP_UPDATE: Byte := 0x40
  const OP_ERROR: Byte := 0x80

  const ERR_NONE: UInt16 := 0
  const ERR_BAD_CHANNEL: UInt16 := 1
  const ERR_NOT_FORWARDED: UInt16 := 2
  const ERR_CONN_REFUSED: UInt16 := 3
  const ERR_TIMEOUT: UInt16 := 4
  const ERR_SOCKET: UInt16 := 5
  const ERR_PROTOCOL: UInt16 := 6
  const ERR_CHANNEL_IN_USE: UInt16 := 7

  const FRAME_MAX_SIZE := 2048
  const FRAME_HEADER_SIZE := 4

  /** The opcodes whose header carries a port or an error code. */
  predicate HasCode(opcode: Byte) {
    opcode == OP_OPEN_REQUEST || opcode == OP_OPEN_FAULT || opcode == OP_ERROR
  }

  function HeaderSize(opcode: Byte): nat {
    if HasCode(opcode) then 6 else 4
  }

  function HighByte(v: UInt16): Byte {
    v / 0x100
  }

  function LowByte(v: UInt16): Byte {
    v % 0x100
  }

  function Join(high: Byte, low: Byte): UInt16 {
    high * 0x100 + low
  }

  function Header(opcode: Byte, flags: Byte, channel: UInt16, code: UInt16): (h: seq<Byte>)
    ensures |h| == HeaderSize(opcode)
  {
    [opcode, flags, HighByte(channel), LowByte(channel)]
    + if HasCode(opcode) then [HighByte(code), LowByte(code)] else []
  }

  /** Long enough for the header that its first byte announces. */
  predicate IsFrame(frame: seq<Byte>) {
    |frame| >= 4 && |frame| >= HeaderSize(frame[0])
  }

  function Opcode(frame: seq<Byte>): Byte
    requires IsFrame(frame)
  {
    frame[0]
  }

  function Channel(frame: seq<Byte>): UInt16
    requires IsFrame(frame)
  {
    Join(frame[2], frame[3])
  }

  function Code(frame: seq<Byte>): UInt16
    requires IsFrame(frame)
  {
    if HasCode(frame[0]) then Join(frame[4], frame[5]) else 0
  }

  function Payload(frame: seq<Byte>): seq<Byte>
    requires IsFrame(frame)
  {
    frame[HeaderSize(frame[0])..]
  }

  method WriteHeader(buffer: array<Byte>, opcode: Byte, flags: Byte, channel: UInt16, portOrErrorCode: UInt16)
    returns (n: nat)
    requires buffer.Length >= HeaderSize(opcode)
    modifies buffer
    ensures n == HeaderSize(opcode)
    ensures buffer[..n] == Header(opcode, flags, channel, portOrErrorCode)
    ensures buffer[n..] == old(buffer[n..])
  {
    buffer[0], buffer[1] := opcode, flags;
    buffer[2], buffer[3] := HighByte(channel), LowByte(channel);
    n := 4;
    if opcode == OP_OPEN_REQUEST || opcode == OP_OPEN_FAULT || opcode == OP_ERROR {
      buffer[4], buffer[5] := HighByte(portOrErrorCode), LowByte(portOrErrorCode);
      n := 6;
    }
  }

  /** Without a place for the code it is not read, and not counted. */
  method ReadHeader(buffer: array<Byte>, readCode: bool)
    returns (n: nat, opcode: Byte, flags: Byte, channel: UInt16, portOrErrorCode: UInt16)
    requires buffer.Length >= 6
    ensures n == if readCode then HeaderSize(buffer[0]) else 4
    ensures opcode == Opcode(buffer[..]) && flags == buffer[1] && channel == Channel(buffer[..])
    ensures portOrErrorCode == if readCode then Code(buffer[..]) else 0
  {
    opcode, flags := buffer[0], buffer[1];
    channel := Join(buffer[2], buffer[3]);
    portOrErrorCode := 0;
    n := 4;
    if readCode {
      if opcode == OP_OPEN_REQUEST || opcode == OP_OPEN_FAULT || opcode == OP_ERROR {
        portOrErrorCode := Join(buffer[4], buffer[5]);
        n := 6;
      }
    }
  }

  /** Reading a written header gives back its fields; what follows is the payload. */
  lemma HeaderIsReadBack(opcode: Byte, flags: Byte, channel: UInt16, code: UInt16, payload: seq<Byte>)
    ensures var frame := Header(opcode, flags, channel, code) + payload;
      && IsFrame(frame)
      && Opcode(frame) == opcode && frame[1] == flags && Channel(frame) == channel
      && Code(frame) == (if HasCode(opcode) then code else 0)
      && Payload(frame) == payload
  {
  }

  /** Writing a header and reading it from the same buffer gives back what was written, and the same length. */
  method WriteThenRead(buffer: array<Byte>, opcode: Byte, flags: Byte, channel: UInt16, code: UInt16)
    returns (written: nat, read: nat, opcode': Byte, flags': Byte, channel': UInt16, code': UInt16)
    requires buffer.Length >= 6
    modifies buffer
    ensures written == read && opcode' == opcode && flags' == flags && channel' == channel
    ensures code' == if HasCode(opcode) then code else 0
  {
    written := WriteHeader(buffer, opcode, flags, channel, code);
    assert buffer[..] == buffer[..written] + buffer[written..];
    HeaderIsReadBack(opcode, flags, channel, code, buffer[written..]);
    read, opcode', flags', channel', code' := ReadHeader(buffer, true);
  }
}
