/**
 * The channel table of a remote port forwarder. One event is handled at a time; what goes
 * over the web socket is kept as a transcript, and the table is compared with it.
 */
module Tunnel {
  import opened Protocol

  type Socket = nat

  datatype Handler = Demultiplexer | Multiplexer(channel: UInt16)

  datatype CloseReason = Graceful | Unexpected | ByError | ByTimeout

  datatype Entry = Received(frame: seq<Byte>) | Sent(frame: seq<Byte>) | Closed(reason: CloseReason)

  type Transcript = seq<Entry>

  // ---- What a transcript says ----

  predicate Opens(e: Entry, c: UInt16) {
    e.Sent? && IsFrame(e.frame) && Opcode(e.frame) == OP_OPEN_CONFIRM && Channel(e.frame) == c
  }

  /** The peer closes a channel or reports an error for it, or we do; a protocol error closes nothing. */
  predicate Closes(e: Entry, c: UInt16) {
    match e
    case Received(f) => IsFrame(f) && Channel(f) == c && (Opcode(f) == OP_CLOSE || Opcode(f) == OP_ERROR)
    case Sent(f) =>
      && IsFrame(f) && Channel(f) == c
      && (Opcode(f) == OP_CLOSE || (Opcode(f) == OP_ERROR && Code(f) != ERR_PROTOCOL))
    case Closed(_) => true
  }

  /** The last entry that opens or closes the channel opens it. */
  predicate IsOpen(t: Transcript, c: UInt16) {
    if t == [] then false
    else
      var e := t[|t| - 1];
      Opens(e, c) || (!Closes(e, c) && IsOpen(t[..|t| - 1], c))
  }

  predicate IsData(e: Entry, c: UInt16, incoming: bool) {
    && (if incoming then e.Received? else e.Sent?)
    && IsFrame(e.frame) && Opcode(e.frame) == OP_DATA && Channel(e.frame) == c
  }

  /** The payloads, in one direction, of the data frames for a channel since it was opened last. */
  function DataSinceOpen(t: Transcript, c: UInt16, incoming: bool): seq<Byte> {
    if t == [] then []
    else
      var e := t[|t| - 1];
      if Opens(e, c) then []
      else DataSinceOpen(t[..|t| - 1], c, incoming) + if IsData(e, c, incoming) then Payload(e.frame) else []
  }

  predicate IsRequest(e: Entry) {
    e.Received? && IsFrame(e.frame) && Opcode(e.frame) == OP_OPEN_REQUEST
  }

  predicate IsReply(e: Entry) {
    e.Sent? && IsFrame(e.frame) && (Opcode(e.frame) == OP_OPEN_CONFIRM || Opcode(e.frame) == OP_OPEN_FAULT)
  }

  predicate Answers(reply: Entry, request: Entry)
    requires IsRequest(request)
  {
    IsReply(reply) && Channel(reply.frame) == Channel(request.frame)
  }

  /** An open request is followed at once by its one reply, unless the web socket was lost; replies come in no other way. */
  predicate Answered(t: Transcript) {
    && (forall i :: 0 <= i < |t| && IsRequest(t[i]) ==> i + 1 < |t| && (t[i + 1].Closed? || Answers(t[i + 1], t[i])))
    && (forall i :: 0 <= i < |t| && IsReply(t[i]) ==> i > 0 && IsRequest(t[i - 1]))
  }

  // ---- The table against the transcript ----

  /** The table holds exactly the channels that are open in the transcript. */
  ghost predicate TableAgrees(table: map<UInt16, Socket>, t: Transcript) {
    forall c: UInt16 :: c in table <==> IsOpen(t, c)
  }

  /** Registered are the web socket while it is open, and the sockets of the table, each with its channel. */
  ghost predicate RegistrationAgrees(table: map<UInt16, Socket>, registered: map<Socket, Handler>, webSocket: Socket, open: bool) {
    && (webSocket in registered <==> open)
    && (open ==> registered[webSocket] == Demultiplexer)
    && (!open ==> table == map[])
    && (forall c :: c in table ==> table[c] != webSocket && table[c] in registered && registered[table[c]] == Multiplexer(c))
    && (forall s :: s in registered && s != webSocket ==>
          registered[s].Multiplexer? && registered[s].channel in table && table[registered[s].channel] == s)
  }

  /** Each socket of the table has been given, and has given, exactly the data frames of its channel. */
  ghost predicate DataAgrees(table: map<UInt16, Socket>, streams: map<Socket, seq<Byte>>, t: Transcript, incoming: bool) {
    forall c :: c in table ==> table[c] in streams && streams[table[c]] == DataSinceOpen(t, c, incoming)
  }

  predicate Fresh(table: map<UInt16, Socket>, nextSocket: Socket) {
    forall c :: c in table ==> table[c] < nextSocket
  }

  lemma Last(t: Transcript, e: Entry)
    ensures (t + [e])[|t + [e]| - 1] == e && (t + [e])[..|t + [e]| - 1] == t
  {
  }

  lemma IsOpenAfter(t: Transcript, e: Entry, c: UInt16)
    ensures IsOpen(t + [e], c) <==> Opens(e, c) || (!Closes(e, c) && IsOpen(t, c))
  {
    Last(t, e);
  }

  lemma DataAfter(t: Transcript, e: Entry, c: UInt16, incoming: bool)
    ensures DataSinceOpen(t + [e], c, incoming) ==
      if Opens(e, c) then [] else DataSinceOpen(t, c, incoming) + if IsData(e, c, incoming) then Payload(e.frame) else []
  {
    Last(t, e);
  }

  /** An entry that opens or closes no channel, and carries no data, leaves everything as it was. */
  lemma NeutralEntry(table: map<UInt16, Socket>, streams: map<Socket, seq<Byte>>, t: Transcript, e: Entry, incoming: bool)
    requires DataAgrees(table, streams, t, incoming)
    requires forall c :: c in table ==> !Opens(e, c) && !IsData(e, c, incoming)
    ensures DataAgrees(table, streams, t + [e], incoming)
  {
    forall c | c in table ensures streams[table[c]] == DataSinceOpen(t + [e], c, incoming) {
      DataAfter(t, e, c, incoming);
    }
  }

  lemma TableAfter(table: map<UInt16, Socket>, t: Transcript, after: map<UInt16, Socket>, e: Entry)
    requires TableAgrees(table, t)
    requires forall c: UInt16 :: c in after <==> Opens(e, c) || (!Closes(e, c) && c in table)
    ensures TableAgrees(after, t + [e])
  {
    forall c: UInt16 ensures c in after <==> IsOpen(t + [e], c) {
      IsOpenAfter(t, e, c);
    }
  }

  /** After an entry that neither asks nor replies. */
  lemma AnsweredAfter(t: Transcript, e: Entry)
    requires Answered(t) && !IsRequest(e) && !IsReply(e)
    ensures Answered(t + [e])
  {
  }

  /** After a request and what follows it. */
  lemma AnsweredAfterTwo(t: Transcript, request: Entry, e: Entry)
    requires Answered(t) && IsRequest(request) && (e.Closed? || Answers(e, request))
    ensures Answered(t + [request] + [e])
  {
    assert !IsRequest(e);
  }

  // ---- The state of a forwarder, and what each event makes of it ----

  datatype View = View(
    webSocket: Socket,
    open: bool,
    table: map<UInt16, Socket>,
    registered: map<Socket, Handler>,
    given: map<Socket, seq<Byte>>, // what local sockets have been given
    taken: map<Socket, seq<Byte>>, // what has been read from them
    nextSocket: Socket,
    transcript: Transcript)

  ghost predicate Consistent(v: View) {
    && TableAgrees(v.table, v.transcript)
    && RegistrationAgrees(v.table, v.registered, v.webSocket, v.open)
    && DataAgrees(v.table, v.given, v.transcript, true)
    && DataAgrees(v.table, v.taken, v.transcript, false)
    && Fresh(v.table, v.nextSocket) && v.webSocket < v.nextSocket
  }

  ghost predicate Good(v: View) {
    Consistent(v) && Answered(v.transcript)
  }

  function Logged(v: View, e: Entry): View {
    v.(transcript := v.transcript + [e])
  }

  function Message(opcode: Byte, c: UInt16, code: UInt16): seq<Byte> {
    Header(opcode, 0, c, code)
  }

  function Removed(v: View, c: UInt16): View {
    if c in v.table then v.(table := v.table - {c}, registered := v.registered - {v.table[c]}) else v
  }

  function AfterClose(v: View, reason: CloseReason): View {
    if !v.open then v
    else Logged(v.(open := false, table := map[], registered := v.registered - {v.webSocket} - v.table.Values), Closed(reason))
  }

  /** The web socket refuses the frame, or it goes into the transcript. */
  function AfterSend(v: View, frame: seq<Byte>, accepted: bool): View {
    if v.open && accepted then Logged(v, Sent(frame)) else AfterClose(v, ByError)
  }

  datatype LocalInput = Bytes(data: seq<Byte>) | EndOfStream | Breaks(tlsClosed: bool)

  function AfterMultiplex(v: View, c: UInt16, input: LocalInput, accepted: bool): View
    requires c in v.table && v.table[c] in v.taken
  {
    match input
    case Bytes(data) =>
      var s := v.table[c];
      AfterSend(v.(taken := v.taken[s := v.taken[s] + data]), Message(OP_DATA, c, 0) + data, accepted)
    case EndOfStream => AfterSend(Removed(v, c), Message(OP_CLOSE, c, 0), accepted)
    case Breaks(tlsClosed) =>
      AfterSend(Removed(v, c), if tlsClosed then Message(OP_CLOSE, c, 0) else Message(OP_ERROR, c, ERR_SOCKET), accepted)
  }

  datatype Connect = Connected | Refused | TimedOut | Fails

  function AfterOpenRequest(v: View, ports: set<UInt16>, c: UInt16, port: UInt16, connect: Connect, accepted: bool): View {
    if port !in ports then AfterSend(v, Message(OP_OPEN_FAULT, c, ERR_NOT_FORWARDED), accepted)
    else if c in v.table then AfterSend(v, Message(OP_OPEN_FAULT, c, ERR_CHANNEL_IN_USE), accepted)
    else
      match connect
      case Connected =>
        var s := v.nextSocket;
        AfterSend(
          v.(table := v.table[c := s], registered := v.registered[s := Multiplexer(c)],
             given := v.given[s := []], taken := v.taken[s := []], nextSocket := s + 1),
          Message(OP_OPEN_CONFIRM, c, 0), accepted)
      case Refused => AfterSend(v, Message(OP_OPEN_FAULT, c, ERR_CONN_REFUSED), accepted)
      case TimedOut => AfterSend(v, Message(OP_OPEN_FAULT, c, ERR_TIMEOUT), accepted)
      case Fails => AfterSend(v, Message(OP_OPEN_FAULT, c, ERR_SOCKET), accepted)
  }

  function AfterData(v: View, c: UInt16, payload: seq<Byte>, delivered: bool, accepted: bool): View
    requires c in v.table ==> v.table[c] in v.given
  {
    if c !in v.table then AfterSend(v, Message(OP_ERROR, c, ERR_BAD_CHANNEL), accepted)
    else if delivered then
      var s := v.table[c];
      v.(given := v.given[s := v.given[s] + payload])
    else AfterSend(Removed(v, c), Message(OP_ERROR, c, ERR_SOCKET), accepted)
  }

  function AfterFrame(v: View, ports: set<UInt16>, frame: seq<Byte>, connect: Connect, delivered: bool, accepted: bool): View
    requires IsFrame(frame)
    requires forall c :: c in v.table ==> v.table[c] in v.given
  {
    var w := Logged(v, Received(frame));
    var c := Channel(frame);
    if Opcode(frame) == OP_DATA then AfterData(w, c, Payload(frame), delivered, accepted)
    else if Opcode(frame) == OP_OPEN_REQUEST then AfterOpenRequest(w, ports, c, Code(frame), connect, accepted)
    else if Opcode(frame) == OP_CLOSE || Opcode(frame) == OP_ERROR then Removed(w, c)
    else AfterSend(w, Message(OP_ERROR, c, ERR_PROTOCOL), accepted)
  }

  // ---- Every event keeps the state good ----

  lemma MessageFields(opcode: Byte, c: UInt16, code: UInt16, data: seq<Byte>)
    ensures var f := Message(opcode, c, code) + data;
      && IsFrame(f) && Opcode(f) == opcode && Channel(f) == c && Payload(f) == data
      && Code(f) == if HasCode(opcode) then code else 0
    ensures var f := Message(opcode, c, code);
      IsFrame(f) && Opcode(f) == opcode && Channel(f) == c && Code(f) == if HasCode(opcode) then code else 0
  {
    HeaderIsReadBack(opcode, 0, c, code, data);
    HeaderIsReadBack(opcode, 0, c, code, []);
    assert Message(opcode, c, code) + [] == Message(opcode, c, code);
  }

  /** Losing the web socket leaves no channel and no registration, whatever came before. */
  lemma CloseIsConsistent(v: View, reason: CloseReason)
    requires v.open && RegistrationAgrees(v.table, v.registered, v.webSocket, v.open) && v.webSocket < v.nextSocket
    ensures Consistent(AfterClose(v, reason)) && AfterClose(v, reason).registered == map[]
  {
    var n := AfterClose(v, reason);
    forall s | s in v.registered ensures s == v.webSocket || s in v.table.Values {
      if s != v.webSocket {
        assert v.table[v.registered[s].channel] == s;
      }
    }
    assert n.registered == map[];
    forall c: UInt16 ensures !IsOpen(n.transcript, c) {
      IsOpenAfter(v.transcript, Closed(reason), c);
    }
  }

  lemma NeutralKeeps(v: View, e: Entry)
    requires Consistent(v)
    requires forall c: UInt16 :: !Opens(e, c) && (Closes(e, c) ==> c !in v.table)
    requires forall c: UInt16, incoming: bool :: c in v.table ==> !IsData(e, c, incoming)
    ensures Consistent(Logged(v, e))
  {
    TableAfter(v.table, v.transcript, v.table, e);
    NeutralEntry(v.table, v.given, v.transcript, e, true);
    NeutralEntry(v.table, v.taken, v.transcript, e, false);
  }

  lemma RemovedRegistration(v: View, c: UInt16)
    requires RegistrationAgrees(v.table, v.registered, v.webSocket, v.open)
    ensures RegistrationAgrees(Removed(v, c).table, v.registered - (if c in v.table then {v.table[c]} else {}), v.webSocket, v.open)
  {
  }

  /** Removing a channel and closing it in the transcript; what its sockets were given no longer matters. */
  lemma RemovalKeeps(v: View, c: UInt16, e: Entry)
    requires TableAgrees(v.table, v.transcript)
    requires RegistrationAgrees(v.table, v.registered, v.webSocket, v.open)
    requires DataAgrees(v.table - {c}, v.given, v.transcript, true)
    requires DataAgrees(v.table - {c}, v.taken, v.transcript, false)
    requires Fresh(v.table, v.nextSocket) && v.webSocket < v.nextSocket
    requires Closes(e, c) && forall d: UInt16 :: !Opens(e, d) && (Closes(e, d) ==> d == c)
    requires forall d: UInt16, incoming: bool :: !IsData(e, d, incoming)
    ensures Consistent(Logged(Removed(v, c), e))
  {
    var n := Removed(v, c);
    RemovedRegistration(v, c);
    assert n.table == v.table - {c};
    TableAfter(v.table, v.transcript, n.table, e);
    NeutralEntry(n.table, v.given, v.transcript, e, true);
    NeutralEntry(n.table, v.taken, v.transcript, e, false);
  }

  lemma ConsistentRemovalKeeps(v: View, c: UInt16, e: Entry)
    requires Consistent(v)
    requires Closes(e, c) && forall d: UInt16 :: !Opens(e, d) && (Closes(e, d) ==> d == c)
    requires forall d: UInt16, incoming: bool :: !IsData(e, d, incoming)
    ensures Consistent(Logged(Removed(v, c), e))
  {
    RemovalKeeps(v, c, e);
  }

  /** A data frame, in either direction, goes with the bytes of its socket. */
  lemma DataKeeps(v: View, c: UInt16, e: Entry, incoming: bool)
    requires Consistent(v) && c in v.table
    requires IsData(e, c, incoming)
    ensures var s := v.table[c];
      Consistent(Logged(
        if incoming then v.(given := v.given[s := v.given[s] + Payload(e.frame)])
        else v.(taken := v.taken[s := v.taken[s] + Payload(e.frame)]), e))
  {
    var s := v.table[c];
    var streams := if incoming then v.given else v.taken;
    var longer := streams[s := streams[s] + Payload(e.frame)];
    TableAfter(v.table, v.transcript, v.table, e);
    forall d | d in v.table ensures longer[v.table[d]] == DataSinceOpen(v.transcript + [e], d, incoming) {
      DataAfter(v.transcript, e, d, incoming);
    }
    NeutralEntry(v.table, if incoming then v.taken else v.given, v.transcript, e, !incoming);
  }

  lemma TableOpened(table: map<UInt16, Socket>, c: UInt16, s: Socket, t: Transcript, e: Entry)
    requires TableAgrees(table, t) && Opens(e, c)
    ensures TableAgrees(table[c := s], t + [e])
  {
    TableAfter(table, t, table[c := s], e);
  }

  /** A confirmed channel starts with its new socket and no data. */
  lemma OpeningKeeps(v: View, c: UInt16, e: Entry)
    requires Consistent(v) && v.open && c !in v.table && Opens(e, c)
    ensures var s := v.nextSocket;
      Consistent(Logged(
        v.(table := v.table[c := s], registered := v.registered[s := Multiplexer(c)],
           given := v.given[s := []], taken := v.taken[s := []], nextSocket := s + 1), e))
  {
    hide IsOpen, DataSinceOpen, TableAgrees, RegistrationAgrees;
    OpeningRegisters(v, c);
    var s := v.nextSocket;
    var table := v.table[c := s];
    TableOpened(v.table, c, s, v.transcript, e);
    forall d, incoming: bool | d in table
      ensures (if incoming then v.given[s := []] else v.taken[s := []])[table[d]] == DataSinceOpen(v.transcript + [e], d, incoming)
    {
      DataAfter(v.transcript, e, d, incoming);
    }
  }

  lemma OpeningRegisters(v: View, c: UInt16)
    requires RegistrationAgrees(v.table, v.registered, v.webSocket, v.open) && v.open && c !in v.table
    requires Fresh(v.table, v.nextSocket) && v.webSocket < v.nextSocket
    ensures RegistrationAgrees(v.table[c := v.nextSocket], v.registered[v.nextSocket := Multiplexer(c)], v.webSocket, v.open)
  {
  }

  /** A frame that is no reply is sent, or the web socket is lost. */
  lemma SendingKeeps(v: View, frame: seq<Byte>, accepted: bool)
    requires v.open && RegistrationAgrees(v.table, v.registered, v.webSocket, v.open) && v.webSocket < v.nextSocket
    requires Consistent(Logged(v, Sent(frame)))
    requires Answered(v.transcript) && !IsReply(Sent(frame))
    ensures Good(AfterSend(v, frame, accepted))
  {
    if accepted {
      AnsweredAfter(v.transcript, Sent(frame));
    } else {
      CloseIsConsistent(v, ByError);
      AnsweredAfter(v.transcript, Closed(ByError));
    }
  }

  /** A reply is sent right after its request, or the web socket is lost. */
  lemma ReplyingKeeps(v: View, t: Transcript, request: Entry, frame: seq<Byte>, accepted: bool)
    requires v.open && RegistrationAgrees(v.table, v.registered, v.webSocket, v.open) && v.webSocket < v.nextSocket
    requires Consistent(Logged(v, Sent(frame)))
    requires Answered(t) && IsRequest(request) && Answers(Sent(frame), request) && v.transcript == t + [request]
    ensures Good(AfterSend(v, frame, accepted))
  {
    if accepted {
      AnsweredAfterTwo(t, request, Sent(frame));
    } else {
      CloseIsConsistent(v, ByError);
      AnsweredAfterTwo(t, request, Closed(ByError));
    }
  }

  lemma RemovingAndSendingKeeps(v: View, c: UInt16, frame: seq<Byte>, accepted: bool)
    requires Good(v) && v.open
    requires Closes(Sent(frame), c) && IsFrame(frame) && Channel(frame) == c
    ensures Good(AfterSend(Removed(v, c), frame, accepted))
  {
    ConsistentRemovalKeeps(v, c, Sent(frame));
    RemovedRegistration(v, c);
    SendingKeeps(Removed(v, c), frame, accepted);
  }

  lemma MultiplexKeepsGood(v: View, c: UInt16, input: LocalInput, accepted: bool)
    requires Good(v) && v.open && c in v.table
    ensures v.table[c] in v.taken && Good(AfterMultiplex(v, c, input, accepted))
  {
    hide TableAgrees, Answered, IsOpen, DataSinceOpen, Header, AfterSend;
    match input
    case Bytes(data) =>
      MessageFields(OP_DATA, c, 0, data);
      var frame := Message(OP_DATA, c, 0) + data;
      DataKeeps(v, c, Sent(frame), false);
      var s := v.table[c];
      SendingKeeps(v.(taken := v.taken[s := v.taken[s] + data]), frame, accepted);
    case EndOfStream =>
      MessageFields(OP_CLOSE, c, 0, []);
      RemovingAndSendingKeeps(v, c, Message(OP_CLOSE, c, 0), accepted);
    case Breaks(tlsClosed) =>
      MessageFields(OP_CLOSE, c, 0, []);
      MessageFields(OP_ERROR, c, ERR_SOCKET, []);
      RemovingAndSendingKeeps(v, c,
        if tlsClosed then Message(OP_CLOSE, c, 0) else Message(OP_ERROR, c, ERR_SOCKET), accepted);
  }

  lemma ConfirmingKeeps(v: View, request: Entry, accepted: bool)
    requires Good(v) && v.open && IsRequest(request) && Channel(request.frame) !in v.table
    ensures var c, s := Channel(request.frame), v.nextSocket;
      Good(AfterSend(
        Logged(v, request).(
          table := v.table[c := s], registered := v.registered[s := Multiplexer(c)],
          given := v.given[s := []], taken := v.taken[s := []], nextSocket := s + 1),
        Message(OP_OPEN_CONFIRM, c, 0), accepted))
  {
    hide TableAgrees, DataAgrees, Answered, IsOpen, DataSinceOpen, Header, AfterSend;
    var c, s := Channel(request.frame), v.nextSocket;
    var frame := Message(OP_OPEN_CONFIRM, c, 0);
    MessageFields(OP_OPEN_CONFIRM, c, 0, []);
    var w := Logged(v, request);
    NeutralKeeps(v, request);
    OpeningKeeps(w, c, Sent(frame));
    OpeningRegisters(w, c);
    ReplyingKeeps(
      w.(table := w.table[c := s], registered := w.registered[s := Multiplexer(c)],
         given := w.given[s := []], taken := w.taken[s := []], nextSocket := s + 1),
      v.transcript, request, frame, accepted);
  }

  lemma FaultingKeeps(v: View, request: Entry, code: UInt16, accepted: bool)
    requires Good(v) && v.open && IsRequest(request)
    ensures Good(AfterSend(Logged(v, request), Message(OP_OPEN_FAULT, Channel(request.frame), code), accepted))
  {
    hide TableAgrees, DataAgrees, Answered, IsOpen, DataSinceOpen, Header, AfterSend;
    var c := Channel(request.frame);
    MessageFields(OP_OPEN_FAULT, c, code, []);
    var frame := Message(OP_OPEN_FAULT, c, code);
    NeutralKeeps(v, request);
    NeutralKeeps(Logged(v, request), Sent(frame));
    ReplyingKeeps(Logged(v, request), v.transcript, request, frame, accepted);
  }

  lemma OpenRequestKeepsGood(v: View, ports: set<UInt16>, request: Entry, connect: Connect, accepted: bool)
    requires Good(v) && v.open && IsRequest(request)
    ensures Good(AfterOpenRequest(Logged(v, request), ports, Channel(request.frame), Code(request.frame), connect, accepted))
  {
    hide Good, AfterSend, Message, Code;
    if Code(request.frame) in ports && Channel(request.frame) !in v.table && connect.Connected? {
      ConfirmingKeeps(v, request, accepted);
    } else {
      FaultingKeeps(v, request, ERR_NOT_FORWARDED, accepted);
      FaultingKeeps(v, request, ERR_CHANNEL_IN_USE, accepted);
      FaultingKeeps(v, request, ERR_CONN_REFUSED, accepted);
      FaultingKeeps(v, request, ERR_TIMEOUT, accepted);
      FaultingKeeps(v, request, ERR_SOCKET, accepted);
    }
  }

  /** An error that closes no channel of the table. */
  lemma RefusingKeeps(v: View, e: Entry, code: UInt16, accepted: bool)
    requires Good(v) && v.open && e.Received? && IsFrame(e.frame) && !IsRequest(e)
    requires Opcode(e.frame) != OP_CLOSE && Opcode(e.frame) != OP_ERROR
    requires Opcode(e.frame) == OP_DATA ==> Channel(e.frame) !in v.table
    requires code == ERR_PROTOCOL || Channel(e.frame) !in v.table
    ensures Good(AfterSend(Logged(v, e), Message(OP_ERROR, Channel(e.frame), code), accepted))
  {
    hide TableAgrees, DataAgrees, Answered, IsOpen, DataSinceOpen, Header, AfterSend;
    var c := Channel(e.frame);
    MessageFields(OP_ERROR, c, code, []);
    var frame := Message(OP_ERROR, c, code);
    AnsweredAfter(v.transcript, e);
    NeutralKeeps(v, e);
    NeutralKeeps(Logged(v, e), Sent(frame));
    SendingKeeps(Logged(v, e), frame, accepted);
  }

  /** Data for a socket that does not take it. */
  lemma BreakingKeeps(v: View, e: Entry, accepted: bool)
    requires Good(v) && v.open && e.Received? && IsFrame(e.frame) && Opcode(e.frame) == OP_DATA
    ensures Good(AfterSend(Removed(Logged(v, e), Channel(e.frame)), Message(OP_ERROR, Channel(e.frame), ERR_SOCKET), accepted))
  {
    hide TableAgrees, Answered, IsOpen, DataSinceOpen, Header, AfterSend;
    var w, c := Logged(v, e), Channel(e.frame);
    MessageFields(OP_ERROR, c, ERR_SOCKET, []);
    var frame := Message(OP_ERROR, c, ERR_SOCKET);
    AnsweredAfter(v.transcript, e);
    TableAfter(v.table, v.transcript, v.table, e);
    NeutralEntry(v.table - {c}, v.given, v.transcript, e, true);
    NeutralEntry(v.table - {c}, v.taken, v.transcript, e, false);
    RemovalKeeps(w, c, Sent(frame));
    RemovedRegistration(w, c);
    SendingKeeps(Removed(w, c), frame, accepted);
  }

  lemma DeliveringKeeps(v: View, e: Entry)
    requires Good(v) && e.Received? && IsFrame(e.frame) && Opcode(e.frame) == OP_DATA && Channel(e.frame) in v.table
    ensures var s := v.table[Channel(e.frame)];
      s in v.given && Good(Logged(v, e).(given := v.given[s := v.given[s] + Payload(e.frame)]))
  {
    hide TableAgrees, Answered, IsOpen, DataSinceOpen;
    AnsweredAfter(v.transcript, e);
    DataKeeps(v, Channel(e.frame), e, true);
  }

  lemma CloseFrameKeeps(v: View, e: Entry)
    requires Good(v) && e.Received? && IsFrame(e.frame) && (Opcode(e.frame) == OP_CLOSE || Opcode(e.frame) == OP_ERROR)
    ensures Good(Removed(Logged(v, e), Channel(e.frame)))
  {
    hide TableAgrees, DataAgrees, Answered, IsOpen, DataSinceOpen;
    AnsweredAfter(v.transcript, e);
    ConsistentRemovalKeeps(v, Channel(e.frame), e);
    assert Logged(Removed(v, Channel(e.frame)), e) == Removed(Logged(v, e), Channel(e.frame));
  }

  lemma GivenIsKnown(v: View)
    requires Good(v)
    ensures forall c :: c in v.table ==> v.table[c] in v.given && v.table[c] in v.taken
  {
  }

  /** Whatever frame arrives, and however the sockets behave, the state stays good. */
  lemma FrameKeepsGood(v: View, ports: set<UInt16>, frame: seq<Byte>, connect: Connect, delivered: bool, accepted: bool)
    requires Good(v) && v.open && IsFrame(frame)
    ensures forall c :: c in v.table ==> v.table[c] in v.given
    ensures Good(AfterFrame(v, ports, frame, connect, delivered, accepted))
  {
    hide Good, AfterSend, AfterOpenRequest, Message, Code;
    GivenIsKnown(v);
    var e, c, op := Received(frame), Channel(frame), Opcode(frame);
    if op == OP_DATA {
      if c !in v.table {
        RefusingKeeps(v, e, ERR_BAD_CHANNEL, accepted);
      } else if delivered {
        DeliveringKeeps(v, e);
      } else {
        BreakingKeeps(v, e, accepted);
      }
    } else if op == OP_OPEN_REQUEST {
      OpenRequestKeepsGood(v, ports, e, connect, accepted);
    } else if op == OP_CLOSE || op == OP_ERROR {
      CloseFrameKeeps(v, e);
    } else {
      RefusingKeeps(v, e, ERR_PROTOCOL, accepted);
    }
  }

  lemma RegisteredIsInTable(v: View, s: Socket, c: UInt16)
    requires Good(v) && s in v.registered && v.registered[s] == Multiplexer(c) && s != v.webSocket
    ensures v.open && c in v.table && v.table[c] == s && s in v.given && s in v.taken
  {
  }

  lemma EndingKeepsGood(v: View, s: Socket, c: UInt16, code: UInt16, accepted: bool)
    requires Good(v) && s in v.registered && v.registered[s] == Multiplexer(c) && s != v.webSocket
    requires code != ERR_PROTOCOL
    ensures Good(AfterSend(Removed(v, c), Message(OP_ERROR, c, code), accepted))
  {
    hide TableAgrees, DataAgrees, Answered, AfterSend, Header;
    MessageFields(OP_ERROR, c, code, []);
    RemovingAndSendingKeeps(v, c, Message(OP_ERROR, c, code), accepted);
  }

  lemma CloseKeepsGood(v: View, reason: CloseReason)
    requires Good(v)
    ensures Good(AfterClose(v, reason))
  {
    if v.open {
      CloseIsConsistent(v, reason);
      AnsweredAfter(v.transcript, Closed(reason));
    }
  }

  // ---- The forwarder ----

  datatype FrameKind = Binary | Pong | CloseFrame | Other

  datatype Incoming = ReceiveFails | Arrives(kind: FrameKind, bytes: seq<Byte>)

  function AfterIncoming(v: View, ports: set<UInt16>, incoming: Incoming, connect: Connect, delivered: bool, accepted: bool): View
    requires incoming.Arrives? && incoming.kind.Binary? && incoming.bytes != [] ==> IsFrame(incoming.bytes)
    requires forall c :: c in v.table ==> v.table[c] in v.given
  {
    match incoming
    case ReceiveFails => AfterClose(v, ByError)
    case Arrives(kind, bytes) =>
      if kind.Pong? then v
      else if kind.Binary? && bytes != [] then AfterFrame(v, ports, bytes, connect, delivered, accepted)
      else if bytes == [] || kind.CloseFrame? then AfterClose(v, Graceful)
      else v
  }

  class RemotePortForwarder {
    const webSocket: Socket
    const ports: set<UInt16>
    var open: bool
    var timeoutCount: bool
    var channelMap: map<UInt16, Socket>
    var registered: map<Socket, Handler>
    var given: map<Socket, seq<Byte>>
    var taken: map<Socket, seq<Byte>>
    var nextSocket: Socket
    var transcript: Transcript

    ghost function V(): View
      reads this
    {
      View(webSocket, open, channelMap, registered, given, taken, nextSocket, transcript)
    }

    constructor (webSocket: Socket, ports: set<UInt16>)
      ensures Good(V()) && open && channelMap == map[] && transcript == []
      ensures this.webSocket == webSocket && this.ports == ports
    {
      this.webSocket, this.ports := webSocket, ports;
      open, timeoutCount := true, false;
      channelMap, given, taken := map[], map[], map[];
      registered := map[webSocket := Demultiplexer];
      nextSocket := webSocket + 1;
      transcript := [];
    }

    /** False stands for the exception of a web socket that is lost. */
    method SendFrame(frame: seq<Byte>, accepted: bool) returns (sent: bool)
      modifies this`transcript
      ensures sent <==> open && accepted
      ensures transcript == if sent then old(transcript) + [Sent(frame)] else old(transcript)
    {
      sent := open && accepted;
      if sent {
        transcript := transcript + [Sent(frame)];
      }
    }

    method CloseWebSocket(reason: CloseReason)
      modifies this
      ensures unchanged(this`timeoutCount)
      ensures V() == AfterClose(old(V()), reason)
    {
      if !open {
        return;
      }
      registered := registered - {webSocket};
      ghost var start := registered;
      var todo := channelMap.Keys;
      ghost var done: set<Socket> := {};
      while todo != {}
        invariant todo <= channelMap.Keys
        invariant done == set c | c in channelMap && c !in todo :: channelMap[c]
        invariant registered == start - done
        invariant V() == old(V()).(registered := registered)
        invariant unchanged(this`timeoutCount)
      {
        var c :| c in todo;
        registered := registered - {channelMap[c]};
        done := done + {channelMap[c]};
        todo := todo - {c};
      }
      assert done == channelMap.Values;
      open := false;
      channelMap := map[];
      transcript := transcript + [Closed(reason)];
    }

    method RemoveChannel(c: UInt16)
      modifies this`channelMap, this`registered
      ensures V() == Removed(old(V()), c)
    {
      if c in channelMap {
        registered := registered - {channelMap[c]};
        channelMap := channelMap - {c};
      }
    }

    method SendOrClose(frame: seq<Byte>, accepted: bool) returns (sent: bool)
      modifies this
      ensures unchanged(this`timeoutCount)
      ensures sent <==> old(open) && accepted
      ensures V() == AfterSend(old(V()), frame, accepted)
    {
      sent := SendFrame(frame, accepted);
      if !sent {
        CloseWebSocket(ByError);
      }
    }

    method SendResponse(c: UInt16, opcode: Byte, errorCode: UInt16, accepted: bool)
      modifies this
      ensures unchanged(this`timeoutCount)
      ensures V() == AfterSend(old(V()), Message(opcode, c, errorCode), accepted)
    {
      var buffer := new Byte[6];
      var hn := WriteHeader(buffer, opcode, 0, c, errorCode);
      var sent := SendOrClose(buffer[..hn], accepted);
    }

    /** The socket of a channel is readable: its bytes go to the peer, or the channel is closed. */
    method Multiplex(socket: Socket, c: UInt16, buffer: array<Byte>, input: LocalInput, accepted: bool)
      returns (expectMore: bool)
      requires Good(V()) && socket in registered && registered[socket] == Multiplexer(c)
      requires socket != webSocket
      requires buffer.Length == FRAME_MAX_SIZE + FRAME_HEADER_SIZE
      requires input.Bytes? ==> 0 < |input.data| <= FRAME_MAX_SIZE
      modifies this, buffer
      ensures Good(V()) && unchanged(this`timeoutCount)
      ensures V() == AfterMultiplex(old(V()), c, input, accepted)
      ensures expectMore <==> input.Bytes? && accepted
    {
      hide TableAgrees, DataAgrees, Answered, AfterSend;
      RegisteredIsInTable(V(), socket, c);
      MultiplexKeepsGood(V(), c, input, accepted);
      var hn := WriteHeader(buffer, OP_DATA, 0, c, 0);
      expectMore := true;
      var n := 0;
      match input {
        case Bytes(data) =>
          n := |data|;
          forall k | 0 <= k < n {
            buffer[hn + k] := data[k];
          }
          taken := taken[socket := taken[socket] + data];
          assert buffer[..n + hn] == Message(OP_DATA, c, 0) + data;
        case EndOfStream =>
          RemoveChannel(c);
          hn := WriteHeader(buffer, OP_CLOSE, 0, c, 0);
          expectMore := false;
        case Breaks(tlsClosed) =>
          RemoveChannel(c);
          if tlsClosed {
            hn := WriteHeader(buffer, OP_CLOSE, 0, c, 0);
          } else {
            hn := WriteHeader(buffer, OP_ERROR, 0, c, ERR_SOCKET);
          }
          expectMore := false;
      }
      var sent := SendOrClose(buffer[..n + hn], accepted);
      expectMore := expectMore && sent;
    }

    /** The socket of a channel has failed, or was silent for too long. */
    method MultiplexEnds(socket: Socket, c: UInt16, buffer: array<Byte>, code: UInt16, accepted: bool)
      requires Good(V()) && socket in registered && registered[socket] == Multiplexer(c) && socket != webSocket
      requires code == ERR_SOCKET || code == ERR_TIMEOUT
      requires buffer.Length == FRAME_MAX_SIZE + FRAME_HEADER_SIZE
      modifies this, buffer
      ensures Good(V()) && unchanged(this`timeoutCount)
      ensures V() == AfterSend(Removed(old(V()), c), Message(OP_ERROR, c, code), accepted)
    {
      hide TableAgrees, DataAgrees, Answered, AfterSend;
      EndingKeepsGood(V(), socket, c, code, accepted);
      RemoveChannel(c);
      var hn := WriteHeader(buffer, OP_ERROR, 0, c, code);
      var sent := SendOrClose(buffer[..hn], accepted);
    }

    /** Something has arrived on the web socket, or receiving it has failed. */
    method Demultiplex(buffer: array<Byte>, incoming: Incoming, connect: Connect, delivered: bool, accepted: bool)
      returns (expectMore: bool)
      requires Good(V()) && webSocket in registered
      requires buffer.Length == FRAME_MAX_SIZE + FRAME_HEADER_SIZE
      requires incoming.Arrives? ==> |incoming.bytes| <= buffer.Length
      requires incoming.Arrives? && incoming.kind.Binary? && incoming.bytes != [] ==> IsFrame(incoming.bytes)
      modifies this, buffer
      ensures Good(V())
      ensures V() == AfterIncoming(old(V()), ports, incoming, connect, delivered, accepted)
      ensures timeoutCount == (old(timeoutCount) && !(incoming.Arrives? && incoming.kind.Pong?))
    {
      if incoming.ReceiveFails? {
        CloseKeepsGood(V(), ByError);
        CloseWebSocket(ByError);
        return false;
      }
      var n := |incoming.bytes|;
      forall k | 0 <= k < n {
        buffer[k] := incoming.bytes[k];
      }
      if incoming.kind.Pong? {
        timeoutCount := false;
        return false;
      }
      if n > 0 && incoming.kind.Binary? {
        assert buffer[..n] == incoming.bytes;
        expectMore := HandleFrame(buffer, n, connect, delivered, accepted);
      } else if n <= 0 || incoming.kind.CloseFrame? {
        CloseKeepsGood(V(), Graceful);
        CloseWebSocket(Graceful);
        expectMore := false;
      } else {
        expectMore := false;
      }
    }

    method HandleFrame(buffer: array<Byte>, n: nat, connect: Connect, delivered: bool, accepted: bool)
      returns (expectMore: bool)
      requires Good(V()) && open
      requires 6 <= buffer.Length && n <= buffer.Length && IsFrame(buffer[..n])
      modifies this
      ensures Good(V()) && unchanged(this`timeoutCount)
      ensures V() == AfterFrame(old(V()), ports, buffer[..n], connect, delivered, accepted)
    {
      var frame := buffer[..n];
      FrameKeepsGood(V(), ports, frame, connect, delivered, accepted);
      var hn, opcode, flags, c, portOrErrorCode := ReadHeader(buffer, true);
      assert opcode == Opcode(frame) && c == Channel(frame) && portOrErrorCode == Code(frame);
      transcript := transcript + [Received(frame)];
      if opcode == OP_DATA {
        assert frame[hn..] == Payload(frame);
        expectMore := ForwardData(frame[hn..], c, delivered, accepted);
      } else if opcode == OP_OPEN_REQUEST {
        expectMore := OpenChannel(c, portOrErrorCode, connect, accepted);
      } else if opcode == OP_CLOSE || opcode == OP_ERROR {
        RemoveChannel(c);
        expectMore := false;
      } else {
        SendResponse(c, OP_ERROR, ERR_PROTOCOL, accepted);
        expectMore := false;
      }
    }

    method ForwardData(payload: seq<Byte>, c: UInt16, delivered: bool, accepted: bool) returns (forwarded: bool)
      requires c in channelMap ==> channelMap[c] in given
      modifies this
      ensures unchanged(this`timeoutCount)
      ensures V() == AfterData(old(V()), c, payload, delivered, accepted)
      ensures forwarded <==> old(c in channelMap) && delivered
    {
      if c in channelMap {
        var socket := channelMap[c];
        if delivered {
          given := given[socket := given[socket] + payload];
          return true;
        }
        RemoveChannel(c);
        SendResponse(c, OP_ERROR, ERR_SOCKET, accepted);
      } else {
        SendResponse(c, OP_ERROR, ERR_BAD_CHANNEL, accepted);
      }
      return false;
    }

    method OpenChannel(c: UInt16, port: UInt16, connect: Connect, accepted: bool) returns (succeeded: bool)
      modifies this
      ensures unchanged(this`timeoutCount)
      ensures V() == AfterOpenRequest(old(V()), ports, c, port, connect, accepted)
      ensures succeeded <==> port in ports && old(c !in channelMap) && connect.Connected?
    {
      if port !in ports {
        SendResponse(c, OP_OPEN_FAULT, ERR_NOT_FORWARDED, accepted);
        return false;
      }
      if c in channelMap {
        SendResponse(c, OP_OPEN_FAULT, ERR_CHANNEL_IN_USE, accepted);
        return false;
      }
      match connect {
        case Connected =>
          var socket := nextSocket;
          nextSocket := nextSocket + 1;
          registered := registered[socket := Multiplexer(c)];
          given, taken := given[socket := []], taken[socket := []];
          channelMap := channelMap[c := socket];
          SendResponse(c, OP_OPEN_CONFIRM, 0, accepted);
          succeeded := true;
        case Refused =>
          SendResponse(c, OP_OPEN_FAULT, ERR_CONN_REFUSED, accepted);
          succeeded := false;
        case TimedOut =>
          SendResponse(c, OP_OPEN_FAULT, ERR_TIMEOUT, accepted);
          succeeded := false;
        case Fails =>
          SendResponse(c, OP_OPEN_FAULT, ERR_SOCKET, accepted);
          succeeded := false;
      }
    }

    method DemultiplexError()
      requires Good(V())
      modifies this
      ensures Good(V()) && V() == AfterClose(old(V()), ByError)
    {
      CloseKeepsGood(V(), ByError);
      CloseWebSocket(ByError);
    }

    /** The web socket was silent: the first time it is pinged, the second time it is closed. */
    method DemultiplexTimeout(accepted: bool)
      requires Good(V())
      modifies this
      ensures Good(V()) && timeoutCount
      ensures V() == if old(timeoutCount) then AfterClose(old(V()), ByTimeout)
                     else if old(open) && accepted then old(V()) else AfterClose(old(V()), ByError)
    {
      CloseKeepsGood(V(), ByTimeout);
      CloseKeepsGood(V(), ByError);
      if !timeoutCount {
        timeoutCount := true;
        if !(open && accepted) {
          CloseWebSocket(ByError);
        }
      } else {
        CloseWebSocket(ByTimeout);
      }
    }

    method Stop()
      requires Good(V())
      modifies this
      ensures Good(V()) && V() == AfterClose(old(V()), Graceful)
    {
      CloseKeepsGood(V(), Graceful);
      CloseWebSocket(Graceful);
    }
  }
}
