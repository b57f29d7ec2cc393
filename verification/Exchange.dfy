/** One connection as a step system: any number of client threads sharing one `Client`
    (one mutex, one socket) and the worker thread that serves the connection.

    A step is one `recv` or `send` of some number of bytes, one lock acquisition, one
    callback evaluation, or the breaking of the connection. The lock is released by the
    step that ends the call. */
module Exchange {
  import opened Bytes
  import opened Packets
  import opened Protocol

  /** Where the lock holder is inside its call; `unsent` and `got` belong to the running
      `write` or `read` loop. */
  datatype ClientPhase =
    | SendingPacket(unsent: seq<byte>)
    | SendingBuffer(unsent: seq<byte>)
    | ReceivingFirst(got: seq<byte>)
    | ReceivingBuffer(first: Packet, got: seq<byte>)
    | ReceivingAck(first: Packet, data: seq<byte>, got: seq<byte>)

  datatype ClientProgress = Continue(phase: ClientPhase) | Finish(outcome: Outcome)

  /** Where the worker is inside one iteration of its loop. */
  datatype ServerPhase =
    | AwaitingPacket(got: seq<byte>)
    | AwaitingBuffer(packet: Packet, got: seq<byte>)
    | Evaluating(packet: Packet, body: seq<byte>)
    | SendingMessage(unsent: seq<byte>, reply: Reply)
    | SendingPayload(unsent: seq<byte>, reply: Reply)
    | SendingAck(unsent: seq<byte>)
    | Stopped

  datatype Holder = Holder(thread: nat, call: Call, packet: Packet, phase: ClientPhase)
  datatype Ticket = Ticket(thread: nat, call: Call)
  datatype Evaluation = Evaluation(call: Call, verdict: Verdict, reply: Reply)

  /** `registered` are the codes that have a callback of their own group. `acquired`, `evaluated`
      and `outcomes` record, in order, the calls that took the lock, the callback evaluations, and
      how the calls ended. */
  datatype Connection = Connection(
    registered: set<uint64>,
    holder: Option<Holder>,
    toServer: seq<byte>,
    toClient: seq<byte>,
    server: ServerPhase,
    broken: bool,
    acquired: seq<Ticket>,
    evaluated: seq<Evaluation>,
    outcomes: seq<Outcome>)

  datatype Step =
    | Acquire(thread: nat, call: Call)
    | ClientSend(n: nat)
    | ClientRecv(n: nat)
    | ServerRecv(n: nat)
    | ServerEval(verdict: Verdict)
    | ServerSend(n: nat)
    | Break
    | ClientAbort
    | ServerStop

  function Fresh(registered: set<uint64>): Connection {
    Connection(registered, None, [], [], AwaitingPacket([]), false, [], [], [])
  }

  // ---- the client's side -------------------------------------------------------------

  /** Bytes of the running `write` loop. */
  function Writing(ph: ClientPhase): seq<byte> {
    match ph
    case SendingPacket(u) => u
    case SendingBuffer(u) => u
    case _ => []
  }

  function AfterClientSend(c: Call, ph: ClientPhase, n: nat): ClientPhase
    requires n <= |Writing(ph)|
  {
    match ph
    case SendingPacket(u) =>
      if n < |u| then SendingPacket(u[n..])
      else if c.body != [] then SendingBuffer(c.body)   // `send_buffer` skips an empty buffer
      else ReceivingFirst([])
    case SendingBuffer(u) =>
      if n < |u| then SendingBuffer(u[n..]) else ReceivingFirst([])
    case _ => ph
  }

  /** Bytes that the running `read` loop still has to collect. */
  function ClientNeed(ph: ClientPhase): int {
    match ph
    case ReceivingFirst(got) => PACKET_SIZE - |got|
    case ReceivingBuffer(first, got) => DataSize(first) - |got|
    case ReceivingAck(_, _, got) => PACKET_SIZE - |got|
    case _ => 0
  }

  function AckOutcome(ack: Packet, data: seq<byte>): Outcome {
    if Code(ack) == REJECT then Rejected
    else if Code(ack) == FAILED then Failure
    else Accepted(data)
  }

  function AfterClientRecv(c: Call, ph: ClientPhase, chunk: seq<byte>): ClientProgress
    requires |chunk| <= ClientNeed(ph)
  {
    match ph
    case ReceivingFirst(got) =>
      var now := got + chunk;
      if |now| < PACKET_SIZE then Continue(ReceivingFirst(now))
      else
        var p := now;
        if !WantsData(c.meth) then Finish(AckOutcome(p, []))
        else if Code(p) == REJECT then Finish(Rejected)
        else if DataSize(p) > 0 then Continue(ReceivingBuffer(p, []))
        else Continue(ReceivingAck(p, [], []))
    case ReceivingBuffer(first, got) =>
      var now := got + chunk;
      if |now| < DataSize(first) then Continue(ReceivingBuffer(first, now))
      else Continue(ReceivingAck(first, now, []))
    case ReceivingAck(first, data, got) =>
      var now := got + chunk;
      if |now| < PACKET_SIZE then Continue(ReceivingAck(first, data, now))
      else Finish(AckOutcome(now, data))
    case _ => Continue(ph)
  }

  // ---- the worker's side -------------------------------------------------------------

  function ServerNeed(ph: ServerPhase): int {
    match ph
    case AwaitingPacket(got) => PACKET_SIZE - |got|
    case AwaitingBuffer(p, got) => DataSize(p) - |got|
    case _ => 0
  }

  function AfterServerRecv(ph: ServerPhase, chunk: seq<byte>): ServerPhase
    requires |chunk| <= ServerNeed(ph)
  {
    match ph
    case AwaitingPacket(got) =>
      var now := got + chunk;
      if |now| < PACKET_SIZE then AwaitingPacket(now)
      else
        var p := now;
        if CarriesBuffer(p) && DataSize(p) > 0
        then AwaitingBuffer(p, [])
        else Evaluating(p, [])
    case AwaitingBuffer(p, got) =>
      var now := got + chunk;
      if |now| < DataSize(p) then AwaitingBuffer(p, now) else Evaluating(p, now)
    case _ => ph
  }

  function AfterEval(r: Reply): ServerPhase {
    match r.head
    case Some(p) => SendingMessage(p, r)
    case None => SendingAck(r.ack)
  }

  function ServerWriting(ph: ServerPhase): seq<byte> {
    match ph
    case SendingMessage(u, _) => u
    case SendingPayload(u, _) => u
    case SendingAck(u) => u
    case _ => []
  }

  function AfterServerSend(ph: ServerPhase, n: nat): ServerPhase
    requires n <= |ServerWriting(ph)|
  {
    match ph
    case SendingMessage(u, r) =>
      if n < |u| then SendingMessage(u[n..], r)
      else if r.payload != [] then SendingPayload(r.payload, r)
      else SendingAck(r.ack)
    case SendingPayload(u, r) =>
      if n < |u| then SendingPayload(u[n..], r) else SendingAck(r.ack)
    case SendingAck(u) =>
      if n < |u| then SendingAck(u[n..]) else AwaitingPacket([])
    case _ => ph
  }

  // ---- steps -------------------------------------------------------------------------

  predicate Enabled(s: Connection, step: Step) {
    match step
    case Acquire(_, call) => s.holder.None? && ValidCall(call)
    case ClientSend(n) => !s.broken && s.holder.Some? && 1 <= n <= |Writing(s.holder.value.phase)|
    case ClientRecv(n) =>
      !s.broken && s.holder.Some? && 1 <= n <= |s.toClient| && n <= ClientNeed(s.holder.value.phase)
    case ServerRecv(n) => !s.broken && 1 <= n <= |s.toServer| && n <= ServerNeed(s.server)
    case ServerEval(v) => s.server.Evaluating? && Fits(s.registered, Code(s.server.packet), v)
    case ServerSend(n) => !s.broken && 1 <= n <= |ServerWriting(s.server)|
    case Break => !s.broken
    case ClientAbort => s.broken && s.holder.Some?
    case ServerStop => s.broken && !s.server.Evaluating? && !s.server.Stopped?
  }

  function Finished(s: Connection, o: Outcome): Connection {
    s.(holder := None, outcomes := s.outcomes + [o])
  }

  /** The request the worker has read, as the call it stands for. */
  function CallOfPacket(p: Packet, body: seq<byte>): Call {
    var m := match GroupOf(Code(p))
             case Some(Data) => SendData
             case Some(Download) => RecvData
             case Some(UpDownload) => SendRecvData
             case _ => SendRequest;
    Call(m, Code(p), body)
  }

  function Apply(s: Connection, step: Step): Connection
    requires Enabled(s, step)
  {
    match step
    case Acquire(t, call) =>
      var p := RequestPacket(call);
      s.(holder := Some(Holder(t, call, p, SendingPacket(p))),
         acquired := s.acquired + [Ticket(t, call)])
    case ClientSend(n) =>
      var h := s.holder.value;
      s.(holder := Some(h.(phase := AfterClientSend(h.call, h.phase, n))),
         toServer := s.toServer + Writing(h.phase)[..n])
    case ClientRecv(n) =>
      var h := s.holder.value;
      var s' := s.(toClient := s.toClient[n..]);
      (match AfterClientRecv(h.call, h.phase, s.toClient[..n])
       case Continue(ph) => s'.(holder := Some(h.(phase := ph)))
       case Finish(o) => Finished(s', o))
    case ServerRecv(n) =>
      s.(server := AfterServerRecv(s.server, s.toServer[..n]), toServer := s.toServer[n..])
    case ServerEval(v) =>
      var r := ReplyTo(v);
      s.(server := AfterEval(r),
         evaluated := s.evaluated + [Evaluation(CallOfPacket(s.server.packet, s.server.body), v, r)])
    case ServerSend(n) =>
      s.(server := AfterServerSend(s.server, n), toClient := s.toClient + ServerWriting(s.server)[..n])
    case Break => s.(broken := true)
    case ClientAbort => Finished(s, SocketError)
    case ServerStop => s.(server := Stopped)
  }

  /** A sequence of steps that can be taken one after the other from `s`. */
  ghost predicate Allowed(s: Connection, steps: seq<Step>)
    decreases |steps|
  {
    steps == [] || (Enabled(s, steps[0]) && Allowed(Apply(s, steps[0]), steps[1..]))
  }

  ghost function Run(s: Connection, steps: seq<Step>): Connection
    requires Allowed(s, steps)
    decreases |steps|
  {
    if steps == [] then s else Run(Apply(s, steps[0]), steps[1..])
  }
}
