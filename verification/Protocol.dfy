/** What one call of a client puts on the wire and what the server's worker answers.

    There is no framing beyond a fixed-size packet whose body may hold the length of the
    bytes that follow, so everything rests on both ends agreeing on these byte strings. */
module Protocol {
  import opened Bytes
  import opened Packets

  /** The four exchanging methods of `Client::Impl`. */
  datatype Method = SendRequest | SendData | RecvData | SendRecvData

  datatype Call = Call(meth: Method, code: uint64, body: seq<byte>)

  /** A data message that a download callback writes on the socket. */
  datatype Message = Message(code: uint64, payload: seq<byte>)

  /** What one callback evaluation decides: Accept or Reject, and the message it wrote, if any. */
  datatype Verdict = Verdict(accepted: bool, message: Option<Message>)

  /** How one call of `Client` ends: a normal return with the received bytes, one of the
      two protocol exceptions, or a SocketException (which the wrappers swallow). */
  datatype Outcome = Accepted(data: seq<byte>) | Rejected | Failure | SocketError

  function GroupOfMethod(m: Method): Group {
    match m
    case SendRequest => Request
    case SendData => Data
    case RecvData => Download
    case SendRecvData => UpDownload
  }

  predicate Uploads(m: Method) {
    m.SendData? || m.SendRecvData?
  }

  predicate WantsData(m: Method) {
    m.RecvData? || m.SendRecvData?
  }

  /** A method is used with a code of its own group; only uploads carry a body. */
  predicate ValidCall(c: Call) {
    && InRange(c.code, GroupOfMethod(c.meth))
    && |c.body| < U64
    && (!Uploads(c.meth) ==> c.body == [])
  }

  /** Any code of the range and any body, the empty one included. */
  lemma AnyCallIsValid(code: uint64, body: seq<byte>)
    requires |body| < U64
    ensures InRange(code, Request) ==> ValidCall(Call(SendRequest, code, []))
    ensures InRange(code, Data) ==> ValidCall(Call(SendData, code, body))
    ensures InRange(code, Download) ==> ValidCall(Call(RecvData, code, []))
    ensures InRange(code, UpDownload) ==> ValidCall(Call(SendRecvData, code, body))
  {
  }

  function RequestPacket(c: Call): (p: Packet)
    requires ValidCall(c)
    ensures Code(p) == c.code && DataSize(p) == |c.body|
  {
    if Uploads(c.meth) then
      DispatchIsExact(c.code, GroupOfMethod(c.meth));
      MakeDataPacket(c.code, |c.body|).value
    else MakePacket(c.code)
  }

  predicate ValidMessage(m: Message) {
    MayCarryData(m.code) && |m.payload| < U64
  }

  function MessagePacket(m: Message): (p: Packet)
    requires ValidMessage(m)
    ensures Code(p) == m.code != REJECT && DataSize(p) == |m.payload|
  {
    MakeDataPacket(m.code, |m.payload|).value
  }

  predicate ValidVerdict(v: Verdict) {
    v.message.Some? ==> ValidMessage(v.message.value)
  }

  /** The packets that answer a request: the message's packet and payload, then the ack. */
  datatype Reply = Reply(head: Option<Packet>, payload: seq<byte>, ack: Packet)

  predicate Answers(v: Verdict, r: Reply) {
    && Code(r.ack) == (if v.accepted then ACCEPT else REJECT) && DataSize(r.ack) == 0
    && match v.message
       case None => r.head.None? && r.payload == []
       case Some(m) =>
         && r.head.Some? && r.payload == m.payload
         && Code(r.head.value) == m.code && m.code != REJECT
         && DataSize(r.head.value) == |m.payload|
  }

  function ReplyTo(v: Verdict): (r: Reply)
    requires ValidVerdict(v)
    ensures Answers(v, r)
  {
    var ack := MakePacket(if v.accepted then ACCEPT else REJECT);
    match v.message
    case None => Reply(None, [], ack)
    case Some(m) => Reply(Some(MessagePacket(m)), m.payload, ack)
  }

  function ReplyBytes(r: Reply): seq<byte> {
    (if r.head.Some? then r.head.value + r.payload else []) + r.ack
  }

  /** What a worker may decide about a request, given the codes that are registered with a
      callback which overrides the function of the code's group: any other code is accepted and
      nothing else happens; a request or data callback writes no message; a download callback
      that returns has written one complete message. */
  predicate Fits(registered: set<uint64>, code: uint64, v: Verdict) {
    && ValidVerdict(v)
    && (code !in registered ==> v == Verdict(true, None))
    && (code in registered && (GroupOf(code) == Some(Request) || GroupOf(code) == Some(Data)) ==> v.message.None?)
    && (code in registered && (GroupOf(code) == Some(Download) || GroupOf(code) == Some(UpDownload)) && v.accepted ==>
          v.message.Some?)
    && (GroupOf(code).None? ==> v == Verdict(true, None))
  }

  /** Nothing else is excluded: a callback of a code's own group may accept or reject, and one that
      rejects a download may have written a message or not. */
  lemma AnythingElseFits(registered: set<uint64>, code: uint64, m: Message)
    requires code in registered && ValidMessage(m)
    ensures GroupOf(code) == Some(Request) || GroupOf(code) == Some(Data) ==>
      Fits(registered, code, Verdict(true, None)) && Fits(registered, code, Verdict(false, None))
    ensures GroupOf(code) == Some(Download) || GroupOf(code) == Some(UpDownload) ==>
      && Fits(registered, code, Verdict(true, Some(m)))
      && Fits(registered, code, Verdict(false, Some(m))) && Fits(registered, code, Verdict(false, None))
  {
  }

  /** A call that asks for data must name a code that has a callback of its own group. */
  predicate Answerable(registered: set<uint64>, c: Call) {
    WantsData(c.meth) ==> c.code in registered
  }

  /** The result that belongs to a verdict on one's own call. */
  function OutcomeOf(c: Call, v: Verdict): Outcome {
    if !v.accepted then Rejected
    else if WantsData(c.meth) && v.message.Some? then Accepted(v.message.value.payload)
    else Accepted([])
  }
}
