/** The invariant of the exchange: whatever chunks the system calls move and whoever takes
    the lock, the bytes consumed by one end, the bytes in flight and the bytes still unsent
    at the other end add up to exactly the request, respectively the reply, of the call
    that holds the lock. */
module Alignment {
  import opened Bytes
  import opened Packets
  import opened Protocol
  import opened Exchange

  // ---- what each end has consumed and still owes -------------------------------------

  function Unsent(c: Call, ph: ClientPhase): seq<byte> {
    match ph
    case SendingPacket(u) => u + c.body
    case SendingBuffer(u) => u
    case _ => []
  }

  function Received(ph: ClientPhase): seq<byte> {
    match ph
    case ReceivingFirst(got) => got
    case ReceivingBuffer(first, got) => first + got
    case ReceivingAck(first, data, got) => first + data + got
    case _ => []
  }

  function Consumed(ph: ServerPhase): seq<byte> {
    match ph
    case AwaitingPacket(got) => got
    case AwaitingBuffer(p, got) => p + got
    case Evaluating(p, body) => p + body
    case _ => []
  }

  function Pending(ph: ServerPhase): seq<byte> {
    match ph
    case SendingMessage(u, r) => u + r.payload + r.ack
    case SendingPayload(u, r) => u + r.ack
    case SendingAck(u) => u
    case _ => []
  }

  predicate Speaking(ph: ClientPhase) {
    ph.SendingPacket? || ph.SendingBuffer?
  }

  predicate Reading(ph: ServerPhase) {
    ph.AwaitingPacket? || ph.AwaitingBuffer? || ph.Evaluating?
  }

  ghost predicate ClientWf(c: Call, ph: ClientPhase) {
    match ph
    case SendingPacket(u) => u != []
    case SendingBuffer(u) => u != []
    case ReceivingFirst(got) => |got| < PACKET_SIZE
    case ReceivingBuffer(first, got) => WantsData(c.meth) && Code(first) != REJECT && |got| < DataSize(first)
    case ReceivingAck(first, data, got) =>
      WantsData(c.meth) && Code(first) != REJECT && |data| == DataSize(first) && |got| < PACKET_SIZE
  }

  ghost predicate ServerWf(ph: ServerPhase) {
    match ph
    case AwaitingPacket(got) => |got| < PACKET_SIZE
    case AwaitingBuffer(p, got) => CarriesBuffer(p) && |got| < DataSize(p)
    case Evaluating(p, body) => |body| == if CarriesBuffer(p) then DataSize(p) else 0
    case SendingMessage(u, _) => u != []
    case SendingPayload(u, _) => u != []
    case SendingAck(u) => u != []
    case Stopped => false
  }

  // ---- the invariant -----------------------------------------------------------------

  /** The packet announces the call: its code, and the number of bytes that follow. */
  ghost predicate Announces(p: Packet, c: Call) {
    && Code(p) == c.code && DataSize(p) == |c.body|
    && (CarriesBuffer(p) <==> Uploads(c.meth))
    && (!Uploads(c.meth) ==> c.body == [])
  }

  ghost predicate Asking(s: Connection, h: Holder) {
    && |s.evaluated| + 1 == |s.acquired|
    && s.toClient == []
    && (Speaking(h.phase) || h.phase == ReceivingFirst([]))
    && Reading(s.server)
    && Consumed(s.server) + s.toServer + Unsent(h.call, h.phase) == h.packet + h.call.body
  }

  ghost predicate Answering(s: Connection, h: Holder) {
    && |s.evaluated| == |s.acquired| > 0
    && s.toServer == []
    && !Speaking(h.phase)
    && (Reading(s.server) ==> s.server == AwaitingPacket([]))
    && Received(h.phase) + s.toClient + Pending(s.server) == ReplyBytes(s.evaluated[|s.evaluated| - 1].reply)
  }

  ghost predicate Idle(s: Connection) {
    && s.toServer == [] && s.toClient == []
    && s.server == AwaitingPacket([])
    && |s.evaluated| == |s.acquired|
  }

  ghost predicate Aligned(s: Connection) {
    match s.holder
    case None => Idle(s)
    case Some(h) =>
      && Announces(h.packet, h.call) && ClientWf(h.call, h.phase) && ServerWf(s.server)
      && (Asking(s, h) || Answering(s, h))
  }

  ghost predicate Tickets(s: Connection) {
    && (forall k :: 0 <= k < |s.acquired| ==> ValidCall(s.acquired[k].call))
    && (match s.holder
        case None => |s.acquired| == |s.outcomes|
        case Some(h) =>
          |s.acquired| == |s.outcomes| + 1 && s.acquired[|s.outcomes|] == Ticket(h.thread, h.call))
  }

  /** A recorded evaluation is of its call, and allowed by the registered callbacks. */
  ghost predicate Faithful(registered: set<uint64>, c: Call, e: Evaluation) {
    e.call == c && Fits(registered, c.code, e.verdict) && Answers(e.verdict, e.reply)
  }

  /** Evaluations happen in the order of lock acquisition, on the requests as they were made. */
  ghost predicate InOrder(s: Connection) {
    && |s.evaluated| <= |s.acquired|
    && (forall k :: 0 <= k < |s.evaluated| ==> Faithful(s.registered, s.acquired[k].call, s.evaluated[k]))
    && (s.server.Evaluating? ==>
          && |s.evaluated| < |s.acquired|
          && Code(s.server.packet) == s.acquired[|s.evaluated|].call.code
          && s.server.body == s.acquired[|s.evaluated|].call.body)
  }

  /** Every call that ended without a socket error got the verdict on its own request. */
  ghost predicate OwnReplies(s: Connection)
    requires |s.outcomes| <= |s.acquired|
  {
    forall k :: 0 <= k < |s.outcomes| ==>
      || (s.broken && s.outcomes[k] == SocketError)
      || (k < |s.evaluated| && s.outcomes[k] == OutcomeOf(s.acquired[k].call, s.evaluated[k].verdict))
  }

  ghost predicate Inv(s: Connection) {
    Tickets(s) && InOrder(s) && OwnReplies(s) && (!s.broken ==> Aligned(s))
  }

  // ---- lemmas about the byte strings -------------------------------------------------

  /** Two byte strings that agree, cut at the same place. */
  lemma SameCut(a: seq<byte>, b: seq<byte>, c: seq<byte>, d: seq<byte>)
    requires a + b == c + d && |a| == |c|
    ensures a == c && b == d
  {
    assert (a + b)[..|a|] == a && (a + b)[|a|..] == b;
    assert (c + d)[..|c|] == c && (c + d)[|c|..] == d;
  }

  lemma RequestAnnounces(c: Call)
    requires ValidCall(c)
    ensures Announces(RequestPacket(c), c)
  {
    DispatchIsExact(c.code, GroupOfMethod(c.meth));
  }

  /** The worker reads back the call that was made. */
  lemma RequestReadBack(p: Packet, c: Call)
    requires ValidCall(c) && Code(p) == c.code
    ensures CallOfPacket(p, c.body) == c
  {
    DispatchIsExact(c.code, GroupOfMethod(c.meth));
  }

  // ---- one chunk at a time -----------------------------------------------------------

  lemma ClientSendMoves(c: Call, ph: ClientPhase, n: nat)
    requires ClientWf(c, ph) && 1 <= n <= |Writing(ph)|
    ensures var ph' := AfterClientSend(c, ph, n);
      && ClientWf(c, ph')
      && (Speaking(ph') || ph' == ReceivingFirst([]))
      && Writing(ph)[..n] + Unsent(c, ph') == Unsent(c, ph)
  {
    var u := Writing(ph);
    assert u == u[..n] + u[n..];
  }

  /** What the worker has consumed is a prefix of the request; once it evaluates, it has
      consumed the request exactly. */
  lemma ServerRecvMoves(c: Call, p: Packet, ph: ServerPhase, chunk: seq<byte>, rest: seq<byte>)
    requires Announces(p, c) && ServerWf(ph) && Reading(ph) && 1 <= |chunk| <= ServerNeed(ph)
    requires Consumed(ph) + chunk + rest == p + c.body
    ensures var ph' := AfterServerRecv(ph, chunk);
      && ServerWf(ph') && Reading(ph')
      && Consumed(ph') == Consumed(ph) + chunk
      && (ph'.Evaluating? ==> ph'.packet == p && ph'.body == c.body)
  {
    match ph {
      case AwaitingPacket(got) =>
        var now := got + chunk;
        if |now| == PACKET_SIZE {
          SameCut(now, rest, p, c.body);
          assert now + [] == now;
        }
      case AwaitingBuffer(q, got) =>
        var now := got + chunk;
        assert q + got + chunk + rest == q + (now + rest);
        assert q + got + chunk == q + now;
        SameCut(q, now + rest, p, c.body);
        if |now| == DataSize(q) {
          assert rest == [];
          assert now + rest == now;
        }
      case _ =>
    }
  }

  /** A worker that evaluates has consumed everything. */
  lemma EvaluatedAll(c: Call, p: Packet, q: Packet, body: seq<byte>, rest: seq<byte>)
    requires Announces(p, c) && ServerWf(Evaluating(q, body))
    requires q + body + rest == p + c.body
    ensures rest == []
  {
    assert q + body + rest == q + (body + rest);
    SameCut(q, body + rest, p, c.body);
  }

  lemma AfterEvalOwes(v: Verdict, r: Reply)
    requires Answers(v, r)
    ensures Pending(AfterEval(r)) == ReplyBytes(r) && ServerWf(AfterEval(r)) && !Reading(AfterEval(r))
  {
  }

  lemma ServerSendMoves(ph: ServerPhase, n: nat)
    requires ServerWf(ph) && 1 <= n <= |ServerWriting(ph)|
    ensures var ph' := AfterServerSend(ph, n);
      && ServerWf(ph') && (Reading(ph') ==> ph' == AwaitingPacket([]))
      && ServerWriting(ph)[..n] + Pending(ph') == Pending(ph)
  {
    var u := ServerWriting(ph);
    assert u == u[..n] + u[n..];
  }

  /** The first packet of a reply tells whether a message follows. */
  lemma FirstOfReply(v: Verdict, r: Reply, first: seq<byte>, rest: seq<byte>)
    requires Answers(v, r) && |first| == PACKET_SIZE && first + rest == ReplyBytes(r)
    ensures v.message.None? ==> first == r.ack && rest == []
    ensures v.message.Some? ==> first == r.head.value && rest == r.payload + r.ack
  {
    match r.head
    case None =>
      assert first + rest == r.ack + [];
      SameCut(first, rest, r.ack, []);
    case Some(p) =>
      assert p + r.payload + r.ack == p + (r.payload + r.ack);
      SameCut(first, rest, p, r.payload + r.ack);
  }

  /** A client waiting for the final ack has read exactly the message. */
  lemma LastOfReply(v: Verdict, r: Reply, first: Packet, data: seq<byte>, rest: seq<byte>)
    requires Answers(v, r) && Code(first) != REJECT && |data| == DataSize(first) && rest != []
    requires first + data + rest == ReplyBytes(r)
    ensures v.message.Some? && data == r.payload && rest == r.ack
  {
    assert first + data + rest == first + (data + rest);
    FirstOfReply(v, r, first, data + rest);
    if v.message.Some? {
      SameCut(data, rest, r.payload, r.ack);
    }
  }

  /** Reading on: the bytes are added to what has been received. */
  lemma ClientRecvMoves(c: Call, ph: ClientPhase, chunk: seq<byte>)
    requires ClientWf(c, ph) && !Speaking(ph) && 1 <= |chunk| <= ClientNeed(ph)
    requires AfterClientRecv(c, ph, chunk).Continue?
    ensures var ph' := AfterClientRecv(c, ph, chunk).phase;
      ClientWf(c, ph') && !Speaking(ph') && Received(ph') == Received(ph) + chunk
  {
    match ph
    case ReceivingFirst(got) =>
      var now := got + chunk;
      if |now| == PACKET_SIZE {
        assert now + [] == now && now + [] + [] == now;
      }
    case ReceivingBuffer(first, got) =>
      var now := got + chunk;
      assert first + got + chunk == first + now;
      assert first + now + [] == first + now;
    case ReceivingAck(first, data, got) =>
      var now := got + chunk;
      assert first + data + got + chunk == first + data + now;
  }

  /** A call ends only when the whole reply has been consumed, and with its own verdict. */
  lemma AckOfReply(v: Verdict, r: Reply, first: Packet, data: seq<byte>, ack: seq<byte>, rest: seq<byte>)
    requires Answers(v, r) && Code(first) != REJECT && |data| == DataSize(first) && |ack| == PACKET_SIZE
    requires first + data + (ack + rest) == ReplyBytes(r)
    ensures v.message.Some? && data == r.payload && ack == r.ack && rest == []
  {
    LastOfReply(v, r, first, data, ack + rest);
    assert ack + rest == r.ack + [];
    SameCut(ack, rest, r.ack, []);
  }

  lemma FirstFinishes(c: Call, got: seq<byte>, chunk: seq<byte>, rest: seq<byte>, v: Verdict, r: Reply)
    requires 1 <= |chunk| <= PACKET_SIZE - |got| && AfterClientRecv(c, ReceivingFirst(got), chunk).Finish?
    requires Answers(v, r) && got + chunk + rest == ReplyBytes(r)
    requires !WantsData(c.meth) ==> v.message.None?
    ensures rest == [] && AfterClientRecv(c, ReceivingFirst(got), chunk).outcome == OutcomeOf(c, v)
    ensures WantsData(c.meth) && v.accepted ==> v.message.Some?
  {
    FirstOfReply(v, r, got + chunk, rest);
  }

  lemma ClientRecvFinishes(c: Call, ph: ClientPhase, chunk: seq<byte>, rest: seq<byte>, v: Verdict, r: Reply)
    requires ClientWf(c, ph) && !Speaking(ph) && 1 <= |chunk| <= ClientNeed(ph)
    requires AfterClientRecv(c, ph, chunk).Finish?
    requires Answers(v, r) && Received(ph) + chunk + rest == ReplyBytes(r)
    requires !WantsData(c.meth) ==> v.message.None?
    ensures rest == []
    ensures AfterClientRecv(c, ph, chunk).outcome == OutcomeOf(c, v)
    ensures WantsData(c.meth) && v.accepted ==> v.message.Some?
  {
    match ph
    case ReceivingFirst(got) =>
      FirstFinishes(c, got, chunk, rest, v, r);
    case ReceivingAck(first, data, got) =>
      Regroup(first + data, got, chunk);
      Regroup(first + data, got + chunk, rest);
      AckOfReply(v, r, first, data, got + chunk, rest);
  }

  lemma PlainVerdict(registered: set<uint64>, c: Call, v: Verdict)
    requires ValidCall(c) && Fits(registered, c.code, v) && !WantsData(c.meth)
    ensures v.message.None?
  {
    DispatchIsExact(c.code, GroupOfMethod(c.meth));
  }

  // ---- the steps keep the alignment --------------------------------------------------

  lemma ClientSendAligned(s: Connection, n: nat)
    requires Aligned(s) && Enabled(s, ClientSend(n))
    ensures Aligned(Apply(s, ClientSend(n)))
  {
    var h := s.holder.value;
    ClientSendMoves(h.call, h.phase, n);
    var h' := Apply(s, ClientSend(n)).holder.value;
    var chunk, rest := Writing(h.phase)[..n], Unsent(h.call, h'.phase);
    assert Consumed(s.server) + (s.toServer + chunk) + rest == Consumed(s.server) + s.toServer + (chunk + rest);
  }

  lemma ServerRecvAligned(s: Connection, n: nat)
    requires Aligned(s) && Enabled(s, ServerRecv(n))
    ensures Aligned(Apply(s, ServerRecv(n)))
    ensures s.holder.Some? && |s.evaluated| + 1 == |s.acquired|
    ensures var ph', h := AfterServerRecv(s.server, s.toServer[..n]), s.holder.value;
      ph'.Evaluating? ==> Code(ph'.packet) == h.call.code && ph'.body == h.call.body
  {
    var h := s.holder.value;
    var a, chunk, rest := Consumed(s.server), s.toServer[..n], s.toServer[n..];
    var unsent := Unsent(h.call, h.phase);
    assert s.toServer == chunk + rest;
    assert a + s.toServer + unsent == a + chunk + (rest + unsent) == (a + chunk) + rest + unsent;
    ServerRecvMoves(h.call, h.packet, s.server, chunk, rest + unsent);
  }

  /** The state after an evaluation with any reply that answers the verdict. */
  ghost function Evaluated(s: Connection, e: Evaluation): Connection {
    s.(server := AfterEval(e.reply), evaluated := s.evaluated + [e])
  }

  lemma EvalIsEvaluated(s: Connection, step: Step) returns (e: Evaluation)
    requires Enabled(s, step) && step.ServerEval?
    ensures e.call == CallOfPacket(s.server.packet, s.server.body) && e.verdict == step.verdict
    ensures Answers(e.verdict, e.reply) && Apply(s, step) == Evaluated(s, e)
  {
    e := Evaluation(CallOfPacket(s.server.packet, s.server.body), step.verdict, ReplyTo(step.verdict));
  }

  /** When the worker comes to evaluate, the request has been sent and read to its last byte. */
  lemma NothingUnread(s: Connection, h: Holder)
    requires Announces(h.packet, h.call) && ClientWf(h.call, h.phase) && ServerWf(s.server)
    requires Asking(s, h) && s.server.Evaluating?
    ensures s.toServer == [] && h.phase == ReceivingFirst([])
  {
    var unsent, done := Unsent(h.call, h.phase), Consumed(s.server);
    Regroup(done, s.toServer, unsent);
    EvaluatedAll(h.call, h.packet, s.server.packet, s.server.body, s.toServer + unsent);
    assert |s.toServer| + |unsent| == 0;
  }

  /** A reply of which every byte is still owed. */
  lemma AnswerBegins(s: Connection, h: Holder, e: Evaluation)
    requires s.holder == Some(h) && Announces(h.packet, h.call) && h.phase == ReceivingFirst([])
    requires s.toServer == [] && s.toClient == [] && s.server == AfterEval(e.reply) && Answers(e.verdict, e.reply)
    requires |s.evaluated| == |s.acquired| > 0 && s.evaluated[|s.evaluated| - 1] == e
    ensures Aligned(s)
  {
    AfterEvalOwes(e.verdict, e.reply);
    assert [] + [] + ReplyBytes(e.reply) == ReplyBytes(e.reply);
    assert Answering(s, h);
  }

  lemma ServerEvalAligned(s: Connection, e: Evaluation)
    requires Aligned(s) && s.server.Evaluating? && Answers(e.verdict, e.reply)
    ensures Aligned(Evaluated(s, e))
  {
    var h := s.holder.value;
    assert Asking(s, h);
    NothingUnread(s, h);
    AnswerBegins(Evaluated(s, e), h, e);
  }

  lemma ServerSendAligned(s: Connection, n: nat)
    requires Aligned(s) && Enabled(s, ServerSend(n))
    ensures Aligned(Apply(s, ServerSend(n)))
  {
    var h := s.holder.value;
    ServerSendMoves(s.server, n);
    var a, chunk := Received(h.phase), ServerWriting(s.server)[..n];
    var rest := Pending(AfterServerSend(s.server, n));
    Regroup(a, s.toClient, chunk);
    Regroup(a + s.toClient, chunk, rest);
  }

  /** A client can only be receiving when the call has been evaluated. */
  lemma ReceivingIsAnswering(s: Connection, n: nat)
    requires Aligned(s) && Tickets(s) && InOrder(s) && Enabled(s, ClientRecv(n))
    ensures var h := s.holder.value;
      && Answering(s, h) && ClientWf(h.call, h.phase) && !Speaking(h.phase) && ServerWf(s.server)
      && Announces(h.packet, h.call)
      && Faithful(s.registered, h.call, s.evaluated[|s.evaluated| - 1])
      && (!WantsData(h.call.meth) ==> s.evaluated[|s.evaluated| - 1].verdict.message.None?)
  {
    var h, e := s.holder.value, s.evaluated[|s.evaluated| - 1];
    assert Answering(s, h);
    assert Faithful(s.registered, h.call, e);
    if !WantsData(h.call.meth) {
      PlainVerdict(s.registered, h.call, e.verdict);
    }
  }

  /** The reply, cut at what the client has received, the chunk it takes and the rest. */
  lemma CutReply(a: seq<byte>, flight: seq<byte>, owed: seq<byte>, n: nat)
    requires n <= |flight|
    ensures a + flight + owed == a + flight[..n] + (flight[n..] + owed) == (a + flight[..n]) + flight[n..] + owed
  {
    assert flight == flight[..n] + flight[n..];
  }

  lemma ContinueAligned(s: Connection, h: Holder, n: nat)
    requires s.holder == Some(h) && Enabled(s, ClientRecv(n)) && Answering(s, h)
    requires Announces(h.packet, h.call) && ClientWf(h.call, h.phase) && ServerWf(s.server)
    requires AfterClientRecv(h.call, h.phase, s.toClient[..n]).Continue?
    ensures Aligned(Apply(s, ClientRecv(n)))
  {
    ClientRecvMoves(h.call, h.phase, s.toClient[..n]);
    CutReply(Received(h.phase), s.toClient, Pending(s.server), n);
    var s' := Apply(s, ClientRecv(n));
    assert Answering(s', s'.holder.value);
  }

  lemma FinishAligned(s: Connection, h: Holder, n: nat)
    requires s.holder == Some(h) && Enabled(s, ClientRecv(n)) && Answering(s, h)
    requires ClientWf(h.call, h.phase) && ServerWf(s.server)
    requires AfterClientRecv(h.call, h.phase, s.toClient[..n]).Finish?
    requires var e := s.evaluated[|s.evaluated| - 1];
      Answers(e.verdict, e.reply) && (!WantsData(h.call.meth) ==> e.verdict.message.None?)
    ensures Aligned(Apply(s, ClientRecv(n)))
    ensures var v := s.evaluated[|s.evaluated| - 1].verdict;
      && AfterClientRecv(h.call, h.phase, s.toClient[..n]).outcome == OutcomeOf(h.call, v)
      && (WantsData(h.call.meth) && v.accepted ==> v.message.Some?)
  {
    var e := s.evaluated[|s.evaluated| - 1];
    var rest, owed := s.toClient[n..], Pending(s.server);
    CutReply(Received(h.phase), s.toClient, owed, n);
    ClientRecvFinishes(h.call, h.phase, s.toClient[..n], rest + owed, e.verdict, e.reply);
    assert rest == [] && owed == [];
  }

  lemma ClientRecvAligned(s: Connection, n: nat)
    requires Aligned(s) && Tickets(s) && InOrder(s) && Enabled(s, ClientRecv(n))
    ensures Aligned(Apply(s, ClientRecv(n)))
    ensures |s.evaluated| == |s.acquired| > 0
    ensures Faithful(s.registered, s.holder.value.call, s.evaluated[|s.evaluated| - 1])
    ensures var h, v := s.holder.value, s.evaluated[|s.evaluated| - 1].verdict;
      var p := AfterClientRecv(h.call, h.phase, s.toClient[..n]);
      p.Finish? ==> p.outcome == OutcomeOf(h.call, v) && (WantsData(h.call.meth) && v.accepted ==> v.message.Some?)
  {
    var h := s.holder.value;
    ReceivingIsAnswering(s, n);
    if AfterClientRecv(h.call, h.phase, s.toClient[..n]).Continue? {
      ContinueAligned(s, h, n);
    } else {
      FinishAligned(s, h, n);
    }
  }

  // ---- the theorems ------------------------------------------------------------------

  lemma AcquireKeeps(s: Connection, t: nat, call: Call)
    requires Inv(s) && Enabled(s, Acquire(t, call))
    ensures Inv(Apply(s, Acquire(t, call)))
  {
    if !s.broken {
      RequestAnnounces(call);
      var s' := Apply(s, Acquire(t, call));
      var h := s'.holder.value;
      assert [] + [] + (h.packet + call.body) == h.packet + call.body;
      assert Asking(s', h);
    }
  }

  lemma ServerRecvKeeps(s: Connection, n: nat)
    requires Inv(s) && Enabled(s, ServerRecv(n))
    ensures Inv(Apply(s, ServerRecv(n)))
  {
    ServerRecvAligned(s, n);
    assert s.acquired[|s.evaluated|].call == s.holder.value.call;
  }

  lemma EvaluatedInOrder(s: Connection, e: Evaluation)
    requires InOrder(s) && s.server.Evaluating?
    requires Faithful(s.registered, s.acquired[|s.evaluated|].call, e)
    ensures InOrder(Evaluated(s, e))
  {
    var s' := Evaluated(s, e);
    assert !s'.server.Evaluating?;
    forall k | 0 <= k < |s'.evaluated| ensures Faithful(s.registered, s.acquired[k].call, s'.evaluated[k]) {
      if k < |s.evaluated| {
        assert s'.evaluated[k] == s.evaluated[k];
      }
    }
  }

  lemma EvaluatedKeeps(s: Connection, e: Evaluation)
    requires Inv(s) && s.server.Evaluating?
    requires Faithful(s.registered, s.acquired[|s.evaluated|].call, e)
    ensures Inv(Evaluated(s, e))
  {
    EvaluatedInOrder(s, e);
    if !s.broken {
      ServerEvalAligned(s, e);
    }
  }

  lemma ServerEvalKeeps(s: Connection, v: Verdict)
    requires Inv(s) && Enabled(s, ServerEval(v))
    ensures Inv(Apply(s, ServerEval(v)))
  {
    var c := s.acquired[|s.evaluated|].call;
    RequestReadBack(s.server.packet, c);
    var e := Evaluation(c, v, ReplyTo(v));
    EvaluatedKeeps(s, e);
    assert Apply(s, ServerEval(v)) == Evaluated(s, e);
  }

  lemma FinishedOwnReplies(s: Connection, s': Connection, o: Outcome)
    requires |s.outcomes| < |s.evaluated| == |s.acquired|
    requires OwnReplies(s) && s' == Finished(s, o).(toClient := s'.toClient)
    requires o == OutcomeOf(s.acquired[|s.outcomes|].call, s.evaluated[|s.outcomes|].verdict)
    ensures OwnReplies(s')
  {
    forall k | 0 <= k < |s'.outcomes|
      ensures (s'.broken && s'.outcomes[k] == SocketError)
           || (k < |s'.evaluated| && s'.outcomes[k] == OutcomeOf(s'.acquired[k].call, s'.evaluated[k].verdict))
    {
      if k < |s.outcomes| {
        assert s'.outcomes[k] == s.outcomes[k];
      }
    }
  }

  lemma ClientRecvKeeps(s: Connection, n: nat)
    requires Inv(s) && Enabled(s, ClientRecv(n))
    ensures Inv(Apply(s, ClientRecv(n)))
  {
    ClientRecvAligned(s, n);
    var s' := Apply(s, ClientRecv(n));
    var h := s.holder.value;
    match AfterClientRecv(h.call, h.phase, s.toClient[..n])
    case Continue(_) =>
    case Finish(o) => FinishedOwnReplies(s, s', o);
  }

  lemma SendKeeps(s: Connection, step: Step)
    requires Inv(s) && Enabled(s, step) && (step.ClientSend? || step.ServerSend?)
    ensures Inv(Apply(s, step))
  {
    match step
    case ClientSend(n) => ClientSendAligned(s, n);
    case ServerSend(n) => ServerSendAligned(s, n);
  }

  lemma BreakKeeps(s: Connection, step: Step)
    requires Inv(s) && Enabled(s, step) && (step.Break? || step.ClientAbort? || step.ServerStop?)
    ensures Inv(Apply(s, step))
  {
  }

  lemma StepKeepsInv(s: Connection, step: Step)
    requires Inv(s) && Enabled(s, step)
    ensures Inv(Apply(s, step))
  {
    match step
    case Acquire(t, call) => AcquireKeeps(s, t, call);
    case ClientRecv(n) => ClientRecvKeeps(s, n);
    case ServerRecv(n) => ServerRecvKeeps(s, n);
    case ServerEval(v) => ServerEvalKeeps(s, v);
    case ClientSend(_) => SendKeeps(s, step);
    case ServerSend(_) => SendKeeps(s, step);
    case _ => BreakKeeps(s, step);
  }

  lemma {:induction false} RunKeepsInv(s: Connection, steps: seq<Step>)
    requires Inv(s) && Allowed(s, steps)
    ensures Inv(Run(s, steps))
    decreases |steps|
  {
    if steps != [] {
      StepKeepsInv(s, steps[0]);
      RunKeepsInv(Apply(s, steps[0]), steps[1..]);
    }
  }

  /** Every reachable state of a connection satisfies the invariant. */
  lemma Reachable(registered: set<uint64>, steps: seq<Step>)
    requires Allowed(Fresh(registered), steps)
    ensures Inv(Run(Fresh(registered), steps))
  {
    RunKeepsInv(Fresh(registered), steps);
  }

  /** Stream alignment: while no socket error has occurred and the mutex is free, nothing is
      in flight and the worker is at the start of its loop with no byte of a request read. */
  lemma FreeMeansDrained(registered: set<uint64>, steps: seq<Step>)
    requires Allowed(Fresh(registered), steps)
    ensures var s := Run(Fresh(registered), steps);
      !s.broken && s.holder.None? ==>
        && s.toServer == [] && s.toClient == [] && s.server == AwaitingPacket([])
        && |s.evaluated| == |s.acquired| == |s.outcomes|
  {
    Reachable(registered, steps);
  }

  /** Linearization of a shared client: evaluations follow the order of lock acquisition, and
      while no socket error has occurred the k-th call to take the lock ends with the verdict
      of the k-th evaluation, which was made on that call's own code and body. A Failure is
      never reported. */
  lemma Linearized(registered: set<uint64>, steps: seq<Step>)
    requires Allowed(Fresh(registered), steps)
    ensures var s := Run(Fresh(registered), steps);
      && |s.outcomes| <= |s.acquired| <= |s.outcomes| + 1
      && |s.evaluated| <= |s.acquired|
      && (forall k :: 0 <= k < |s.evaluated| ==> s.evaluated[k].call == s.acquired[k].call)
      && (forall k :: 0 <= k < |s.outcomes| && s.outcomes[k] != SocketError ==>
            k < |s.evaluated| && s.outcomes[k] == OutcomeOf(s.acquired[k].call, s.evaluated[k].verdict))
      && (!s.broken ==> |s.outcomes| <= |s.evaluated| && SocketError !in s.outcomes)
      && Failure !in s.outcomes
  {
    Reachable(registered, steps);
  }
}
