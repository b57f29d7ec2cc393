/** The two programs that talk over a connection, run on the sockets of Transport: the four
    exchanging methods of `Client::Impl` and the loop of `ServerThread::Impl`. */
module Endpoints {
  import opened Bytes
  import opened Packets
  import opened Protocol
  import opened Application
  import opened Transport
  import A = Alignment
  import X = Exchange

  // ---- the client --------------------------------------------------------------------

  /** How a call reads its reply from the stream: the result and the bytes left, or None when
      the stream ends before the reply does. */
  function ParseReply(c: Call, s: seq<byte>): Option<(Outcome, seq<byte>)> {
    if |s| < PACKET_SIZE then None
    else
      var first: Packet, rest := s[..PACKET_SIZE], s[PACKET_SIZE..];
      if !WantsData(c.meth) then Some((X.AckOutcome(first, []), rest))
      else if Code(first) == REJECT then Some((Rejected, rest))
      else
        var size := DataSize(first);
        if |rest| < size + PACKET_SIZE then None
        else
          var ack: Packet := rest[size..size + PACKET_SIZE];
          Some((X.AckOutcome(ack, rest[..size]), rest[size + PACKET_SIZE..]))
  }

  /** A client reads every reply that answers its call to the last byte and no further. */
  lemma ReplyIsParsed(c: Call, v: Verdict, r: Reply, rest: seq<byte>)
    requires Answers(v, r)
    requires WantsData(c.meth) && v.accepted ==> v.message.Some?
    requires !WantsData(c.meth) ==> v.message.None?
    ensures ParseReply(c, ReplyBytes(r) + rest) == Some((OutcomeOf(c, v), rest))
  {
    var s := ReplyBytes(r) + rest;
    match r.head
    case None =>
      assert s == r.ack + rest;
      assert s[..PACKET_SIZE] == r.ack && s[PACKET_SIZE..] == rest;
    case Some(p) =>
      var tail := r.payload + r.ack + rest;
      assert s == p + tail;
      assert s[..PACKET_SIZE] == p && s[PACKET_SIZE..] == tail;
      var size := |r.payload|;
      assert tail[..size] == r.payload;
      assert tail[size..size + PACKET_SIZE] == r.ack && tail[size + PACKET_SIZE..] == rest;
  }

  /** An accepted reply without a message is not enough for a call that asks for data. */
  lemma BareAcceptStarves(c: Call, r: Reply)
    requires WantsData(c.meth) && Answers(Verdict(true, None), r)
    ensures ParseReply(c, ReplyBytes(r)) == None
  {
    assert ReplyBytes(r)[..PACKET_SIZE] == r.ack;
  }

  class Client {
    const sock: Socket

    constructor (sock: Socket)
      ensures this.sock == sock
    {
      this.sock := sock;
    }

    /** What all four methods promise: they write nothing but their request; as long as no
        system call reports an error they end with a result if and only if the stream holds a
        whole reply; and then they have written all of the request, and the result is what the
        reply says, with the rest of the stream left in place. */
    twostate predicate Exchanged(c: Call, o: Outcome)
      requires ValidCall(c)
      reads sock
    {
      && old(sock.outbound) <= sock.outbound <= old(sock.outbound) + RequestPacket(c) + c.body
      && (!sock.failed ==> (o != SocketError <==> ParseReply(c, old(sock.inbound)).Some?))
      && (o != SocketError ==>
        && sock.outbound == old(sock.outbound) + RequestPacket(c) + c.body
        && ParseReply(c, old(sock.inbound)) == Some((o, sock.inbound)))
    }

    method SendRequest(code: uint64) returns (o: Outcome)
      requires ValidCall(Call(Method.SendRequest, code, []))
      modifies sock
      ensures Exchanged(Call(Method.SendRequest, code, []), o)
    {
      var packet := MakePacket(code);
      var s := sock.SendPacket(packet);
      if s.Failed? {
        return SocketError;
      }
      o := RecvAck([]);
    }

    method SendData(code: uint64, buffer: seq<byte>) returns (o: Outcome)
      requires ValidCall(Call(Method.SendData, code, buffer))
      modifies sock
      ensures Exchanged(Call(Method.SendData, code, buffer), o)
    {
      var packet := RequestPacket(Call(Method.SendData, code, buffer));
      var s := sock.SendPacket(packet);
      if s.Failed? {
        return SocketError;
      }
      s := sock.SendBuffer(buffer);
      if s.Failed? {
        return SocketError;
      }
      o := RecvAck([]);
    }

    method RecvData(code: uint64) returns (o: Outcome)
      requires ValidCall(Call(Method.RecvData, code, []))
      modifies sock
      ensures Exchanged(Call(Method.RecvData, code, []), o)
    {
      var packet := MakePacket(code);
      var s := sock.SendPacket(packet);
      if s.Failed? {
        return SocketError;
      }
      ghost var c := Call(Method.RecvData, code, []);
      assert sock.outbound == old(sock.outbound) + RequestPacket(c) + c.body;
      o := RecvResult(c);
    }

    method SendRecvData(code: uint64, sbuffer: seq<byte>) returns (o: Outcome)
      requires ValidCall(Call(Method.SendRecvData, code, sbuffer))
      modifies sock
      ensures Exchanged(Call(Method.SendRecvData, code, sbuffer), o)
    {
      var packet := RequestPacket(Call(Method.SendRecvData, code, sbuffer));
      var s := sock.SendPacket(packet);
      if s.Failed? {
        return SocketError;
      }
      s := sock.SendBuffer(sbuffer);
      if s.Failed? {
        return SocketError;
      }
      o := RecvResult(Call(Method.SendRecvData, code, sbuffer));
    }

    method RecvAck(data: seq<byte>) returns (o: Outcome)
      modifies sock`inbound, sock`failed
      ensures old(sock.failed) ==> sock.failed
      ensures !sock.failed ==> (o != SocketError <==> PACKET_SIZE <= |old(sock.inbound)|)
      ensures o != SocketError ==>
        && PACKET_SIZE <= |old(sock.inbound)|
        && o == X.AckOutcome(old(sock.inbound)[..PACKET_SIZE], data)
        && sock.inbound == old(sock.inbound)[PACKET_SIZE..]
    {
      var s, ack := sock.RecvPacket();
      if s.Failed? {
        return SocketError;
      }
      o := X.AckOutcome(ack, data);
    }

    /** The receiving half that `recv_data` and `send_recv_data` have in common. */
    method RecvResult(ghost c: Call) returns (o: Outcome)
      requires WantsData(c.meth)
      modifies sock`inbound, sock`failed
      ensures old(sock.failed) ==> sock.failed
      ensures !sock.failed ==> (o != SocketError <==> ParseReply(c, old(sock.inbound)).Some?)
      ensures o != SocketError ==> ParseReply(c, old(sock.inbound)) == Some((o, sock.inbound))
    {
      var s, first := sock.RecvPacket();
      if s.Failed? {
        return SocketError;
      }
      var size := DataSize(first);
      if Code(first) == REJECT {
        return Rejected;
      }
      var data: seq<byte> := [];
      if size > 0 {
        s, data := sock.RecvBuffer(size);
        if s.Failed? {
          return SocketError;
        }
      }
      ghost var rest := old(sock.inbound)[PACKET_SIZE..];
      o := RecvAck(data);
      if o != SocketError {
        assert rest[size..][..PACKET_SIZE] == rest[size..size + PACKET_SIZE];
        assert rest[size..][PACKET_SIZE..] == rest[size + PACKET_SIZE..];
      }
    }
  }

  // ---- the worker --------------------------------------------------------------------

  datatype Parsed = Parsed(packet: Packet, body: seq<byte>, rest: seq<byte>)

  /** How the worker reads a request: a packet, and a body for the two groups that carry one. */
  function ParseRequest(s: seq<byte>): (r: Option<Parsed>)
    ensures r.Some? ==> |r.value.rest| < |s|
  {
    if |s| < PACKET_SIZE then None
    else
      var p: Packet, rest := s[..PACKET_SIZE], s[PACKET_SIZE..];
      var size := if CarriesBuffer(p) then DataSize(p) else 0;
      if |rest| < size then None else Some(Parsed(p, rest[..size], rest[size..]))
  }

  lemma AnnouncedIsParsed(p: Packet, body: seq<byte>, rest: seq<byte>)
    requires |body| == if CarriesBuffer(p) then DataSize(p) else 0
    ensures ParseRequest(p + body + rest) == Some(Parsed(p, body, rest))
  {
    var s := p + body + rest;
    assert s[..PACKET_SIZE] == p && s[PACKET_SIZE..] == body + rest;
    assert (body + rest)[..|body|] == body && (body + rest)[|body|..] == rest;
  }

  /** The worker reads every request that a client makes to the last byte and no further. */
  lemma RequestIsParsed(c: Call, rest: seq<byte>)
    requires ValidCall(c)
    ensures ParseRequest(RequestPacket(c) + c.body + rest) == Some(Parsed(RequestPacket(c), c.body, rest))
  {
    A.RequestAnnounces(c);
    AnnouncedIsParsed(RequestPacket(c), c.body, rest);
  }

  /** The complete requests on a stream. */
  function Requests(id: int, s: seq<byte>): seq<Demand>
    decreases |s|
  {
    match ParseRequest(s)
    case None => []
    case Some(r) => [Demand(id, Code(r.packet), r.body)] + Requests(id, r.rest)
  }

  /** What a client's calls put on the wire, one after the other. */
  function RequestBytes(cs: seq<Call>): seq<byte>
    requires forall k :: 0 <= k < |cs| ==> ValidCall(cs[k])
  {
    if cs == [] then [] else RequestPacket(cs[0]) + cs[0].body + RequestBytes(cs[1..])
  }

  function DemandsOfCalls(id: int, cs: seq<Call>): seq<Demand> {
    if cs == [] then [] else [Demand(id, cs[0].code, cs[0].body)] + DemandsOfCalls(id, cs[1..])
  }

  /** The worker reads exactly the requests `ds` from the stream. */
  ghost predicate ReadsAs(id: int, s: seq<byte>, ds: seq<Demand>) {
    Requests(id, s) == ds
  }

  lemma CallIsRead(id: int, c: Call, rest: seq<byte>, ds: seq<Demand>)
    requires ValidCall(c) && ReadsAs(id, rest, ds)
    ensures ReadsAs(id, RequestPacket(c) + c.body + rest, [Demand(id, c.code, c.body)] + ds)
  {
    RequestIsParsed(c, rest);
  }

  /** The worker reads back the code and body of every call, in order, and nothing else. */
  lemma {:induction false} CallsAreRead(id: int, cs: seq<Call>)
    requires forall k :: 0 <= k < |cs| ==> ValidCall(cs[k])
    ensures ReadsAs(id, RequestBytes(cs), DemandsOfCalls(id, cs))
  {
    if cs == [] {
      assert Requests(id, []) == [];
    } else {
      CallsAreRead(id, cs[1..]);
      CallIsRead(id, cs[0], RequestBytes(cs[1..]), DemandsOfCalls(id, cs[1..]));
    }
  }

  lemma VerdictIsValid(app: App, d: Demand)
    ensures ValidVerdict(VerdictOn(app, d))
  {
  }

  /** A judged request with the reply to it. */
  datatype Service = Service(judgement: Judgement, reply: Reply)

  function Judgements(xs: seq<Service>): seq<Judgement> {
    if xs == [] then [] else Judgements(xs[..|xs| - 1]) + [xs[|xs| - 1].judgement]
  }

  /** The replies as they stand on the stream. */
  function Stream(xs: seq<Service>): seq<byte> {
    if xs == [] then [] else Stream(xs[..|xs| - 1]) + ReplyBytes(xs[|xs| - 1].reply)
  }

  /** Every reply says what was decided. */
  ghost predicate AllAnswered(xs: seq<Service>) {
    xs == [] || (AllAnswered(xs[..|xs| - 1]) && Answers(xs[|xs| - 1].judgement.verdict, xs[|xs| - 1].reply))
  }

  /** The requests `all` were on the stream; those of `xs` have been served and `rest` remains. */
  ghost predicate Served(all: seq<Demand>, xs: seq<Service>, rest: seq<Demand>) {
    all == Demands(Judgements(xs)) + rest && AllAnswered(xs)
  }

  /** How a worker ends: `o` and `o'` are the outgoing stream before and after, `rest` the
      requests it has not evaluated. Only the last answer may be incomplete, when sending it
      has failed; if the peer has closed, no request is left. */
  ghost predicate EndsAs(cause: Cause, o: seq<byte>, o': seq<byte>, xs: seq<Service>, rest: seq<Demand>) {
    && (cause != SendFailed ==> o' == o + Stream(xs))
    && (cause == SendFailed ==> xs != [] && o + Stream(xs[..|xs| - 1]) <= o' <= o + Stream(xs))
    && (cause == PeerClosed ==> rest == [])
  }

  /** One more service, on its own. */
  lemma ServiceAppended(xs: seq<Service>, x: Service)
    requires AllAnswered(xs) && Answers(x.judgement.verdict, x.reply)
    ensures Judgements(xs + [x]) == Judgements(xs) + [x.judgement]
    ensures Stream(xs + [x]) == Stream(xs) + ReplyBytes(x.reply)
    ensures AllAnswered(xs + [x]) && (xs + [x])[..|xs|] == xs
  {
    assert (xs + [x])[..|xs|] == xs;
  }

  lemma DemandAppended(js: seq<Judgement>, j: Judgement)
    ensures Demands(js + [j]) == Demands(js) + [j.demand]
  {
    assert (js + [j])[..|js|] == js;
  }

  /** One more service; `h` and `o` are what the history and the outgoing stream were before
      the first. */
  lemma ServedMore(all: seq<Demand>, xs: seq<Service>, rest: seq<Demand>, x: Service, rest': seq<Demand>,
                   h: seq<Judgement>, o: seq<byte>)
    requires Served(all, xs, rest) && rest == [x.judgement.demand] + rest' && Answers(x.judgement.verdict, x.reply)
    ensures Served(all, xs + [x], rest')
    ensures h + Judgements(xs) + [x.judgement] == h + Judgements(xs + [x])
    ensures o + Stream(xs) + ReplyBytes(x.reply) == o + Stream(xs + [x])
    ensures xs + [x] != [] && (xs + [x])[..|xs + [x]| - 1] == xs
  {
    var js, j, stream, bytes := Judgements(xs), x.judgement, Stream(xs), ReplyBytes(x.reply);
    ServiceAppended(xs, x);
    DemandAppended(js, j);
    Regroup(Demands(js), [j.demand], rest');
    Regroup(h, js, [j]);
    Regroup(o, stream, bytes);
  }

  /** The judgements on the requests of one connection. */
  function OwnPart(js: seq<Judgement>, id: int): seq<Judgement> {
    if js == [] then []
    else OwnPart(js[..|js| - 1], id) + (if js[|js| - 1].demand.id == id then [js[|js| - 1]] else [])
  }

  lemma OwnPartAppended(js: seq<Judgement>, j: Judgement, id: int)
    ensures OwnPart(js + [j], id) == OwnPart(js, id) + (if j.demand.id == id then [j] else [])
  {
    assert (js + [j])[..|js|] == js;
  }

  /** The worker of connection `id`. `app` is the state of the one application that all workers
      evaluate on, and `history` what has been decided on all connections since it was `boot`;
      ServerObjects shows that the server's objects implement these evaluations. */
  class Worker {
    const id: int
    const sock: Socket
    var app: App
    var stored: Option<Cause>
    ghost const boot: App
    ghost var history: seq<Judgement>

    constructor (id: int, sock: Socket, app: App)
      ensures this.id == id && this.sock == sock && this.app == app && stored == None
      ensures Valid() && boot == app && history == []
    {
      this.id, this.sock, this.app := id, sock, app;
      stored := None;
      boot, history := app, [];
    }

    ghost function OwnHistory(): seq<Judgement>
      reads this
    {
      OwnPart(history, id)
    }

    /** What has been evaluated so far, and the state that it has led to. */
    ghost predicate Valid()
      reads this
    {
      app == AfterAll(boot, Demands(history)) && Judged(boot, history)
    }

    /** The message of the callback, if it wrote one, and the ack. */
    method Answer(v: Verdict) returns (s: Status, ghost r: Reply)
      requires ValidVerdict(v)
      modifies sock`outbound, sock`failed
      ensures sock.failed == (old(sock.failed) || IsError(s))
      ensures Answers(v, r)
      ensures old(sock.outbound) <= sock.outbound <= old(sock.outbound) + ReplyBytes(r)
      ensures s.Done? ==> sock.outbound == old(sock.outbound) + ReplyBytes(r)
      ensures s.Failed? ==> s.cause == SendFailed
    {
      var reply := ReplyTo(v);
      r := reply;
      s := SendReply(reply);
    }

    method SendReply(r: Reply) returns (s: Status)
      modifies sock`outbound, sock`failed
      ensures sock.failed == (old(sock.failed) || IsError(s))
      ensures old(sock.outbound) <= sock.outbound <= old(sock.outbound) + ReplyBytes(r)
      ensures s.Done? ==> sock.outbound == old(sock.outbound) + ReplyBytes(r)
      ensures s.Failed? ==> s.cause == SendFailed
    {
      if r.head.Some? {
        s := sock.SendPacket(r.head.value);
        if s.Failed? {
          return;
        }
        s := sock.SendBuffer(r.payload);
        if s.Failed? {
          return;
        }
      }
      s := sock.SendPacket(r.ack);
    }

    method RecvRequest() returns (s: Status, p: Packet, body: seq<byte>)
      modifies sock`inbound, sock`failed
      ensures sock.failed == (old(sock.failed) || IsError(s))
      ensures |sock.inbound| <= |old(sock.inbound)|
      ensures s.Done? ==> ParseRequest(old(sock.inbound)) == Some(Parsed(p, body, sock.inbound))
      ensures s == Failed(PeerClosed) ==> ParseRequest(old(sock.inbound)) == None
      ensures s != Failed(SendFailed)
    {
      body := [];
      s, p := sock.RecvPacket();
      if s.Done? && CarriesBuffer(p) {
        s, body := sock.RecvBuffer(DataSize(p));
      }
    }

    /** One iteration: receive a request, evaluate it, answer it. `done` holds the judgement and
        the reply if the evaluation took place; a failure after it can only be one of sending. */
    method ServeOne() returns (s: Status, ghost done: Option<Service>)
      requires Valid()
      modifies sock, this`app, this`history
      ensures sock.failed == (old(sock.failed) || IsError(s))
      ensures Valid()
      ensures match done
              case None =>
                && s.Failed? && s.cause != SendFailed && sock.outbound == old(sock.outbound)
                && OwnHistory() == old(OwnHistory())
                && (s.cause == PeerClosed ==> Requests(id, old(sock.inbound)) == [])
              case Some(x) =>
                && Requests(id, old(sock.inbound)) == [x.judgement.demand] + Requests(id, sock.inbound)
                && |sock.inbound| < |old(sock.inbound)|
                && OwnHistory() == old(OwnHistory()) + [x.judgement] && Answers(x.judgement.verdict, x.reply)
                && old(sock.outbound) <= sock.outbound <= old(sock.outbound) + ReplyBytes(x.reply)
                && (s.Done? ==> sock.outbound == old(sock.outbound) + ReplyBytes(x.reply))
                && (s.Failed? ==> s.cause == SendFailed)
    {
      done := None;
      var p, body;
      s, p, body := RecvRequest();
      if s.Done? {
        var v := Judge(p, body);
        ghost var r;
        s, r := Answer(v);
        done := Some(Service(Judgement(Demand(id, Code(p), body), v), r));
      }
    }

    /** Any number of requests of other connections, evaluated by their workers. */
    method OthersEvaluate()
      requires Valid()
      modifies this`app, this`history
      ensures Valid() && OwnHistory() == old(OwnHistory())
    {
      var count: nat :| true;
      for k := 0 to count
        invariant Valid() && OwnHistory() == old(OwnHistory())
      {
        var d: Demand := *;
        if d.id != id {
          var v := Evaluate(d);
        }
      }
    }

    method Evaluate(d: Demand) returns (v: Verdict)
      requires Valid()
      modifies this`app, this`history
      ensures Valid() && v == VerdictOn(old(app), d) && history == old(history) + [Judgement(d, v)]
      ensures OwnHistory() == old(OwnHistory()) + if d.id == id then [Judgement(d, v)] else []
    {
      v := VerdictOn(app, d);
      JudgedMore(boot, history, Judgement(d, v));
      OwnPartAppended(history, Judgement(d, v), id);
      app := After(app, d);
      history := history + [Judgement(d, v)];
    }

    /** The evaluation of a request, in the state in which the other workers have left the
        application by then. */
    method Judge(p: Packet, body: seq<byte>) returns (v: Verdict)
      requires Valid()
      modifies this`app, this`history
      ensures Valid() && ValidVerdict(v)
      ensures OwnHistory() == old(OwnHistory()) + [Judgement(Demand(id, Code(p), body), v)]
    {
      OthersEvaluate();
      VerdictIsValid(app, Demand(id, Code(p), body));
      v := Evaluate(Demand(id, Code(p), body));
    }

    /** One more iteration of the loop: `xs` has been served so far, and `h` and `o` are what
        the own history and the outgoing stream were before. */
    method ServeNext(ghost all: seq<Demand>, ghost xs: seq<Service>, ghost h: seq<Judgement>, ghost o: seq<byte>)
      returns (s: Status, ghost xs': seq<Service>, ghost rest: seq<Demand>)
      requires Valid() && Served(all, xs, Requests(id, sock.inbound))
      requires OwnHistory() == h + Judgements(xs) && sock.outbound == o + Stream(xs)
      modifies sock, this`app, this`history
      ensures sock.failed == (old(sock.failed) || IsError(s))
      ensures Valid() && Served(all, xs', rest) && OwnHistory() == h + Judgements(xs')
      ensures s.Done? ==>
        rest == Requests(id, sock.inbound) && sock.outbound == o + Stream(xs') && |sock.inbound| < |old(sock.inbound)|
      ensures s.Failed? ==> EndsAs(s.cause, o, sock.outbound, xs', rest)
    {
      xs', rest := xs, Requests(id, sock.inbound);
      ghost var done;
      s, done := ServeOne();
      if done.Some? {
        ServedMore(all, xs, rest, done.value, Requests(id, sock.inbound), h, o);
        xs', rest := xs + [done.value], Requests(id, sock.inbound);
      }
    }

    /** The loop ends only with an exception, which it stores (the flag that could end it
        otherwise is never set, see Shutdown). Until then it has evaluated, in order, exactly
        the requests on its stream and answered each one before reading the next, whatever the
        other workers have evaluated in between. As long as no system call reports an error, it
        goes on until the peer has closed and every request has been answered. */
    method Exec() returns (ghost xs: seq<Service>, ghost rest: seq<Demand>)
      requires Valid()
      modifies this, sock
      ensures stored.Some? && Valid()
      ensures Served(Requests(id, old(sock.inbound)), xs, rest)
      ensures OwnHistory() == old(OwnHistory()) + Judgements(xs)
      ensures EndsAs(stored.value, old(sock.outbound), sock.outbound, xs, rest)
      ensures sock.failed == (old(sock.failed) || stored != Some(PeerClosed))
      ensures !sock.failed ==> rest == [] && sock.outbound == old(sock.outbound) + Stream(xs)
    {
      xs, rest := [], Requests(id, sock.inbound);
      ghost var all, h, o := rest, OwnHistory(), sock.outbound;
      while true
        invariant Valid()
        invariant rest == Requests(id, sock.inbound) && Served(all, xs, rest)
        invariant OwnHistory() == h + Judgements(xs) && sock.outbound == o + Stream(xs)
        invariant sock.failed == old(sock.failed)
        decreases |sock.inbound|
      {
        var s;
        s, xs, rest := ServeNext(all, xs, h, o);
        if s.Failed? {
          Store(s.cause);
          return;
        }
      }
    }

    /** `ThreadException::set_current_exception`. */
    method Store(cause: Cause)
      requires Valid()
      modifies this`stored
      ensures stored == Some(cause) && Valid()
    {
      stored := Some(cause);
    }
  }
}
