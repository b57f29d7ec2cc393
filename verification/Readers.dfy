/** The two descriptions of reading agree: the step system takes its input in chunks of any
    size (Exchange), the methods take what they need from the stream (Endpoints). */
module Readers {
  import opened Bytes
  import opened Packets
  import opened Protocol
  import opened Exchange
  import opened Alignment
  import E = Endpoints

  // ---- the client --------------------------------------------------------------------

  /** Chunks that a client can receive one after the other, to the end of its call at most. */
  ghost predicate ClientTakes(c: Call, ph: ClientPhase, chunks: seq<seq<byte>>)
    decreases |chunks|
  {
    chunks == [] ||
    (&& 1 <= |chunks[0]| <= ClientNeed(ph)
     && match AfterClientRecv(c, ph, chunks[0])
        case Continue(ph') => ClientTakes(c, ph', chunks[1..])
        case Finish(_) => chunks[1..] == [])
  }

  /** Where they lead. */
  ghost function ClientReads(c: Call, ph: ClientPhase, chunks: seq<seq<byte>>): ClientProgress
    requires ClientTakes(c, ph, chunks)
    decreases |chunks|
  {
    if chunks == [] then Continue(ph)
    else
      match AfterClientRecv(c, ph, chunks[0])
      case Continue(ph') => ClientReads(c, ph', chunks[1..])
      case Finish(o) => Finish(o)
  }

  lemma UnfinishedReply(c: Call, ph: ClientPhase)
    requires ClientWf(c, ph) && !Speaking(ph)
    ensures E.ParseReply(c, Received(ph)) == None
  {
    match ph
    case ReceivingFirst(got) =>
    case ReceivingBuffer(first, got) =>
      Cut(first, got);
    case ReceivingAck(first, data, got) =>
      assert first + data + got == first + (data + got);
      Cut(first, data + got);
  }

  lemma Cut(a: seq<byte>, b: seq<byte>)
    ensures (a + b)[..|a|] == a && (a + b)[|a|..] == b
  {
  }

  lemma FinishedByAck(c: Call, first: Packet, data: seq<byte>, ack: Packet, rest: seq<byte>)
    requires WantsData(c.meth) && Code(first) != REJECT && |data| == DataSize(first)
    ensures E.ParseReply(c, first + data + ack + rest) == Some((AckOutcome(ack, data), rest))
  {
    var tail := data + ack + rest;
    assert first + data + ack + rest == first + tail;
    Cut(first, tail);
    assert tail == data + (ack + rest);
    Cut(data, ack + rest);
    assert tail[|data|..|data| + PACKET_SIZE] == ack && tail[|data| + PACKET_SIZE..] == rest;
  }

  lemma FinishedReply(c: Call, ph: ClientPhase, chunk: seq<byte>, rest: seq<byte>)
    requires ClientWf(c, ph) && !Speaking(ph) && 1 <= |chunk| <= ClientNeed(ph)
    requires AfterClientRecv(c, ph, chunk).Finish?
    ensures E.ParseReply(c, Received(ph) + chunk + rest) == Some((AfterClientRecv(c, ph, chunk).outcome, rest))
  {
    match ph
    case ReceivingFirst(got) =>
      Cut(got + chunk, rest);
    case ReceivingAck(first, data, got) =>
      assert first + data + got + chunk + rest == first + data + (got + chunk) + rest;
      FinishedByAck(c, first, data, got + chunk, rest);
  }

  lemma {:induction false} ClientReadsFrom(c: Call, ph: ClientPhase, chunks: seq<seq<byte>>, rest: seq<byte>)
    requires ClientWf(c, ph) && !Speaking(ph) && ClientTakes(c, ph, chunks)
    ensures match ClientReads(c, ph, chunks)
            case Continue(_) => E.ParseReply(c, Received(ph) + Concat(chunks)) == None
            case Finish(o) => E.ParseReply(c, Received(ph) + Concat(chunks) + rest) == Some((o, rest))
    decreases |chunks|
  {
    if chunks == [] {
      UnfinishedReply(c, ph);
      assert Received(ph) + Concat(chunks) == Received(ph);
    } else {
      var chunk, others := chunks[0], chunks[1..];
      Regroup(Received(ph), chunk, Concat(others));
      match AfterClientRecv(c, ph, chunk)
      case Continue(ph') =>
        ClientRecvMoves(c, ph, chunk);
        ClientReadsFrom(c, ph', others, rest);
      case Finish(o) =>
        FinishedReply(c, ph, chunk, rest);
        assert Received(ph) + Concat(chunks) == Received(ph) + chunk;
    }
  }

  /** However a stream is cut into chunks, the client of the step system ends its call exactly
      where the methods of the client end theirs, and with the same outcome. */
  lemma ClientReadsAsParsed(c: Call, chunks: seq<seq<byte>>, rest: seq<byte>)
    requires ClientTakes(c, ReceivingFirst([]), chunks)
    ensures var r := ClientReads(c, ReceivingFirst([]), chunks);
      && (r.Finish? <==> E.ParseReply(c, Concat(chunks)).Some?)
      && (r.Finish? ==> E.ParseReply(c, Concat(chunks) + rest) == Some((r.outcome, rest)))
  {
    ClientReadsFrom(c, ReceivingFirst([]), chunks, rest);
    ClientReadsFrom(c, ReceivingFirst([]), chunks, []);
    assert [] + Concat(chunks) == Concat(chunks);
    assert Concat(chunks) + [] == Concat(chunks);
  }

  // ---- the worker --------------------------------------------------------------------

  ghost predicate WorkerTakes(ph: ServerPhase, chunks: seq<seq<byte>>)
    decreases |chunks|
  {
    chunks == [] ||
    (1 <= |chunks[0]| <= ServerNeed(ph) && WorkerTakes(AfterServerRecv(ph, chunks[0]), chunks[1..]))
  }

  ghost function WorkerReads(ph: ServerPhase, chunks: seq<seq<byte>>): ServerPhase
    requires WorkerTakes(ph, chunks)
    decreases |chunks|
  {
    if chunks == [] then ph else WorkerReads(AfterServerRecv(ph, chunks[0]), chunks[1..])
  }

  lemma WorkerRecvMoves(ph: ServerPhase, chunk: seq<byte>)
    requires ServerWf(ph) && Reading(ph) && 1 <= |chunk| <= ServerNeed(ph)
    ensures var ph' := AfterServerRecv(ph, chunk);
      ServerWf(ph') && Reading(ph') && Consumed(ph') == Consumed(ph) + chunk
  {
    match ph
    case AwaitingPacket(got) =>
      var now := got + chunk;
      assert now + [] == now;
    case AwaitingBuffer(p, got) =>
      assert p + got + chunk == p + (got + chunk);
  }

  lemma RequestSoFar(ph: ServerPhase, rest: seq<byte>)
    requires ServerWf(ph) && Reading(ph)
    ensures match ph
            case Evaluating(p, body) => E.ParseRequest(Consumed(ph) + rest) == Some(E.Parsed(p, body, rest))
            case _ => E.ParseRequest(Consumed(ph)) == None
  {
    match ph
    case AwaitingPacket(_) =>
    case AwaitingBuffer(p, got) => Cut(p, got);
    case Evaluating(p, body) => E.AnnouncedIsParsed(p, body, rest);
  }

  lemma {:induction false} WorkerReadsFrom(ph: ServerPhase, chunks: seq<seq<byte>>)
    requires ServerWf(ph) && Reading(ph) && WorkerTakes(ph, chunks)
    ensures var ph' := WorkerReads(ph, chunks);
      ServerWf(ph') && Reading(ph') && Consumed(ph') == Consumed(ph) + Concat(chunks)
    decreases |chunks|
  {
    if chunks == [] {
      assert Consumed(ph) + Concat(chunks) == Consumed(ph);
    } else {
      var chunk, others := chunks[0], chunks[1..];
      WorkerRecvMoves(ph, chunk);
      WorkerReadsFrom(AfterServerRecv(ph, chunk), others);
      assert Consumed(ph) + chunk + Concat(others) == Consumed(ph) + Concat(chunks);
    }
  }

  /** However a stream is cut into chunks, the worker of the step system comes to evaluate a
      request exactly where the worker's method has read one, with the same packet and body. */
  lemma WorkerReadsAsParsed(chunks: seq<seq<byte>>, rest: seq<byte>)
    requires WorkerTakes(AwaitingPacket([]), chunks)
    ensures match WorkerReads(AwaitingPacket([]), chunks)
            case Evaluating(p, body) => E.ParseRequest(Concat(chunks) + rest) == Some(E.Parsed(p, body, rest))
            case _ => E.ParseRequest(Concat(chunks)) == None
  {
    WorkerReadsFrom(AwaitingPacket([]), chunks);
    RequestSoFar(WorkerReads(AwaitingPacket([]), chunks), rest);
    assert [] + Concat(chunks) == Concat(chunks);
  }

  // ---- failed acks -------------------------------------------------------------------

  /** A Failed in place of the ack, which the worker modelled here never sends, would end a call
      with a FailureException and at the same place. */
  lemma FailedAckIsReported(c: Call, first: Packet, data: seq<byte>, ack: Packet, rest: seq<byte>)
    requires Code(ack) == FAILED
    requires WantsData(c.meth) ==> Code(first) != REJECT && DataSize(first) == |data|
    ensures !WantsData(c.meth) ==> E.ParseReply(c, ack + rest) == Some((Failure, rest))
    ensures WantsData(c.meth) ==> E.ParseReply(c, first + data + ack + rest) == Some((Failure, rest))
  {
    if WantsData(c.meth) {
      FinishedByAck(c, first, data, ack, rest);
    } else {
      Cut(ack, rest);
    }
  }
}
