/** The byte transport: the `read` and `write` loops over `recv` and `send` calls that may
    move any number of bytes, and the packet and buffer operations built on them. */
module Transport {
  import opened Bytes
  import opened Packets

  datatype Cause = ReceiveFailed | PeerClosed | SendFailed | SelectFailed

  /** Failed stands for a SocketException. */
  datatype Status = Done | Failed(cause: Cause)

  /** The system reports an error, as opposed to the end of the stream. */
  predicate IsError(s: Status) {
    s.Failed? && s.cause != PeerClosed
  }

  /** The results of `recv` and `send` are kept in an `int`: one call is assumed to move no more
      bytes than that holds. */
  const MAX_CHUNK: int := 0x7FFF_FFFF

  /** A connected descriptor: the bytes its peer still delivers before it closes, and the
      bytes it has accepted for the peer. `failed` says whether any system call on it has
      reported an error. */
  class Socket {
    var inbound: seq<byte>
    var outbound: seq<byte>
    ghost var failed: bool

    constructor (inbound: seq<byte>)
      ensures this.inbound == inbound && outbound == [] && !failed
    {
      this.inbound := inbound;
      outbound := [];
      failed := false;
    }

    /** `::recv`: -1 on error, 0 when the peer has closed, otherwise any number of bytes. */
    method Recv(buffer: array<byte>, at: nat, want: nat) returns (ret: int)
      requires 0 < want && at + want <= buffer.Length
      modifies this`inbound, this`failed, buffer
      ensures ret == -1 || (ret == 0 && old(inbound) == []) || (1 <= ret <= want && ret <= |old(inbound)|)
      ensures ret <= MAX_CHUNK && failed == (old(failed) || ret == -1)
      ensures ret <= 0 ==> inbound == old(inbound) && buffer[..] == old(buffer[..])
      ensures ret > 0 ==>
        && inbound == old(inbound)[ret..]
        && buffer[..] == old(buffer[..])[..at] + old(inbound)[..ret] + old(buffer[..])[at + ret..]
    {
      if * {
        failed := true;
        return -1;
      }
      if inbound == [] {
        return 0;
      }
      ret :| 1 <= ret <= want && ret <= |inbound| && ret <= MAX_CHUNK;
      forall i | 0 <= i < ret {
        buffer[at + i] := inbound[i];
      }
      inbound := inbound[ret..];
    }

    /** `::send`: -1 on error, otherwise at least one byte is accepted. */
    method Send(buffer: array<byte>, at: nat, want: nat) returns (ret: int)
      requires 0 < want && at + want <= buffer.Length
      modifies this`outbound, this`failed
      ensures ret == -1 || 1 <= ret <= want
      ensures ret <= MAX_CHUNK && failed == (old(failed) || ret == -1)
      ensures ret == -1 ==> outbound == old(outbound)
      ensures ret > 0 ==> outbound == old(outbound) + buffer[at..at + ret]
    {
      if * {
        failed := true;
        return -1;
      }
      ret :| 1 <= ret <= want && ret <= MAX_CHUNK;
      outbound := outbound + buffer[at..at + ret];
    }

    /** One `recv` of the read loop, when the first `ptr` bytes of the stream have been read. */
    method RecvMore(buffer: array<byte>, ptr: nat, remain: nat, ghost stream: seq<byte>, ghost original: seq<byte>)
      returns (ret: int)
      requires 0 < remain && ptr + remain <= buffer.Length == |original| && ptr <= |stream|
      requires inbound == stream[ptr..] && buffer[..] == stream[..ptr] + original[ptr..]
      modifies this`inbound, this`failed, buffer
      ensures failed == (old(failed) || ret == -1)
      ensures ret == -1 || (ret == 0 && ptr == |stream|) || (1 <= ret <= remain && ptr + ret <= |stream|)
      ensures var now := if ret > 0 then ptr + ret else ptr;
        inbound == stream[now..] && buffer[..] == stream[..now] + original[now..]
    {
      ghost var before := buffer[..];
      ret := Recv(buffer, ptr, remain);
      if ret > 0 {
        Extend(stream, original, ptr, ret, before, buffer[..]);
      }
    }

    /** `Socket::Impl::read`: on a normal return exactly `bytes` bytes have been taken from the
        stream, in order, and the rest of the stream and of the buffer is untouched. It
        reports a closed peer only if the stream was too short, an error only if `recv` has
        reported one, and never takes more: so as long as no call fails it returns normally if
        and only if the stream holds enough. */
    method Read(buffer: array<byte>, bytes: nat) returns (s: Status)
      requires bytes <= buffer.Length
      modifies this`inbound, this`failed, buffer
      ensures failed == (old(failed) || IsError(s))
      ensures s.Done? ==>
        && bytes <= |old(inbound)|
        && inbound == old(inbound)[bytes..]
        && buffer[..] == old(inbound)[..bytes] + old(buffer[..])[bytes..]
      ensures s == Failed(PeerClosed) ==> |old(inbound)| < bytes && inbound == []
      ensures s.Failed? ==> s.cause == PeerClosed || s.cause == ReceiveFailed
      ensures |inbound| <= |old(inbound)| && inbound == old(inbound)[|old(inbound)| - |inbound|..]
      ensures s.Failed? ==> |old(inbound)| - |inbound| < bytes
    {
      var ptr: nat, remain: nat := 0, bytes;
      ghost var stream, original := inbound, buffer[..];
      while 0 < remain
        invariant ptr + remain == bytes && ptr <= |stream|
        invariant inbound == stream[ptr..] && buffer[..] == stream[..ptr] + original[ptr..] && failed == old(failed)
        decreases remain
      {
        var ret := RecvMore(buffer, ptr, remain, stream, original);
        if ret == -1 {
          return Failed(ReceiveFailed);
        }
        if ret == 0 {
          return Failed(PeerClosed);
        }
        ptr := ptr + ret;
        remain := remain - ret;
      }
      s := Done;
    }

    /** `Socket::Impl::write`: on a normal return exactly the given bytes have been appended;
        otherwise, which happens only if `send` has reported an error, a proper prefix of them. */
    method Write(buffer: array<byte>, bytes: nat) returns (s: Status)
      requires bytes <= buffer.Length
      modifies this`outbound, this`failed
      ensures failed == (old(failed) || IsError(s))
      ensures s.Done? ==> outbound == old(outbound) + buffer[..bytes]
      ensures s.Failed? ==>
        && s.cause == SendFailed
        && |old(outbound)| <= |outbound| < |old(outbound)| + bytes
        && outbound == old(outbound) + buffer[..|outbound| - |old(outbound)|]
    {
      var ptr: nat, remain: nat := 0, bytes;
      while 0 < remain
        invariant ptr + remain == bytes
        invariant outbound == old(outbound) + buffer[..ptr] && failed == old(failed)
        decreases remain
      {
        var ret := Send(buffer, ptr, remain);
        if ret == -1 {
          return Failed(SendFailed);
        }
        assert buffer[..ptr + ret] == buffer[..ptr] + buffer[ptr..ptr + ret];
        ptr := ptr + ret;
        remain := remain - ret;
      }
      s := Done;
    }

    method SendPacket(p: Packet) returns (s: Status)
      modifies this`outbound, this`failed
      ensures failed == (old(failed) || IsError(s))
      ensures old(outbound) <= outbound <= old(outbound) + p
      ensures s.Failed? ==> s.cause == SendFailed
      ensures s.Done? ==> outbound == old(outbound) + p
    {
      s := SendBytes(p);
    }

    /** An empty buffer is not sent at all. */
    method SendBuffer(data: seq<byte>) returns (s: Status)
      modifies this`outbound, this`failed
      ensures failed == (old(failed) || IsError(s))
      ensures old(outbound) <= outbound <= old(outbound) + data
      ensures s.Failed? ==> s.cause == SendFailed
      ensures s.Done? ==> outbound == old(outbound) + data
    {
      s := Done;
      if 0 < |data| {
        s := SendBytes(data);
      }
    }

    method SendBytes(data: seq<byte>) returns (s: Status)
      modifies this`outbound, this`failed
      ensures failed == (old(failed) || IsError(s))
      ensures old(outbound) <= outbound <= old(outbound) + data
      ensures s.Failed? ==> s.cause == SendFailed
      ensures s.Done? ==> outbound == old(outbound) + data
    {
      var memory := new byte[|data|](i requires 0 <= i < |data| => data[i]);
      assert memory[..] == data;
      s := Write(memory, |data|);
    }

    method RecvPacket() returns (s: Status, p: Packet)
      modifies this`inbound, this`failed
      ensures failed == (old(failed) || IsError(s))
      ensures s.Done? ==> PACKET_SIZE <= |old(inbound)| && p == old(inbound)[..PACKET_SIZE] && inbound == old(inbound)[PACKET_SIZE..]
      ensures |inbound| <= |old(inbound)|
      ensures s == Failed(PeerClosed) ==> |old(inbound)| < PACKET_SIZE
      ensures s != Failed(SendFailed)
    {
      p := MakePacket(NIL);
      var data: seq<byte>;
      s, data := RecvBytes(PACKET_SIZE);
      if s.Done? {
        p := data;
      }
    }

    /** An empty buffer is not waited for. */
    method RecvBuffer(size: nat) returns (s: Status, data: seq<byte>)
      modifies this`inbound, this`failed
      ensures failed == (old(failed) || IsError(s))
      ensures s.Done? ==> size <= |old(inbound)| && data == old(inbound)[..size] && inbound == old(inbound)[size..]
      ensures |inbound| <= |old(inbound)|
      ensures s == Failed(PeerClosed) ==> |old(inbound)| < size
      ensures s != Failed(SendFailed)
    {
      s, data := Done, [];
      if 0 < size {
        s, data := RecvBytes(size);
      }
    }

    /** Waits until the socket is readable and runs the read loop on fresh memory. */
    method RecvBytes(size: nat) returns (s: Status, data: seq<byte>)
      modifies this`inbound, this`failed
      ensures failed == (old(failed) || IsError(s))
      ensures s.Done? ==> size <= |old(inbound)| && data == old(inbound)[..size] && inbound == old(inbound)[size..]
      ensures |inbound| <= |old(inbound)|
      ensures s == Failed(PeerClosed) ==> |old(inbound)| < size
      ensures s != Failed(SendFailed)
    {
      data := [];
      if * {
        failed := true;
        return Failed(SelectFailed), data;
      }
      var memory := new byte[size](_ => 0);
      s := Read(memory, size);
      if s.Done? {
        data := memory[..];
      }
    }
  }

  /** One chunk more in the buffer. */
  lemma Extend(stream: seq<byte>, original: seq<byte>, ptr: nat, n: nat, before: seq<byte>, after: seq<byte>)
    requires ptr + n <= |original| && ptr + n <= |stream|
    requires before == stream[..ptr] + original[ptr..]
    requires after == before[..ptr] + stream[ptr..][..n] + before[ptr + n..]
    ensures after == stream[..ptr + n] + original[ptr + n..]
    ensures stream[ptr..][n..] == stream[ptr + n..]
  {
    assert stream[..ptr + n] == stream[..ptr] + stream[ptr..][..n];
    assert before[ptr + n..] == original[ptr + n..];
  }

  // ---- messages in order -------------------------------------------------------------

  /** What reading the given lengths one after the other yields, and what it leaves: by the
      contract of `Read` this does not depend on the chunks. None when the stream runs dry. */
  function ReadEach(stream: seq<byte>, lengths: seq<nat>): Option<(seq<seq<byte>>, seq<byte>)> {
    if lengths == [] then Some(([], stream))
    else if |stream| < lengths[0] then None
    else
      match ReadEach(stream[lengths[0]..], lengths[1..])
      case None => None
      case Some(r) => Some(([stream[..lengths[0]]] + r.0, r.1))
  }

  function Lengths(ms: seq<seq<byte>>): seq<nat> {
    if ms == [] then [] else [|ms[0]|] + Lengths(ms[1..])
  }

  /** Messages written one after the other and read with the same lengths come back in order,
      and what follows them on the stream is untouched. */
  lemma {:induction false} MessagesInOrder(ms: seq<seq<byte>>, rest: seq<byte>)
    ensures ReadEach(Concat(ms) + rest, Lengths(ms)) == Some((ms, rest))
  {
    if ms == [] {
      assert Concat(ms) + rest == rest;
    } else {
      var stream := Concat(ms) + rest;
      var tail := Concat(ms[1..]) + rest;
      assert stream == ms[0] + tail;
      assert stream[..|ms[0]|] == ms[0] && stream[|ms[0]|..] == tail;
      MessagesInOrder(ms[1..], rest);
      assert Lengths(ms)[1..] == Lengths(ms[1..]);
      assert [ms[0]] + ms[1..] == ms;
    }
  }

  /** The first `sent` messages have been written behind `before`, the first `delivered` of their
      bytes have been handed over, and the first `r` messages have been read. */
  ghost predicate InTransit(ms: seq<seq<byte>>, r: nat, sent: nat, delivered: nat,
                            before: seq<byte>, outbound: seq<byte>, inbound: seq<byte>) {
    && r <= sent <= |ms| && outbound == before + Concat(ms[..sent])
    && |Concat(ms[..r])| <= delivered <= |Concat(ms[..sent])|
    && inbound == Concat(ms[..sent])[|Concat(ms[..r])|..delivered]
  }

  lemma SentOneMore(ms: seq<seq<byte>>, r: nat, sent: nat, delivered: nat,
                    before: seq<byte>, outbound: seq<byte>, inbound: seq<byte>)
    requires InTransit(ms, r, sent, delivered, before, outbound, inbound) && sent < |ms|
    ensures InTransit(ms, r, sent + 1, delivered, before, outbound + ms[sent], inbound)
  {
    var written := Concat(ms[..sent]);
    ConcatSnoc(ms, sent);
    Regroup(before, written, ms[sent]);
    assert (written + ms[sent])[|Concat(ms[..r])|..delivered] == written[|Concat(ms[..r])|..delivered];
  }

  lemma DeliveredMore(ms: seq<seq<byte>>, r: nat, sent: nat, delivered: nat, from: nat, n: nat,
                      before: seq<byte>, outbound: seq<byte>, inbound: seq<byte>)
    requires InTransit(ms, r, sent, delivered, before, outbound, inbound)
    requires from == |before| + delivered && from + n <= |outbound|
    ensures InTransit(ms, r, sent, delivered + n, before, outbound, inbound + outbound[from..from + n])
  {
    var written, at := Concat(ms[..sent]), |Concat(ms[..r])|;
    assert outbound[from..from + n] == written[delivered..delivered + n];
    assert written[at..delivered] + written[delivered..delivered + n] == written[at..delivered + n];
  }

  lemma ReadOneMore(ms: seq<seq<byte>>, r: nat, sent: nat, delivered: nat,
                    before: seq<byte>, outbound: seq<byte>, inbound: seq<byte>)
    requires InTransit(ms, r, sent, delivered, before, outbound, inbound) && r < sent && |ms[r]| <= |inbound|
    ensures inbound[..|ms[r]|] == ms[r]
    ensures InTransit(ms, r + 1, sent, delivered, before, outbound, inbound[|ms[r]|..])
  {
    var written, at := Concat(ms[..sent]), |Concat(ms[..r])|;
    ConcatAt(ms, r, sent);
    assert written[at..delivered][..|ms[r]|] == written[at..at + |ms[r]|];
    assert written[at..delivered][|ms[r]|..] == written[at + |ms[r]|..delivered];
  }

  /** A message that is not there is still to be handed over or to be written. */
  lemma NotThereYet(ms: seq<seq<byte>>, r: nat, sent: nat, delivered: nat,
                    before: seq<byte>, outbound: seq<byte>, inbound: seq<byte>)
    requires InTransit(ms, r, sent, delivered, before, outbound, inbound)
    requires r < |ms| && (r == sent || |inbound| < |ms[r]|)
    ensures |before| + delivered < |outbound| || sent < |ms|
  {
    if r < sent {
      ConcatAt(ms, r, sent);
    }
  }

  lemma NothingInTransit(ms: seq<seq<byte>>, sent: nat, delivered: nat,
                         before: seq<byte>, outbound: seq<byte>, inbound: seq<byte>)
    requires InTransit(ms, |ms|, sent, delivered, before, outbound, inbound)
    ensures inbound == [] && outbound == before + Concat(ms)
  {
    assert ms[..|ms|] == ms;
  }

  /** Writes messages at one end of a connection and reads them at the other. Writing, delivering
      any number of the bytes written, and reading alternate in any way; a message is read once
      its last byte is there. For every chunking chosen by `send` and `recv`, if no call reports an
      error then all messages arrive, in order, and nothing of them is left. */
  method Transfer(sender: Socket, receiver: Socket, ms: seq<seq<byte>>) returns (s: Status, received: seq<seq<byte>>)
    requires sender != receiver && receiver.inbound == []
    modifies sender`outbound, sender`failed, receiver`inbound, receiver`failed
    ensures s.Done? ==>
      received == ms && receiver.inbound == [] && sender.outbound == old(sender.outbound) + Concat(ms)
    ensures !sender.failed && !receiver.failed ==> s.Done?
  {
    s, received := Done, [];
    var sent: nat, delivered: nat, first := 0, 0, |sender.outbound|;
    ghost var before := sender.outbound;
    while |received| < |ms|
      invariant s.Done? && |received| <= |ms| && received == ms[..|received|]
      invariant sent <= |ms| && first == |before| && first + delivered <= |sender.outbound|
      invariant InTransit(ms, |received|, sent, delivered, before, sender.outbound, receiver.inbound)
      decreases |ms| - sent, |ms| - |received|, |sender.outbound| - delivered
    {
      var readNext: bool, deliver: bool := *, *;
      var r := |received|;
      var there := r < sent && |ms[r]| <= |receiver.inbound|;
      if !there {
        NotThereYet(ms, r, sent, delivered, before, sender.outbound, receiver.inbound);
      }
      if there && (readNext || sent == |ms|) {
        var data: seq<byte>;
        s, data := ReadNext(receiver, ms, r, sent, delivered, before, sender.outbound);
        if s.Failed? {
          return;
        }
        received := received + [data];
      } else if first + delivered < |sender.outbound| && (deliver || sent == |ms|) {
        delivered := Deliver(sender, receiver, first + delivered, ms, r, sent, delivered, before);
      } else {
        s := WriteNext(sender, ms, r, sent, delivered, before, receiver.inbound);
        if s.Failed? {
          return;
        }
        sent := sent + 1;
      }
    }
    NothingInTransit(ms, sent, delivered, before, sender.outbound, receiver.inbound);
    assert ms[..|ms|] == ms;
  }

  /** Hands any number of the bytes over that the sender has written from position `from` on. */
  method Deliver(sender: Socket, receiver: Socket, from: nat, ghost ms: seq<seq<byte>>, ghost r: nat, ghost sent: nat,
                 delivered: nat, ghost before: seq<byte>)
    returns (delivered': nat)
    requires sender != receiver && from == |before| + delivered < |sender.outbound|
    requires InTransit(ms, r, sent, delivered, before, sender.outbound, receiver.inbound)
    modifies receiver`inbound
    ensures delivered < delivered' && |before| + delivered' <= |sender.outbound|
    ensures InTransit(ms, r, sent, delivered', before, sender.outbound, receiver.inbound)
  {
    var n: nat :| 1 <= n <= |sender.outbound| - from;
    DeliveredMore(ms, r, sent, delivered, from, n, before, sender.outbound, receiver.inbound);
    receiver.inbound := receiver.inbound + sender.outbound[from..from + n];
    delivered' := delivered + n;
  }

  method ReadNext(receiver: Socket, ms: seq<seq<byte>>, r: nat, ghost sent: nat, ghost delivered: nat,
                  ghost before: seq<byte>, ghost outbound: seq<byte>)
    returns (s: Status, data: seq<byte>)
    requires InTransit(ms, r, sent, delivered, before, outbound, receiver.inbound)
    requires r < sent && |ms[r]| <= |receiver.inbound|
    modifies receiver`inbound, receiver`failed
    ensures s.Failed? ==> receiver.failed
    ensures s.Done? ==> data == ms[r] && InTransit(ms, r + 1, sent, delivered, before, outbound, receiver.inbound)
  {
    ReadOneMore(ms, r, sent, delivered, before, outbound, receiver.inbound);
    s, data := receiver.RecvBuffer(|ms[r]|);
  }

  method WriteNext(sender: Socket, ms: seq<seq<byte>>, ghost r: nat, sent: nat, ghost delivered: nat,
                   ghost before: seq<byte>, ghost inbound: seq<byte>)
    returns (s: Status)
    requires InTransit(ms, r, sent, delivered, before, sender.outbound, inbound) && sent < |ms|
    modifies sender`outbound, sender`failed
    ensures s.Failed? ==> sender.failed
    ensures s.Done? ==>
      && InTransit(ms, r, sent + 1, delivered, before, sender.outbound, inbound)
      && |old(sender.outbound)| <= |sender.outbound|
  {
    SentOneMore(ms, r, sent, delivered, before, sender.outbound, inbound);
    s := sender.SendBuffer(ms[sent]);
  }

  lemma {:induction false} ConcatPrefix(ms: seq<seq<byte>>, a: nat, b: nat)
    requires a <= b <= |ms|
    ensures Concat(ms[..a]) <= Concat(ms[..b])
    decreases b
  {
    if a < b {
      ConcatPrefix(ms, a, b - 1);
      ConcatSnoc(ms, b - 1);
    }
  }

  /** Where a message stands among those written. */
  lemma ConcatAt(ms: seq<seq<byte>>, k: nat, sent: nat)
    requires k < sent <= |ms|
    ensures var written, at := Concat(ms[..sent]), |Concat(ms[..k])|;
      && |Concat(ms[..k + 1])| == at + |ms[k]| <= |written|
      && written[at..at + |ms[k]|] == ms[k]
  {
    ConcatSnoc(ms, k);
    ConcatPrefix(ms, k + 1, sent);
  }

  lemma {:induction false} ConcatSnoc(ms: seq<seq<byte>>, i: nat)
    requires i < |ms|
    ensures Concat(ms[..i + 1]) == Concat(ms[..i]) + ms[i]
  {
    if i == 0 {
      assert ms[..1] == [ms[0]] && ms[..1][1..] == [];
      assert Concat(ms[..1]) == ms[0] + [];
    } else {
      ConcatSnoc(ms[1..], i - 1);
      assert ms[..i + 1][1..] == ms[1..][..i] && ms[..i][1..] == ms[1..][..i - 1];
    }
  }
}
