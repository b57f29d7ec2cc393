/** Shutting the server down (stdsc/stdsc_server.cpp, stdsc/stdsc_thread.cpp): the accept loop,
    the resource container of each connection with its worker thread, and the descriptors that
    are opened and closed on the way. */
module Shutdown {
  import opened Bytes

  const INVALID_SOCKET := -1

  /** The exceptions of the library that a worker catches. */
  datatype Exception = SocketException(reason: string) | InvariantException(reason: string)

  /** One iteration of a worker: a request answered with Accept or Reject, or an exception. */
  datatype Round = Answered | Threw(e: Exception)

  const PEER_CLOSED := SocketException("Socket closed")

  /** What ends a worker that is not told to stop: the first exception of its rounds, or the end
      of the stream. */
  function Ending(rounds: seq<Round>): Exception {
    if rounds == [] then PEER_CLOSED
    else if rounds[0].Threw? then rounds[0].e
    else Ending(rounds[1..])
  }

  /** A worker that has taken the first `taken` of its rounds has ended with `e`: the last of them
      threw it, or none threw and the stream is at its end. */
  ghost predicate EndsWith(rounds: seq<Round>, taken: nat, e: Exception) {
    && taken <= |rounds| && (forall k :: 0 <= k < taken - 1 ==> rounds[k].Answered?)
    && (|| (taken > 0 && rounds[taken - 1] == Threw(e))
        || (taken == |rounds| && (forall k :: 0 <= k < |rounds| ==> rounds[k].Answered?) && e == PEER_CLOSED))
  }

  /** The exception that ends a worker is the first that is thrown, or that of the closed peer
      when none is. */
  lemma {:induction false} EndingIff(rounds: seq<Round>, e: Exception)
    ensures Ending(rounds) == e <==>
      || (exists k :: 0 <= k < |rounds| && rounds[k] == Threw(e) && forall l :: 0 <= l < k ==> rounds[l].Answered?)
      || ((forall k :: 0 <= k < |rounds| ==> rounds[k].Answered?) && e == PEER_CLOSED)
  {
    if rounds != [] && rounds[0].Answered? {
      var rest := rounds[1..];
      EndingIff(rest, e);
      forall k | 0 <= k < |rest| ensures rest[k] == rounds[k + 1] {
      }
      if k :| 0 <= k < |rest| && rest[k] == Threw(e) && forall l :: 0 <= l < k ==> rest[l].Answered? {
        assert rounds[k + 1] == Threw(e);
        assert forall l :: 0 < l < k + 1 ==> rounds[l] == rest[l - 1];
      }
      if k :| 0 <= k < |rounds| && rounds[k] == Threw(e) && forall l :: 0 <= l < k ==> rounds[l].Answered? {
        assert rest[k - 1] == Threw(e);
        assert forall l :: 0 <= l < k - 1 ==> rest[l] == rounds[l + 1];
      }
      assert (forall k :: 0 <= k < |rest| ==> rest[k].Answered?) ==> forall k :: 0 < k < |rounds| ==> rounds[k] == rest[k - 1];
    }
  }

  lemma EndsWithEnding(rounds: seq<Round>, taken: nat, e: Exception)
    requires EndsWith(rounds, taken, e)
    ensures Ending(rounds) == e
  {
    EndingIff(rounds, e);
    if taken > 0 && rounds[taken - 1] == Threw(e) {
      assert forall l :: 0 <= l < taken - 1 ==> rounds[l].Answered?;
    }
  }

  // ---- the process -------------------------------------------------------------------

  ghost predicate Distinct<T>(xs: seq<T>) {
    forall i, j :: 0 <= i < j < |xs| ==> xs[i] != xs[j]
  }

  lemma {:induction false} UnusedDescriptor(used: set<int>) returns (m: int)
    ensures 0 <= m && forall x :: x in used ==> x < m
    decreases |used|
  {
    if x :| x in used {
      var m' := UnusedDescriptor(used - {x});
      m := if x < m' then m' else x + 1;
      assert forall y :: y in used ==> y == x || y in used - {x};
    } else {
      m := 0;
    }
  }

  /** A descriptor table with its logs. */
  datatype Books = Books(open: set<int>, issued: seq<int>, closed: seq<int>)

  /** The descriptor table, and the descriptors that have been handed out and closed, in order. */
  class Process {
    var open: set<int>
    var issued: seq<int>
    var closed: seq<int>

    ghost function Now(): Books
      reads this
    {
      Books(open, issued, closed)
    }

    constructor (open: set<int>)
      ensures this.open == open && issued == closed == []
    {
      this.open, issued, closed := open, [], [];
    }

    /** `::socket` and `::accept`: any descriptor that is not in use. */
    method Open() returns (fd: int)
      modifies this`open, this`issued
      ensures 0 <= fd && fd !in old(open) && open == old(open) + {fd} && issued == old(issued) + [fd]
    {
      ghost var m := UnusedDescriptor(open);
      assert m !in open;
      fd :| 0 <= fd && fd !in open;
      open := open + {fd};
      issued := issued + [fd];
    }

    method Close(fd: int)
      modifies this`open, this`closed
      ensures closed == old(closed) + [fd] && open == old(open) - {fd}
    {
      closed := closed + [fd];
      open := open - {fd};
    }
  }

  // ---- a worker thread ---------------------------------------------------------------

  /** `othersStop` says whether some thread calls `stop` on this one while it runs. */
  class ServerThread {
    const othersStop: bool
    var forceFinish: bool
    var joinable: bool
    var rounds: seq<Round>
    var ep: Option<Exception>
    ghost var joins: nat

    constructor (rounds: seq<Round>, othersStop: bool)
      ensures this.rounds == rounds && this.othersStop == othersStop && ep == None && !joinable && joins == 0
    {
      this.rounds, this.othersStop := rounds, othersStop;
      forceFinish, joinable, ep, joins := false, false, None, 0;
    }

    method Start()
      modifies this`forceFinish, this`joinable
      ensures !forceFinish && joinable
    {
      forceFinish := false;
      joinable := true;
    }

    /** The loop of the thread: unless it is told to stop it takes rounds until one throws, none
        after that, and stores the exception. The flag is looked at before each round only, so a
        stop that arrives while the thread is blocked does not keep the exception of that round
        from being stored. */
    method Exec() returns (ghost taken: nat, ghost stored: bool)
      modifies this`forceFinish, this`ep, this`rounds
      ensures forceFinish ==> old(forceFinish) || othersStop
      ensures taken <= |old(rounds)| && rounds == old(rounds)[taken..]
      ensures if stored then ep.Some? && EndsWith(old(rounds), taken, ep.value)
              else forceFinish && ep == old(ep) && forall k :: 0 <= k < taken ==> old(rounds)[k].Answered?
    {
      taken, stored := 0, false;
      while !forceFinish
        invariant forceFinish ==> old(forceFinish) || othersStop
        invariant !stored && ep == old(ep) && taken <= |old(rounds)| && rounds == old(rounds)[taken..]
        invariant forall k :: 0 <= k < taken ==> old(rounds)[k].Answered?
        decreases |rounds|, !forceFinish
      {
        var stop: bool := *;
        forceFinish := othersStop && stop;
        if rounds == [] {
          ep, stored := Some(PEER_CLOSED), true;
          break;
        }
        var round := rounds[0];
        rounds, taken := rounds[1..], taken + 1;
        match round
        case Answered =>
        case Threw(e) =>
          ep, stored := Some(e), true;
          break;
      }
    }

    /** Waits for the thread, which has then run to its end, and rethrows what it has stored. */
    method Join() returns (thrown: Option<Exception>)
      modifies this
      ensures !joinable && thrown == ep
      ensures joins == old(joins) + (if old(joinable) then 1 else 0)
      ensures forceFinish ==> old(forceFinish) || othersStop
      ensures old(joinable) && !forceFinish ==> ep == Some(Ending(old(rounds)))
      ensures ep == old(ep) || (old(joinable) && ep == Some(Ending(old(rounds))))
    {
      if joinable {
        ghost var taken, stored := Exec();
        if stored {
          EndsWithEnding(old(rounds), taken, ep.value);
        }
        joinable := false;
        joins := joins + 1;
      }
      thrown := ep;
    }
  }

  // ---- the resources of a connection -------------------------------------------------

  class ResourceContainer {
    const th: ServerThread
    var socket: int
    var isReleased: bool
    ghost const fd: int
    ghost const script: seq<Round>

    /** The container keeps its own copy of the socket; the copy of the accept loop goes out of
        scope without being closed. Nothing calls `stop` on the worker. */
    constructor (fd: int, rounds: seq<Round>)
      ensures this.fd == fd && socket == fd && script == rounds && !isReleased
      ensures fresh(th) && th.rounds == rounds && !th.othersStop && th.ep == None && !th.joinable && th.joins == 0
    {
      this.fd, socket, script := fd, fd, rounds;
      th := new ServerThread(rounds, false);
      isReleased := false;
    }

    ghost predicate Running()
      reads this, th
    {
      && 0 <= fd && socket == fd && !isReleased
      && !th.othersStop && !th.forceFinish && th.joinable && th.rounds == script && th.ep == None && th.joins == 0
    }

    ghost predicate Released()
      reads this, th
    {
      socket == INVALID_SOCKET && isReleased && th.joins == 1 && !th.joinable && th.ep == Some(Ending(script))
    }

    method Invoke()
      modifies th`forceFinish, th`joinable
      ensures !th.forceFinish && th.joinable
    {
      th.Start();
    }

    method Wait(p: Process)
      modifies this, th, p`open, p`closed
      ensures old(Running()) ==> Released() && p.closed == old(p.closed) + [fd] && p.open == old(p.open) - {fd}
    {
      var thrown := th.Join();
      if thrown.Some? {
        Release(p);
      }
    }

    /** Closes the socket the first time and does nothing after that. */
    method Release(p: Process)
      modifies this, p`open, p`closed
      ensures isReleased
      ensures old(isReleased) ==> socket == old(socket) && p.closed == old(p.closed) && p.open == old(p.open)
      ensures !old(isReleased) ==>
        && socket == INVALID_SOCKET
        && (old(socket) == INVALID_SOCKET ==> p.closed == old(p.closed) && p.open == old(p.open))
        && (old(socket) != INVALID_SOCKET ==> p.closed == old(p.closed) + [old(socket)] && p.open == old(p.open) - {old(socket)})
    {
      if !isReleased {
        if socket != INVALID_SOCKET {
          p.Close(socket);
          socket := INVALID_SOCKET;
        }
        isReleased := true;
      }
    }
  }

  // ---- what the server meets and does ------------------------------------------------

  /** What `accept_connection` meets: a peer whose worker will have the given rounds, an error
      before there is a descriptor, or an error after it, which closes the descriptor again. */
  datatype Arrival = Peer(rounds: seq<Round>) | AcceptFailed | SetUpFailed

  /** What the workers of the accepted peers will do, in the order of their arrival. */
  function PeerRounds(arrivals: seq<Arrival>): seq<seq<Round>> {
    if arrivals == [] then []
    else
      var last := arrivals[|arrivals| - 1];
      PeerRounds(arrivals[..|arrivals| - 1]) + (if last.Peer? then [last.rounds] else [])
  }

  function Failures(arrivals: seq<Arrival>): nat {
    if arrivals == [] then 0
    else Failures(arrivals[..|arrivals| - 1]) + (if arrivals[|arrivals| - 1].SetUpFailed? then 1 else 0)
  }

  function PeersAmong(arrivals: seq<Arrival>): set<nat> {
    Positions(arrivals, (a: Arrival) => a.Peer?)
  }

  function FailuresAmong(arrivals: seq<Arrival>): set<nat> {
    Positions(arrivals, (a: Arrival) => a.SetUpFailed?)
  }

  lemma {:induction false} AllCounted(arrivals: seq<Arrival>)
    ensures |PeerRounds(arrivals)| == |PeersAmong(arrivals)| && Failures(arrivals) == |FailuresAmong(arrivals)|
  {
    if arrivals != [] {
      var init, last := arrivals[..|arrivals| - 1], arrivals[|arrivals| - 1];
      AllCounted(init);
      assert arrivals == init + [last];
      OneMorePosition(init, last, (a: Arrival) => a.Peer?);
      OneMorePosition(init, last, (a: Arrival) => a.SetUpFailed?);
    }
  }

  lemma {:induction false} PeerIsMet(arrivals: seq<Arrival>, k: nat)
    requires k < |arrivals| && arrivals[k].Peer?
    ensures |PeersAmong(arrivals[..k])| < |PeerRounds(arrivals)|
    ensures PeerRounds(arrivals)[|PeersAmong(arrivals[..k])|] == arrivals[k].rounds
  {
    var n := |arrivals| - 1;
    if k < n {
      PeerIsMet(arrivals[..n], k);
      assert arrivals[..n][..k] == arrivals[..k];
    } else {
      AllCounted(arrivals[..n]);
    }
  }

  /** Every accepted peer has its worker, in the order of arrival, and there are no others. */
  lemma PeersMet(arrivals: seq<Arrival>)
    ensures |PeerRounds(arrivals)| == |PeersAmong(arrivals)| && Failures(arrivals) == |FailuresAmong(arrivals)|
    ensures forall k :: 0 <= k < |arrivals| && arrivals[k].Peer? ==>
      var before := |PeersAmong(arrivals[..k])|;
      before < |PeerRounds(arrivals)| && PeerRounds(arrivals)[before] == arrivals[k].rounds
  {
    AllCounted(arrivals);
    forall k | 0 <= k < |arrivals| && arrivals[k].Peer?
      ensures |PeersAmong(arrivals[..k])| < |PeerRounds(arrivals)|
      ensures PeerRounds(arrivals)[|PeersAmong(arrivals[..k])|] == arrivals[k].rounds
    {
      PeerIsMet(arrivals, k);
    }
  }

  lemma NextArrival(arrivals: seq<Arrival>, n: nat)
    requires n < |arrivals|
    ensures PeerRounds(arrivals[..n + 1]) == PeerRounds(arrivals[..n]) + (if arrivals[n].Peer? then [arrivals[n].rounds] else [])
    ensures Failures(arrivals[..n + 1]) == Failures(arrivals[..n]) + (if arrivals[n].SetUpFailed? then 1 else 0)
  {
    assert arrivals[..n + 1][..n] == arrivals[..n];
  }

  ghost function Descriptors(rs: seq<ResourceContainer>): (fds: seq<int>)
    ensures |fds| == |rs| && forall k :: 0 <= k < |rs| ==> fds[k] == rs[k].fd
  {
    seq(|rs|, k requires 0 <= k < |rs| => rs[k].fd)
  }

  ghost predicate Separate(rs: seq<ResourceContainer>) {
    && Distinct(rs)
    && (forall i, j :: 0 <= i < j < |rs| ==> rs[i].th != rs[j].th)
  }

  ghost function Scripts(rs: seq<ResourceContainer>): (scripts: seq<seq<Round>>)
    ensures |scripts| == |rs| && forall k :: 0 <= k < |rs| ==> scripts[k] == rs[k].script
  {
    seq(|rs|, k requires 0 <= k < |rs| => rs[k].script)
  }

  ghost predicate Running(rs: seq<ResourceContainer>, from: nat)
    reads rs, set k | 0 <= k < |rs| :: rs[k].th
  {
    forall k :: from <= k < |rs| ==> rs[k].Running()
  }

  ghost predicate Released(rs: seq<ResourceContainer>, to: nat)
    reads rs, set k | 0 <= k < |rs| :: rs[k].th
  {
    forall k :: 0 <= k < |rs| && k < to ==> rs[k].Released()
  }

  /** The set of the descriptors that are held. */
  ghost predicate Holds(open: set<int>, outside: set<int>, fds: seq<int>) {
    && Distinct(fds)
    && (forall fd :: fd in fds ==> fd !in outside)
    && (forall fd :: fd in open <==> fd in outside || fd in fds)
  }

  lemma OneMore(open: set<int>, outside: set<int>, fds: seq<int>, listen: int, fd: int)
    requires Holds(open, outside, fds + [listen]) && fd !in open
    ensures Holds(open + {fd}, outside, fds + [fd] + [listen])
  {
    var old', new' := fds + [listen], fds + [fd] + [listen];
    assert forall x :: x in new' <==> x in fds || x == fd || x == listen;
    assert forall x :: x in old' <==> x in fds || x == listen;
    forall i, j | 0 <= i < j < |new'| ensures new'[i] != new'[j] {
      if i == |fds| || j == |fds| {
        assert i != |fds| ==> new'[i] == old'[i];
        assert j != |fds| ==> new'[j] == listen;
      } else {
        var j' := if j < |fds| then j else |fds|;
        assert new'[i] == old'[i] && new'[j] == old'[j'];
      }
    }
  }

  lemma OneLess(open: set<int>, outside: set<int>, fds: seq<int>)
    requires fds != [] && Holds(open, outside, fds)
    ensures Holds(open - {fds[0]}, outside, fds[1..])
  {
    assert forall fd :: fd in fds <==> fd == fds[0] || fd in fds[1..];
  }

  lemma OneLeft(open: set<int>, outside: set<int>, listen: int)
    requires Holds(open, outside, [listen])
    ensures listen in open && open - {listen} == outside
  {
    assert forall fd :: fd in [listen] <==> fd == listen;
    assert forall fd :: fd in open - {listen} <==> fd in outside;
  }

  ghost predicate AreOutside(fds: seq<int>, outside: set<int>) {
    forall fd :: fd in fds ==> fd !in outside
  }

  /** The descriptors that a log has grown by. */
  ghost predicate IssuedSince(log: seq<int>, log0: seq<int>, fds: multiset<int>) {
    log0 <= log && multiset(log[|log0|..]) == fds
  }

  /** What has been done since `start`: the descriptors of `fds` are held, those of `failed` were
      closed again, and nothing else was opened or closed. */
  ghost predicate Account(now: Books, start: Books, failed: seq<int>, fds: seq<int>) {
    && Holds(now.open, start.open, fds)
    && AreOutside(failed, start.open)
    && IssuedSince(now.issued, start.issued, multiset(failed) + multiset(fds))
    && now.closed == start.closed + failed
  }

  /** All of it has been closed: the process holds what it held at the start, and every
      descriptor has been closed exactly as often as it was handed out. */
  ghost predicate Settled(now: Books, start: Books, failed: seq<int>, fds: seq<int>) {
    && now.open == start.open && now.closed == start.closed + failed + fds
    && IssuedSince(now.issued, start.issued, multiset(failed + fds))
    && Distinct(fds) && AreOutside(failed + fds, start.open)
  }

  lemma Logged(log: seq<int>, log0: seq<int>, fds: multiset<int>, fd: int)
    requires IssuedSince(log, log0, fds)
    ensures IssuedSince(log + [fd], log0, fds + multiset{fd})
  {
    assert (log + [fd])[|log0|..] == log[|log0|..] + [fd];
  }

  lemma FirstHeld(start: Books, now: Books, fd: int)
    requires fd !in start.open && now == Books(start.open + {fd}, start.issued + [fd], start.closed)
    ensures Account(now, start, [], [fd])
  {
    assert now.issued[|start.issued|..] == [fd];
    assert forall x :: x in [fd] <==> x == fd;
    assert multiset([]) + multiset([fd]) == multiset([fd]);
  }

  lemma OneMoreFailed(now: Books, start: Books, failed: seq<int>, fds: seq<int>, fd: int)
    requires Account(now, start, failed, fds) && fd !in now.open
    ensures Account(Books(now.open, now.issued + [fd], now.closed + [fd]), start, failed + [fd], fds)
  {
    Logged(now.issued, start.issued, multiset(failed) + multiset(fds), fd);
    assert multiset(failed) + multiset(fds) + multiset{fd} == multiset(failed + [fd]) + multiset(fds);
  }

  lemma OneMoreHeld(now: Books, start: Books, failed: seq<int>, fds: seq<int>, listen: int, fd: int)
    requires Account(now, start, failed, fds + [listen]) && fd !in now.open
    ensures Account(Books(now.open + {fd}, now.issued + [fd], now.closed), start, failed, fds + [fd] + [listen])
  {
    OneMore(now.open, start.open, fds, listen, fd);
    Logged(now.issued, start.issued, multiset(failed) + multiset(fds + [listen]), fd);
    assert multiset(fds + [listen]) + multiset{fd} == multiset(fds + [fd] + [listen]);
  }

  lemma AllClosed(before: Books, now: Books, start: Books, failed: seq<int>, fds: seq<int>)
    requires Account(before, start, failed, fds)
    requires now.open == start.open && now.issued == before.issued && now.closed == before.closed + fds
    ensures Settled(now, start, failed, fds)
  {
    assert multiset(failed) + multiset(fds) == multiset(failed + fds);
  }

  /** The containers and the failures that the first `n` arrivals lead to. */
  ghost predicate Met(arrivals: seq<Arrival>, n: nat, scripts: seq<seq<Round>>, failures: nat) {
    n <= |arrivals| && scripts == PeerRounds(arrivals[..n]) && failures == Failures(arrivals[..n])
  }

  lemma MetOneMore(arrivals: seq<Arrival>, n: nat, scripts: seq<seq<Round>>, failures: nat)
    requires n < |arrivals| && Met(arrivals, n, scripts, failures)
    ensures Met(arrivals, n + 1,
                scripts + (if arrivals[n].Peer? then [arrivals[n].rounds] else []),
                failures + (if arrivals[n].SetUpFailed? then 1 else 0))
  {
    NextArrival(arrivals, n);
  }

  // ---- the server --------------------------------------------------------------------

  /** `Server::Impl::exec`. If it returns, then every descriptor that it has opened has been
      closed exactly as often as it was opened: first those whose set-up failed, then those of
      the connections in the order of their arrival, and the listening one last; and the
      worker of every connection that was accepted has been joined once and has stored the
      exception that ended it. `stop` is the number of arrivals after which the loop finds that
      it has been told to finish, `failed` holds the descriptors whose set-up failed. */
  method Exec(p: Process, arrivals: seq<Arrival>, stop: nat)
    returns (rs: seq<ResourceContainer>, listen: int, ghost failed: seq<int>)
    requires stop <= |arrivals|
    modifies p
    ensures Met(arrivals, stop, Scripts(rs), |failed|)
    ensures Released(rs, |rs|)
    ensures Settled(p.Now(), old(p.Now()), failed, Descriptors(rs) + [listen])
  {
    ghost var start := p.Now();
    listen := p.Open();
    FirstHeld(start, p.Now(), listen);
    rs, failed := AcceptLoop(p, arrivals, stop, start, listen);
    CloseAll(p, rs, listen, start, failed);
  }

  /** Every iteration ends with a connection more or with an exception of `accept` that is
      ignored, and the loop goes on until it finds the flag of its arguments set, which another
      thread has done while arrival `stop` was met, or before the first. */
  method AcceptLoop(p: Process, arrivals: seq<Arrival>, stop: nat, ghost start: Books, ghost listen: int)
    returns (rs: seq<ResourceContainer>, ghost failed: seq<int>)
    requires stop <= |arrivals| && Account(p.Now(), start, [], [listen])
    modifies p
    ensures Met(arrivals, stop, Scripts(rs), |failed|)
    ensures forall r :: r in rs ==> fresh(r) && fresh(r.th)
    ensures Separate(rs) && Running(rs, 0)
    ensures Account(p.Now(), start, failed, Descriptors(rs) + [listen])
  {
    rs, failed := [], [];
    assert Descriptors(rs) + [listen] == [listen];
    var n, forceFinish := 0, stop == 0;
    while !forceFinish
      invariant n <= stop && forceFinish == (n == stop)
      invariant Met(arrivals, n, Scripts(rs), |failed|)
      invariant forall r :: r in rs ==> fresh(r) && fresh(r.th)
      invariant Separate(rs) && Running(rs, 0)
      invariant Account(p.Now(), start, failed, Descriptors(rs) + [listen])
      decreases stop - n
    {
      MetOneMore(arrivals, n, Scripts(rs), |failed|);
      rs, failed := Meet(p, arrivals[n], rs, start, failed, listen);
      n := n + 1;
      forceFinish := n == stop;
    }
  }

  /** One call of `accept_connection`, and what the loop makes of it. */
  method Meet(p: Process, arrival: Arrival, rs: seq<ResourceContainer>,
              ghost start: Books, ghost failed: seq<int>, ghost listen: int)
    returns (rs': seq<ResourceContainer>, ghost failed': seq<int>)
    requires Separate(rs) && Running(rs, 0)
    requires Account(p.Now(), start, failed, Descriptors(rs) + [listen])
    modifies p
    ensures Scripts(rs') == Scripts(rs) + (if arrival.Peer? then [arrival.rounds] else [])
    ensures |failed'| == |failed| + (if arrival.SetUpFailed? then 1 else 0)
    ensures forall r :: r in rs' ==> r in rs || (fresh(r) && fresh(r.th))
    ensures Separate(rs') && Running(rs', 0)
    ensures Account(p.Now(), start, failed', Descriptors(rs') + [listen])
  {
    rs', failed' := rs, failed;
    match arrival
    case AcceptFailed =>
    case SetUpFailed =>
      ghost var fd := FailToSetUp(p, start, failed, Descriptors(rs) + [listen]);
      failed' := failed + [fd];
    case Peer(rounds) =>
      var r := Accept(p, rounds, start, failed, Descriptors(rs), listen);
      OneMoreRunning(rs, r);
      rs' := rs + [r];
  }

  /** A socket option cannot be set on the new descriptor: it is closed and the exception of
      `accept_connection` is ignored. */
  method FailToSetUp(p: Process, ghost start: Books, ghost failed: seq<int>, ghost fds: seq<int>)
    returns (ghost fd: int)
    requires Account(p.Now(), start, failed, fds)
    modifies p
    ensures Account(p.Now(), start, failed + [fd], fds)
  {
    ghost var before := p.Now();
    var socket := p.Open();
    p.Close(socket);
    fd := socket;
    OneMoreFailed(before, start, failed, fds, fd);
    assert p.open == before.open;
  }

  /** Accepts a peer, makes its container and starts its worker. */
  method Accept(p: Process, rounds: seq<Round>, ghost start: Books, ghost failed: seq<int>,
                ghost fds: seq<int>, ghost listen: int)
    returns (r: ResourceContainer)
    requires Account(p.Now(), start, failed, fds + [listen])
    modifies p
    ensures fresh(r) && fresh(r.th) && r.Running() && r.script == rounds
    ensures Account(p.Now(), start, failed, fds + [r.fd] + [listen])
  {
    ghost var before := p.Now();
    var fd := p.Open();
    OneMoreHeld(before, start, failed, fds, listen, fd);
    r := new ResourceContainer(fd, rounds);
    r.Invoke();
  }

  lemma OneMoreRunning(rs: seq<ResourceContainer>, r: ResourceContainer)
    requires Separate(rs) && Running(rs, 0) && r.Running()
    requires forall k :: 0 <= k < |rs| ==> rs[k] != r && rs[k].th != r.th
    ensures Separate(rs + [r]) && Running(rs + [r], 0)
    ensures Descriptors(rs + [r]) == Descriptors(rs) + [r.fd] && Scripts(rs + [r]) == Scripts(rs) + [r.script]
  {
  }

  /** The end of the accept loop's method, with the destructors of its containers. */
  method CloseAll(p: Process, rs: seq<ResourceContainer>, listen: int, ghost start: Books, ghost failed: seq<int>)
    requires Separate(rs) && Running(rs, 0)
    requires Account(p.Now(), start, failed, Descriptors(rs) + [listen])
    modifies rs, set r | r in rs :: r.th, p`open, p`closed
    ensures Released(rs, |rs|)
    ensures Settled(p.Now(), start, failed, Descriptors(rs) + [listen])
  {
    ghost var before, ds := p.Now(), Descriptors(rs);
    WaitForAll(p, rs, start.open, listen);
    p.Close(listen);
    DestroyAll(p, rs);
    assert before.closed + ds + [listen] == before.closed + (ds + [listen]);
    AllClosed(before, p.Now(), start, failed, ds + [listen]);
  }

  /** Waits for every worker and releases its descriptor, in the order of arrival. */
  method WaitForAll(p: Process, rs: seq<ResourceContainer>, ghost outside: set<int>, ghost listen: int)
    requires Separate(rs) && Running(rs, 0)
    requires Holds(p.open, outside, Descriptors(rs) + [listen])
    modifies rs, set r | r in rs :: r.th, p`open, p`closed
    ensures Released(rs, |rs|)
    ensures p.closed == old(p.closed) + Descriptors(rs)
    ensures listen in p.open && p.open - {listen} == outside
  {
    ghost var fds := Descriptors(rs) + [listen];
    assert fds[0..] == fds;
    for k := 0 to |rs|
      invariant Running(rs, k) && Released(rs, k)
      invariant Holds(p.open, outside, fds[k..])
      invariant p.closed == old(p.closed) + fds[..k]
    {
      WaitAndRelease(p, rs, k, outside, fds, old(p.closed));
    }
    assert fds[|rs|..] == [listen] && fds[..|rs|] == Descriptors(rs);
    OneLeft(p.open, outside, listen);
  }

  /** The k-th container waits for its worker and is released. */
  method WaitAndRelease(p: Process, rs: seq<ResourceContainer>, k: nat,
                        ghost outside: set<int>, ghost fds: seq<int>, ghost closed: seq<int>)
    requires k < |rs| && Separate(rs) && Running(rs, k) && Released(rs, k)
    requires |fds| == |rs| + 1 && fds[k] == rs[k].fd
    requires Holds(p.open, outside, fds[k..]) && p.closed == closed + fds[..k]
    modifies rs[k], rs[k].th, p`open, p`closed
    ensures Running(rs, k + 1) && Released(rs, k + 1)
    ensures Holds(p.open, outside, fds[k + 1..]) && p.closed == closed + fds[..k + 1]
  {
    OneLess(p.open, outside, fds[k..]);
    assert fds[k..][1..] == fds[k + 1..] && fds[..k + 1] == fds[..k] + [fds[k]];
    rs[k].Wait(p);
    rs[k].Release(p);
  }

  /** The destructors of the containers release them once more. */
  method DestroyAll(p: Process, rs: seq<ResourceContainer>)
    requires Released(rs, |rs|)
    modifies rs, p`open, p`closed
    ensures Released(rs, |rs|) && p.closed == old(p.closed) && p.open == old(p.open)
  {
    for k := 0 to |rs|
      invariant Released(rs, |rs|) && p.closed == old(p.closed) && p.open == old(p.open)
    {
      rs[k].Release(p);
    }
  }
}
