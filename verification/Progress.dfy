/** An exchange that has begun comes to an end, and exactly when: a lexicographic measure
    falls with every step, and a call gets stuck if and only if it asks for data under a
    code that has no callback. */
module Progress {
  import opened Bytes
  import opened Packets
  import opened Protocol
  import opened Exchange
  import opened Alignment

  /** The steps of an exchange under way: neither a new call nor anything about a broken socket. */
  predicate Internal(step: Step) {
    step.ClientSend? || step.ClientRecv? || step.ServerRecv? || step.ServerEval? || step.ServerSend?
  }

  ghost predicate Quiescent(s: Connection) {
    forall step :: Internal(step) ==> !Enabled(s, step)
  }

  ghost predicate UnderWay(s: Connection) {
    Inv(s) && !s.broken && s.holder.Some?
  }

  // ---- the measure -------------------------------------------------------------------

  /** 2 before the evaluation, 1 after it, 0 when the call has ended. */
  ghost function Stage(s: Connection): nat {
    if s.holder.None? then 0 else if |s.evaluated| < |s.acquired| then 2 else 1
  }

  /** Every byte of the running direction counts twice before it is sent, once in flight. */
  ghost function Work(s: Connection): nat {
    match s.holder
    case None => 0
    case Some(h) =>
      if |s.evaluated| < |s.acquired| then 2 * |Unsent(h.call, h.phase)| + |s.toServer|
      else 2 * |Pending(s.server)| + |s.toClient|
  }

  ghost predicate Falls(s: Connection, s': Connection) {
    Stage(s') < Stage(s) || (Stage(s') == Stage(s) && Work(s') < Work(s))
  }

  lemma SendFalls(s: Connection, step: Step)
    requires UnderWay(s) && Enabled(s, step) && (step.ClientSend? || step.ServerSend?)
    ensures Falls(s, Apply(s, step))
  {
    match step
    case ClientSend(n) =>
      ClientSendMoves(s.holder.value.call, s.holder.value.phase, n);
    case ServerSend(n) =>
      ServerSendMoves(s.server, n);
  }

  /** Every internal step brings the exchange closer to its end. */
  lemma MeasureFalls(s: Connection, step: Step)
    requires UnderWay(s) && Internal(step) && Enabled(s, step)
    ensures Falls(s, Apply(s, step))
  {
    match step
    case ClientSend(_) => SendFalls(s, step);
    case ServerSend(_) => SendFalls(s, step);
    case ClientRecv(n) => ClientRecvAligned(s, n);
    case ServerRecv(n) => ServerRecvAligned(s, n);
    case ServerEval(v) =>
  }

  // ---- deadlock freedom --------------------------------------------------------------

  /** The client waits for a second packet that nobody will send. */
  ghost predicate Starved(s: Connection) {
    && s.holder.Some? && s.holder.value.phase.ReceivingAck?
    && s.toServer == [] && s.toClient == [] && s.server == AwaitingPacket([])
    && |s.evaluated| == |s.acquired| > 0
    && WantsData(s.holder.value.call.meth)
    && s.evaluated[|s.evaluated| - 1].verdict == Verdict(true, None)
  }

  /** Some verdict is always possible: the callback of a registered code may throw at once. */
  function PlainFor(registered: set<uint64>, code: uint64): (v: Verdict)
    ensures Fits(registered, code, v)
  {
    Verdict(code !in registered || GroupOf(code).None?, None)
  }

  lemma AskingMoves(s: Connection) returns (step: Step)
    requires UnderWay(s) && Asking(s, s.holder.value)
    ensures Internal(step) && Enabled(s, step)
  {
    var h := s.holder.value;
    if Speaking(h.phase) {
      step := ClientSend(|Writing(h.phase)|);
    } else if s.server.Evaluating? {
      step := ServerEval(PlainFor(s.registered, Code(s.server.packet)));
    } else {
      if s.toServer == [] {
        assert Consumed(s.server) == h.packet + h.call.body;
        if s.server.AwaitingBuffer? {
          SameCut(s.server.packet, s.server.got, h.packet, h.call.body);
        }
        assert false;
      }
      step := ServerRecv(1);
    }
  }

  lemma AnsweringMoves(s: Connection) returns (step: Step)
    requires UnderWay(s) && Answering(s, s.holder.value) && !Starved(s)
    ensures Internal(step) && Enabled(s, step)
  {
    var h := s.holder.value;
    if !Reading(s.server) {
      step := ServerSend(|ServerWriting(s.server)|);
    } else {
      if s.toClient == [] {
        NothingLeft(s, h);
        assert false;
      }
      step := ClientRecv(1);
    }
  }

  /** A client that has received the whole reply and still waits is starved. */
  lemma NothingLeft(s: Connection, h: Holder)
    requires UnderWay(s) && s.holder == Some(h) && Answering(s, h)
    requires s.server == AwaitingPacket([]) && s.toClient == []
    ensures Starved(s)
  {
    var e := s.evaluated[|s.evaluated| - 1];
    assert Faithful(s.registered, h.call, e);
    var v, r := e.verdict, e.reply;
    assert Received(h.phase) == ReplyBytes(r);
    match h.phase
    case ReceivingFirst(got) =>
    case ReceivingBuffer(first, got) =>
      FirstOfReply(v, r, first, got);
    case ReceivingAck(first, data, got) =>
      assert first + data + got == first + (data + got);
      FirstOfReply(v, r, first, data + got);
  }

  /** Deadlock freedom: an exchange under way can go on unless the client is starved. */
  lemma CanMoveUnlessStarved(s: Connection)
    requires UnderWay(s)
    ensures (exists step :: Internal(step) && Enabled(s, step)) <==> !Starved(s)
  {
    if !Starved(s) {
      var step: Step;
      if Asking(s, s.holder.value) {
        step := AskingMoves(s);
      } else {
        step := AnsweringMoves(s);
      }
      assert Internal(step) && Enabled(s, step);
    }
  }

  // ---- which calls end ---------------------------------------------------------------

  lemma VerdictOfData(registered: set<uint64>, c: Call, v: Verdict)
    requires ValidCall(c) && WantsData(c.meth) && Fits(registered, c.code, v)
    ensures c.code in registered && v.accepted ==> v.message.Some?
    ensures c.code !in registered ==> v == Verdict(true, None)
  {
    DispatchIsExact(c.code, GroupOfMethod(c.meth));
  }

  lemma StarvedIsUnanswerable(s: Connection)
    requires UnderWay(s) && Starved(s)
    ensures !Answerable(s.registered, s.holder.value.call)
  {
    var e := s.evaluated[|s.evaluated| - 1];
    assert Faithful(s.registered, s.holder.value.call, e);
    VerdictOfData(s.registered, s.holder.value.call, e.verdict);
  }

  /** What one internal step may do to the call: leave it in place, or end it with the verdict. */
  ghost predicate InPlaceOrEnded(s: Connection, s': Connection)
    requires s.holder.Some?
  {
    var c := s.holder.value.call;
    && !s'.broken && s'.registered == s.registered
    && s'.acquired == s.acquired && s.evaluated <= s'.evaluated
    && match s'.holder
       case Some(h') => h'.call == c && s'.outcomes == s.outcomes
       case None =>
         && Answerable(s.registered, c)
         && |s'.evaluated| == |s'.acquired| > 0
         && s'.outcomes == s.outcomes + [OutcomeOf(c, s'.evaluated[|s'.evaluated| - 1].verdict)]
  }

  lemma RecvOrEnd(s: Connection, n: nat)
    requires UnderWay(s) && Enabled(s, ClientRecv(n))
    ensures InPlaceOrEnded(s, Apply(s, ClientRecv(n)))
  {
    ClientRecvAligned(s, n);
    var c, e := s.holder.value.call, s.evaluated[|s.evaluated| - 1];
    assert ValidCall(c);
    if WantsData(c.meth) {
      VerdictOfData(s.registered, c, e.verdict);
    }
  }

  lemma StepOrEnd(s: Connection, step: Step)
    requires UnderWay(s) && Internal(step) && Enabled(s, step)
    ensures Inv(Apply(s, step)) && InPlaceOrEnded(s, Apply(s, step))
  {
    StepKeepsInv(s, step);
    if step.ClientRecv? {
      RecvOrEnd(s, step.n);
    }
  }

  lemma IdleIsQuiescent(s: Connection, step: Step)
    requires Inv(s) && !s.broken && s.holder.None? && Internal(step)
    ensures !Enabled(s, step)
  {
  }

  lemma FreeIsQuiescent(s: Connection)
    requires Inv(s) && !s.broken && s.holder.None?
    ensures Quiescent(s)
  {
    forall step | Internal(step) ensures !Enabled(s, step) {
      IdleIsQuiescent(s, step);
    }
  }

  /** The call under way in `s` has ended in `s'` if and only if it was answerable. If it has, it
      ended with the verdict of the evaluation made on it; otherwise it still holds the lock. */
  ghost predicate EndedIffAnswerable(s: Connection, s': Connection)
    requires s.holder.Some?
  {
    var c := s.holder.value.call;
    && !s'.broken
    && (s'.holder.None? <==> Answerable(s.registered, c))
    && (s'.holder.Some? ==> s'.holder.value.call == c)
    && (s'.holder.None? ==>
          && |s'.evaluated| == |s'.acquired| == |s.acquired| > 0
          && s'.outcomes == s.outcomes + [OutcomeOf(c, s'.evaluated[|s'.evaluated| - 1].verdict)])
  }

  lemma StuckIsUnanswerable(s: Connection)
    requires UnderWay(s) && Quiescent(s)
    ensures EndedIffAnswerable(s, s)
  {
    CanMoveUnlessStarved(s);
    StarvedIsUnanswerable(s);
  }

  /** Internal steps from `s` to a state in which no internal step is possible. */
  ghost predicate ToTheEnd(s: Connection, steps: seq<Step>) {
    && Allowed(s, steps)
    && (forall k :: 0 <= k < |steps| ==> Internal(steps[k]))
    && Quiescent(Run(s, steps))
  }

  lemma ToTheEndRest(s: Connection, steps: seq<Step>)
    requires ToTheEnd(s, steps) && steps != []
    ensures Internal(steps[0]) && Enabled(s, steps[0]) && ToTheEnd(Apply(s, steps[0]), steps[1..])
    ensures Run(s, steps) == Run(Apply(s, steps[0]), steps[1..])
  {
  }

  lemma EndedLater(s: Connection, s1: Connection, s2: Connection)
    requires s.holder.Some? && InPlaceOrEnded(s, s1) && s1.holder.Some? && EndedIffAnswerable(s1, s2)
    ensures EndedIffAnswerable(s, s2)
  {
  }

  lemma EndedNow(s: Connection, s1: Connection)
    requires s.holder.Some? && |s.evaluated| <= |s.acquired| && InPlaceOrEnded(s, s1) && s1.holder.None?
    ensures EndedIffAnswerable(s, s1)
  {
  }

  lemma NothingFollows(s: Connection, steps: seq<Step>)
    requires Inv(s) && !s.broken && s.holder.None? && ToTheEnd(s, steps)
    ensures steps == []
  {
    if steps != [] {
      ToTheEndRest(s, steps);
      IdleIsQuiescent(s, steps[0]);
    }
  }

  /** However an exchange under way is scheduled, once no internal step is possible the call
      has ended if and only if it was answerable. */
  lemma {:induction false} EndsIffAnswerable(s: Connection, steps: seq<Step>)
    requires UnderWay(s) && ToTheEnd(s, steps)
    ensures EndedIffAnswerable(s, Run(s, steps))
    decreases |steps|
  {
    if steps == [] {
      StuckIsUnanswerable(s);
    } else {
      var s1, rest := Apply(s, steps[0]), steps[1..];
      ToTheEndRest(s, steps);
      StepOrEnd(s, steps[0]);
      if s1.holder.Some? {
        EndsIffAnswerable(s1, rest);
        EndedLater(s, s1, Run(s1, rest));
      } else {
        NothingFollows(s1, rest);
        EndedNow(s, s1);
      }
    }
  }

  lemma ToTheEndFrom(s: Connection, step: Step, steps: seq<Step>)
    requires Internal(step) && Enabled(s, step) && ToTheEnd(Apply(s, step), steps)
    ensures ToTheEnd(s, [step] + steps)
  {
    var all := [step] + steps;
    assert all[0] == step && all[1..] == steps;
    assert Run(s, all) == Run(Apply(s, step), steps);
    forall k | 0 <= k < |all| ensures Internal(all[k]) {
      assert k > 0 ==> all[k] == steps[k - 1];
    }
  }

  lemma SomeStep(s: Connection) returns (step: Step)
    requires UnderWay(s) && !Quiescent(s)
    ensures Internal(step) && Enabled(s, step)
    ensures var s1 := Apply(s, step); Inv(s1) && !s1.broken && Falls(s, s1)
  {
    step :| Internal(step) && Enabled(s, step);
    MeasureFalls(s, step);
    StepOrEnd(s, step);
  }

  /** Such a state is reached, whichever enabled step is picked each time: by the measure the
      steps cannot go on for ever. */
  lemma {:induction false} ReachesTheEnd(s: Connection) returns (steps: seq<Step>)
    requires Inv(s) && !s.broken
    ensures ToTheEnd(s, steps)
    decreases Stage(s), Work(s)
  {
    steps := [];
    if s.holder.None? {
      FreeIsQuiescent(s);
    } else if !Quiescent(s) {
      var step := SomeStep(s);
      var rest := ReachesTheEnd(Apply(s, step));
      steps := [step] + rest;
      ToTheEndFrom(s, step, rest);
    }
  }

  // ---- calls that never end ----------------------------------------------------------

  /** A call that takes the lock of an idle connection runs to a point from which no internal
      step is possible, and there it has ended if and only if it was answerable. */
  lemma CallRuns(s: Connection, thread: nat, call: Call) returns (steps: seq<Step>)
    requires Inv(s) && !s.broken && s.holder.None? && ValidCall(call)
    ensures ToTheEnd(Apply(s, Acquire(thread, call)), steps)
    ensures EndedIffAnswerable(Apply(s, Acquire(thread, call)), Run(Apply(s, Acquire(thread, call)), steps))
  {
    var s1 := Apply(s, Acquire(thread, call));
    StepKeepsInv(s, Acquire(thread, call));
    steps := ReachesTheEnd(s1);
    EndsIffAnswerable(s1, steps);
  }

  /** A fresh connection on which data are asked for under a code without a callback of its group
      runs into a state in which nothing can happen any more and the caller still holds the
      lock. */
  lemma DownloadStarves(registered: set<uint64>, thread: nat, call: Call) returns (steps: seq<Step>)
    requires ValidCall(call) && WantsData(call.meth) && call.code !in registered
    ensures Allowed(Fresh(registered), steps)
    ensures var s := Run(Fresh(registered), steps);
      Quiescent(s) && !s.broken && s.holder.Some? && s.holder.value.call == call
  {
    var rest := CallRuns(Fresh(registered), thread, call);
    steps := [Acquire(thread, call)] + rest;
    assert steps[1..] == rest;
  }

  // ---- broken connections ------------------------------------------------------------

  /** The system calls may move any number of bytes, up to what there is and what is asked for, and
      a callback may decide anything that fits its code. */
  lemma AnythingMayHappen(s: Connection, n: nat, v: Verdict)
    requires !s.broken && n > 0
    ensures s.holder.Some? && n <= |Writing(s.holder.value.phase)| ==> Enabled(s, ClientSend(n))
    ensures s.holder.Some? && n <= |s.toClient| && n <= ClientNeed(s.holder.value.phase) ==> Enabled(s, ClientRecv(n))
    ensures n <= |s.toServer| && n <= ServerNeed(s.server) ==> Enabled(s, ServerRecv(n))
    ensures n <= |ServerWriting(s.server)| ==> Enabled(s, ServerSend(n))
    ensures s.server.Evaluating? && Fits(s.registered, Code(s.server.packet), v) ==> Enabled(s, ServerEval(v))
  {
  }

  /** Any connection can break at any time. */
  lemma MayBreak(s: Connection)
    requires !s.broken
    ensures Enabled(s, Break) && Apply(s, Break) == s.(broken := true)
  {
  }

  /** Any thread can make any valid call while the lock is free, on a broken connection too. */
  lemma MayCall(s: Connection, thread: nat, call: Call)
    requires s.holder.None? && ValidCall(call)
    ensures Enabled(s, Acquire(thread, call))
    ensures Apply(s, Acquire(thread, call)).acquired == s.acquired + [Ticket(thread, call)]
  {
  }

  /** On a broken connection no byte moves any more; the call that holds the lock ends with a
      SocketException, and the worker stops, after the evaluation that it may be in. */
  lemma BrokenEnds(s: Connection) returns (steps: seq<Step>)
    requires s.broken
    ensures Allowed(s, steps) && |steps| <= 3
    ensures var s' := Run(s, steps);
      && s'.holder.None? && s'.server.Stopped? && s'.toServer == s.toServer && s'.toClient == s.toClient
      && s'.acquired == s.acquired && s.evaluated <= s'.evaluated && |s'.evaluated| <= |s.evaluated| + 1
      && s'.outcomes == s.outcomes + (if s.holder.Some? then [SocketError] else [])
  {
    if s.holder.Some? {
      var s1 := Apply(s, ClientAbort);
      assert s1 == s.(holder := None, outcomes := s.outcomes + [SocketError]);
      var rest := WorkerEnds(s1);
      Prepend(s, ClientAbort, rest);
      steps := [ClientAbort] + rest;
    } else {
      steps := WorkerEnds(s);
    }
  }

  lemma Prepend(s: Connection, step: Step, steps: seq<Step>)
    requires Enabled(s, step) && Allowed(Apply(s, step), steps)
    ensures Allowed(s, [step] + steps) && Run(s, [step] + steps) == Run(Apply(s, step), steps)
  {
    assert ([step] + steps)[1..] == steps;
  }

  lemma StopStops(s: Connection)
    requires s.broken && !s.server.Evaluating? && !s.server.Stopped?
    ensures Allowed(s, [ServerStop]) && Run(s, [ServerStop]) == s.(server := Stopped)
  {
    assert [ServerStop][1..] == [];
  }

  lemma WorkerEnds(s: Connection) returns (steps: seq<Step>)
    requires s.broken
    ensures Allowed(s, steps) && |steps| <= 2
    ensures var s' := Run(s, steps);
      && s.evaluated <= s'.evaluated && |s'.evaluated| <= |s.evaluated| + 1
      && s' == s.(server := Stopped, evaluated := s'.evaluated)
  {
    if s.server.Stopped? {
      steps := [];
    } else if s.server.Evaluating? {
      var eval := ServerEval(PlainFor(s.registered, Code(s.server.packet)));
      var e := EvalIsEvaluated(s, eval);
      var s1 := Evaluated(s, e);
      assert !s1.server.Evaluating? && !s1.server.Stopped?;
      StopStops(s1);
      Prepend(s, eval, [ServerStop]);
      steps := [eval] + [ServerStop];
    } else {
      StopStops(s);
      steps := [ServerStop];
    }
  }

  /** No byte is sent or received on a broken connection. */
  lemma BrokenIsSilent(s: Connection, step: Step)
    requires s.broken && Enabled(s, step)
    ensures Apply(s, step).broken && Apply(s, step).toServer == s.toServer && Apply(s, step).toClient == s.toClient
  {
  }
}
