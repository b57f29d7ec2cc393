/** Whole runs of the example client program: every run without a broken connection is
    finite, and when nothing more can happen every client holds the right answer and the
    program's count of verified clients equals their number. */
module MultiClientRun {
  import opened Bytes
  import opened Protocol
  import opened Application
  import opened Deployment
  import X = Exchange
  import A = Alignment
  import P = Progress

  ghost predicate AllScripted(clients: seq<Client>) {
    forall i :: 0 <= i < |clients| ==> clients[i].Scripted?
  }

  ghost predicate Healthy(sys: System) {
    forall i :: 0 <= i < |sys.conns| ==> !sys.conns[i].broken
  }

  /** Nothing can happen any more, short of a connection breaking. */
  ghost predicate Quiescent(sys: System) {
    forall m :: Enabled(sys, m) ==> m.step.Break?
  }

  /** The same for one connection and its worker, whatever others may still do. */
  ghost predicate Quiet(sys: System, i: nat) {
    forall m :: Enabled(sys, m) && m.i == i ==> m.step.Break?
  }

  // ---- liveness ----------------------------------------------------------------------

  lemma ScriptIsAnswerable(ex: Example, v: Values, k: nat)
    requires k < 4
    ensures ValidCall(Script(ex, v)[k]) && Answerable(Implemented(Callbacks(ex)), Script(ex, v)[k])
    ensures |Script(ex, v)[k].body| <= 4
  {
    CallbacksSuit(ex);
  }

  lemma CallbacksSuit(ex: Example)
    ensures Implemented(Callbacks(ex)) == Callbacks(ex).Keys
  {
    ExamplesAreWellRegistered();
    WellRegisteredIff(Callbacks(ex));
  }

  /** A step that a connection can take by itself can be taken in the system, an evaluation with
      the verdict of the application. */
  lemma StepIsMove(sys: System, i: nat, step: X.Step) returns (m: Move)
    requires |sys.clients| == |sys.conns| && i < |sys.conns| && sys.app.funcmap == Callbacks(sys.example)
    requires sys.conns[i].registered == Implemented(Callbacks(sys.example))
    requires P.Internal(step) && X.Enabled(sys.conns[i], step)
    ensures Enabled(sys, m) && m.i == i && !m.step.Break?
  {
    m := Move(i, step);
    if step.ServerEval? {
      EvalFits(sys.app, DemandOf(sys, i));
      m := Move(i, X.ServerEval(VerdictOn(sys.app, DemandOf(sys, i))));
    }
  }

  /** A client in the middle of a call can go on. */
  lemma UnderWayMoves(sys: System, i: nat) returns (m: Move)
    requires Inv(sys) && i < |sys.conns| && sys.clients[i].Scripted?
    requires !sys.conns[i].broken && sys.conns[i].holder.Some?
    ensures Enabled(sys, m) && m.i == i && !m.step.Break?
  {
    var c, ex, v := sys.conns[i], sys.example, sys.clients[i].values;
    assert ConnInv(ex, sys.clients[i], c, sys.app, i);
    assert c.holder.value.call == Script(ex, v)[|c.outcomes|];
    ScriptIsAnswerable(ex, v, |c.outcomes|);
    var step := AnswerableMoves(c);
    m := StepIsMove(sys, i, step);
  }

  lemma AnswerableMoves(c: X.Connection) returns (step: X.Step)
    requires P.UnderWay(c) && Answerable(c.registered, c.holder.value.call)
    ensures P.Internal(step) && X.Enabled(c, step)
  {
    P.CanMoveUnlessStarved(c);
    if P.Starved(c) {
      P.StarvedIsUnanswerable(c);
      assert false;
    }
    step :| P.Internal(step) && X.Enabled(c, step);
  }

  /** A client between two calls can begin the next one. */
  lemma NextCallMoves(sys: System, i: nat) returns (m: Move)
    requires Inv(sys) && i < |sys.conns| && sys.clients[i].Scripted?
    requires !sys.conns[i].broken && sys.conns[i].holder.None? && |sys.conns[i].outcomes| < 4
    ensures Enabled(sys, m) && m.i == i && !m.step.Break?
  {
    var c, ex := sys.conns[i], sys.example;
    assert ConnInv(ex, sys.clients[i], c, sys.app, i);
    var v := sys.clients[i].values;
    NextOnScript(ex, v, c, sys.app, i);
    ScriptIsAnswerable(ex, v, |c.outcomes|);
    m := Move(i, X.Acquire(0, Script(ex, v)[|c.outcomes|]));
  }

  lemma QuietMeansDone(sys: System, i: nat)
    requires Inv(sys) && Quiet(sys, i) && i < |sys.conns| && sys.clients[i].Scripted? && !sys.conns[i].broken
    ensures |sys.conns[i].outcomes| >= 4
  {
    if sys.conns[i].holder.Some? {
      var m := UnderWayMoves(sys, i);
      assert false;
    } else if |sys.conns[i].outcomes| < 4 {
      var m := NextCallMoves(sys, i);
      assert false;
    }
  }

  // ---- termination -------------------------------------------------------------------

  ghost function CallsLeft(c: X.Connection): nat {
    if |c.acquired| < 4 then 4 - |c.acquired| else 0
  }

  /** Calls still to be made, then the phase and the bytes of the call under way. */
  ghost function ConnMeasure(c: X.Connection): nat {
    8000 * CallsLeft(c) +
    match P.Stage(c)
    case 0 => 0
    case 1 => 1 + P.Work(c)
    case _ => 5000 + P.Work(c)
  }

  ghost function Remaining(conns: seq<X.Connection>): nat {
    if conns == [] then 0 else ConnMeasure(conns[0]) + Remaining(conns[1..])
  }

  lemma {:induction false} RemainingFalls(conns: seq<X.Connection>, i: nat, c': X.Connection)
    requires i < |conns| && ConnMeasure(c') < ConnMeasure(conns[i])
    ensures Remaining(conns[i := c']) < Remaining(conns)
  {
    if i == 0 {
      assert conns[i := c'][1..] == conns[1..];
    } else {
      RemainingFalls(conns[1..], i - 1, c');
      assert conns[i := c'][1..] == conns[1..][i - 1 := c'];
    }
  }

  lemma FreeIsIdle(c: X.Connection)
    requires A.Inv(c) && !c.broken && c.holder.None?
    ensures c.toServer == [] && |c.evaluated| == |c.acquired|
  {
  }

  /** `c'` is `c` when the next call has taken the lock and has sent nothing yet. */
  ghost predicate Began(c: X.Connection, c': X.Connection) {
    && c.holder.None? && c'.holder.Some? && c'.toServer == c.toServer
    && |c'.acquired| == |c.acquired| + 1 && c'.evaluated == c.evaluated
    && c'.holder.value.phase == X.SendingPacket(c'.holder.value.packet)
  }

  lemma AcquireBegins(c: X.Connection, step: X.Step)
    requires X.Enabled(c, step) && step.Acquire?
    ensures Began(c, X.Apply(c, step)) && X.Apply(c, step).holder.value.call == step.call
  {
  }

  lemma BeginningFalls(c: X.Connection, c': X.Connection)
    requires Began(c, c') && |c'.holder.value.call.body| <= 4
    requires c.toServer == [] && |c.evaluated| == |c.acquired| < 4
    ensures ConnMeasure(c') < ConnMeasure(c)
  {
    var h := c'.holder.value;
    assert A.Unsent(h.call, h.phase) == h.packet + h.call.body;
  }

  lemma AcquireFalls(c: X.Connection, step: X.Step)
    requires c.toServer == [] && |c.evaluated| == |c.acquired| < 4
    requires X.Enabled(c, step) && step.Acquire? && |step.call.body| <= 4
    ensures ConnMeasure(X.Apply(c, step)) < ConnMeasure(c)
  {
    AcquireBegins(c, step);
    BeginningFalls(c, X.Apply(c, step));
  }

  lemma SmallReply(v: Verdict, r: Reply)
    requires Answers(v, r) && (v.message.Some? ==> |v.message.value.payload| == 4)
    ensures |A.Pending(X.AfterEval(r))| <= 2068
  {
  }

  lemma EvaluatingIsAsking(c: X.Connection)
    requires A.Inv(c) && !c.broken && c.server.Evaluating?
    ensures c.holder.Some? && c.toClient == [] && |c.evaluated| + 1 == |c.acquired|
  {
  }

  /** What remains before an evaluation. */
  lemma BeforeEvalMeasure(c: X.Connection)
    requires c.holder.Some? && |c.evaluated| < |c.acquired|
    ensures ConnMeasure(c) >= 8000 * CallsLeft(c) + 5000
  {
  }

  /** What remains after it: the bytes of a small reply, none of them sent. */
  lemma AfterEvalMeasure(c: X.Connection, e: X.Evaluation)
    requires c.holder.Some? && |c.evaluated| == |c.acquired| && c.toClient == [] && c.server == X.AfterEval(e.reply)
    requires Answers(e.verdict, e.reply) && (e.verdict.message.Some? ==> |e.verdict.message.value.payload| == 4)
    ensures ConnMeasure(c) <= 8000 * CallsLeft(c) + 4137
  {
    SmallReply(e.verdict, e.reply);
  }

  lemma EvaluatedFalls(c: X.Connection, e: X.Evaluation)
    requires c.holder.Some? && c.toClient == [] && |c.evaluated| + 1 == |c.acquired|
    requires Answers(e.verdict, e.reply) && (e.verdict.message.Some? ==> |e.verdict.message.value.payload| == 4)
    ensures ConnMeasure(A.Evaluated(c, e)) < ConnMeasure(c)
  {
    BeforeEvalMeasure(c);
    AfterEvalMeasure(A.Evaluated(c, e), e);
    assert CallsLeft(A.Evaluated(c, e)) == CallsLeft(c);
  }

  lemma EvalFalls(c: X.Connection, step: X.Step)
    requires c.holder.Some? && c.toClient == [] && |c.evaluated| + 1 == |c.acquired|
    requires X.Enabled(c, step) && step.ServerEval?
    requires step.verdict.message.Some? ==> |step.verdict.message.value.payload| == 4
    ensures ConnMeasure(X.Apply(c, step)) < ConnMeasure(c)
  {
    var e := A.EvalIsEvaluated(c, step);
    EvaluatedFalls(c, e);
  }

  lemma TransferFalls(c: X.Connection, step: X.Step)
    requires P.UnderWay(c) && X.Enabled(c, step) && P.Internal(step) && !step.ServerEval?
    ensures ConnMeasure(X.Apply(c, step)) < ConnMeasure(c)
  {
    P.MeasureFalls(c, step);
    P.StepOrEnd(c, step);
    SameEvaluations(c, step);
  }

  lemma SameEvaluations(c: X.Connection, step: X.Step)
    requires X.Enabled(c, step) && !step.ServerEval? && !step.Acquire?
    ensures X.Apply(c, step).evaluated == c.evaluated && X.Apply(c, step).acquired == c.acquired
  {
  }

  /** Every step of a scripted client on a healthy connection, or of its worker, uses up some
      of what remains to be done. */
  lemma MoveFalls(sys: System, m: Move)
    requires Inv(sys) && Enabled(sys, m) && !m.step.Break?
    requires sys.clients[m.i].Scripted? && !sys.conns[m.i].broken
    ensures ConnMeasure(X.Apply(sys.conns[m.i], m.step)) < ConnMeasure(sys.conns[m.i])
  {
    var c, ex := sys.conns[m.i], sys.example;
    assert ConnInv(ex, sys.clients[m.i], c, sys.app, m.i);
    var v := sys.clients[m.i].values;
    if m.step.Acquire? {
      NextOnScript(ex, v, c, sys.app, m.i);
      ScriptIsAnswerable(ex, v, |c.outcomes|);
      FreeIsIdle(c);
      AcquireFalls(c, m.step);
    } else if m.step.ServerEval? {
      DemandOnScript(ex, v, c, sys.app, m.i);
      ScriptEval(ex, v, sys.app, m.i, |c.evaluated|);
      EvaluatingIsAsking(c);
      EvalFalls(c, m.step);
    } else {
      if c.holder.None? {
        P.IdleIsQuiescent(c, m.step);
        assert false;
      }
      TransferFalls(c, m.step);
    }
  }

  lemma MoveKeepsHealth(sys: System, m: Move)
    requires Healthy(sys) && Enabled(sys, m) && !m.step.Break?
    ensures Healthy(Apply(sys, m))
  {
    var c := sys.conns[m.i];
    assert !X.Apply(c, m.step).broken;
  }

  /** One step of the system leaves less to be done, and everything else as it should be. */
  lemma MoveLeavesLess(sys: System, m: Move)
    requires Inv(sys) && AllScripted(sys.clients) && Healthy(sys) && Enabled(sys, m) && !m.step.Break?
    ensures var sys1 := Apply(sys, m);
      && Inv(sys1) && Healthy(sys1) && sys1.clients == sys.clients && sys1.example == sys.example
      && Remaining(sys1.conns) < Remaining(sys.conns)
  {
    MoveFalls(sys, m);
    RemainingFalls(sys.conns, m.i, X.Apply(sys.conns[m.i], m.step));
    MoveKeepsInv(sys, m);
    MoveKeepsHealth(sys, m);
  }

  // ---- one client among others -------------------------------------------------------

  /** The steps of connection `i` in a run. */
  function MovesOf(ms: seq<Move>, i: nat): nat {
    if ms == [] then 0 else (if ms[0].i == i then 1 else 0) + MovesOf(ms[1..], i)
  }

  lemma MoveOfOther(sys: System, m: Move, i: nat)
    requires Enabled(sys, m) && i < |sys.conns| && m.i != i
    ensures Apply(sys, m).conns[i] == sys.conns[i]
  {
  }

  lemma {:induction false} BrokenForGood(sys: System, ms: seq<Move>, i: nat)
    requires Allowed(sys, ms) && i < |sys.conns| && sys.conns[i].broken
    ensures i < |Run(sys, ms).conns| && Run(sys, ms).conns[i].broken
    decreases |ms|
  {
    if ms != [] {
      var m := ms[0];
      if m.i == i {
        StepKeepsConstants(sys.conns[i], m.step);
      }
      BrokenForGood(Apply(sys, m), ms[1..], i);
    }
  }

  lemma BreakBreaks(sys: System, m: Move)
    requires Enabled(sys, m) && m.step.Break?
    ensures Apply(sys, m).conns[m.i].broken
  {
  }

  /** What a scripted client and its worker do uses up what remained for them to be done,
      whatever all others do in between. */
  lemma {:induction false} ScriptIsBounded(sys: System, ms: seq<Move>, i: nat)
    requires Inv(sys) && Allowed(sys, ms) && i < |sys.conns| && sys.clients[i].Scripted?
    requires i < |Run(sys, ms).conns| && !Run(sys, ms).conns[i].broken
    ensures MovesOf(ms, i) + ConnMeasure(Run(sys, ms).conns[i]) <= ConnMeasure(sys.conns[i])
    decreases |ms|
  {
    if ms != [] {
      var m, sys1 := ms[0], Apply(sys, ms[0]);
      if sys1.conns[i].broken {
        BrokenForGood(sys1, ms[1..], i);
        assert false;
      }
      MoveKeepsInv(sys, m);
      OneMoveOfScript(sys, m, i);
      ScriptIsBounded(sys1, ms[1..], i);
    }
  }

  lemma OneMoveOfScript(sys: System, m: Move, i: nat)
    requires Inv(sys) && Enabled(sys, m) && i < |sys.conns| && sys.clients[i].Scripted? && !Apply(sys, m).conns[i].broken
    ensures (if m.i == i then 1 else 0) + ConnMeasure(Apply(sys, m).conns[i]) <= ConnMeasure(sys.conns[i])
  {
    if m.i != i {
      MoveOfOther(sys, m, i);
    } else if m.step.Break? {
      BreakBreaks(sys, m);
    } else {
      if sys.conns[i].broken {
        StepKeepsConstants(sys.conns[i], m.step);
        assert false;
      }
      MoveFalls(sys, m);
    }
  }

  // ---- all clients together ----------------------------------------------------------

  lemma {:induction false} RunIsBounded(sys: System, ms: seq<Move>)
    requires Inv(sys) && AllScripted(sys.clients) && Healthy(sys) && Allowed(sys, ms)
    requires forall k :: 0 <= k < |ms| ==> !ms[k].step.Break?
    ensures Healthy(Run(sys, ms))
    ensures |ms| + Remaining(Run(sys, ms).conns) <= Remaining(sys.conns)
    decreases |ms|
  {
    if ms != [] {
      MoveLeavesLess(sys, ms[0]);
      RunIsBounded(Apply(sys, ms[0]), ms[1..]);
    }
  }

  /** A run without a broken connection that cannot be continued. */
  ghost predicate ToTheEnd(sys: System, ms: seq<Move>) {
    && Allowed(sys, ms)
    && (forall k :: 0 <= k < |ms| ==> !ms[k].step.Break?)
    && Quiescent(Run(sys, ms))
  }

  lemma ToTheEndFrom(sys: System, m: Move, ms: seq<Move>)
    requires Enabled(sys, m) && !m.step.Break? && ToTheEnd(Apply(sys, m), ms)
    ensures ToTheEnd(sys, [m] + ms)
  {
    assert ([m] + ms)[1..] == ms;
  }

  lemma SomeMove(sys: System) returns (m: Move)
    requires Inv(sys) && AllScripted(sys.clients) && Healthy(sys) && !Quiescent(sys)
    ensures Enabled(sys, m) && !m.step.Break?
    ensures var sys1 := Apply(sys, m);
      Inv(sys1) && Healthy(sys1) && sys1.clients == sys.clients && Remaining(sys1.conns) < Remaining(sys.conns)
  {
    m :| Enabled(sys, m) && !m.step.Break?;
    MoveLeavesLess(sys, m);
  }

  /** From every such state some run goes on to a state in which nothing more can happen. */
  lemma {:induction false} RunToTheEnd(sys: System) returns (ms: seq<Move>)
    requires Inv(sys) && AllScripted(sys.clients) && Healthy(sys)
    ensures ToTheEnd(sys, ms)
    decreases Remaining(sys.conns)
  {
    if Quiescent(sys) {
      ms := [];
    } else {
      var m := SomeMove(sys);
      var rest := RunToTheEnd(Apply(sys, m));
      ms := [m] + rest;
      ToTheEndFrom(sys, m, rest);
    }
  }

  lemma {:induction false} RemainingAtBoot(conns: seq<X.Connection>)
    requires forall i :: 0 <= i < |conns| ==> conns[i].acquired == [] && conns[i].holder.None?
    ensures Remaining(conns) == 32000 * |conns|
  {
    if conns != [] {
      RemainingAtBoot(conns[1..]);
    }
  }

  // ---- the count of the client program -----------------------------------------------

  /** `args.result`: the received buffer read as a number. */
  function ResultOf(c: X.Connection): uint32
    requires |c.outcomes| > 3
  {
    match c.outcomes[3]
    case Accepted(data) => ReadU32(data)
    case _ => 0
  }

  function SumOf(results: seq<uint32>): nat {
    if results == [] then 0 else SumOf(results[..|results| - 1]) + results[|results| - 1]
  }

  /** The loop of `run` that adds up the results in a 32-bit counter. */
  method CountVerified(results: seq<uint32>) returns (verify: uint32)
    ensures verify == SumOf(results) % U32
  {
    verify := 0;
    for i := 0 to |results|
      invariant verify == SumOf(results[..i]) % U32
    {
      assert results[..i + 1][..i] == results[..i];
      verify := (verify + results[i]) % U32;
    }
    assert results[..|results|] == results;
  }

  /** When the results are comparisons, the count equals the number of clients exactly if
      every comparison held. */
  lemma {:induction false} CountMeansAll(results: seq<uint32>)
    requires forall i :: 0 <= i < |results| ==> results[i] <= 1
    ensures SumOf(results) <= |results|
    ensures SumOf(results) == |results| <==> forall i :: 0 <= i < |results| ==> results[i] == 1
  {
    if results != [] {
      CountMeansAll(results[..|results| - 1]);
    }
  }

  // ---- the theorem -------------------------------------------------------------------

  ghost predicate AllAnswered(sys: System)
    requires |sys.clients| == |sys.conns| && AllScripted(sys.clients)
  {
    forall i :: 0 <= i < |sys.conns| ==>
      && |sys.conns[i].outcomes| == 4
      && ResultOf(sys.conns[i]) == ResultFor(sys.example, sys.clients[i].values)
  }

  lemma AnsweredWhenDone(ex: Example, clients: seq<Client>, template: Record, ms: seq<Move>, i: nat)
    requires Allowed(Boot(ex, clients, template), ms) && i < |clients| && clients[i].Scripted?
    ensures var sys := Run(Boot(ex, clients, template), ms);
      && i < |sys.conns|
      && (!sys.conns[i].broken && |sys.conns[i].outcomes| >= 4 ==>
            |sys.conns[i].outcomes| == 4 && ResultOf(sys.conns[i]) == ResultFor(ex, clients[i].values))
  {
    ScriptNeverRejected(ex, clients, template, ms, i);
    ReadBack(ResultFor(ex, clients[i].values));
  }

  /** One client beside any others, free or scripted, with broken connections or not: while its
      own connection is not broken, it and its worker take at most 32000 steps, and when they can
      take no more it has made its four calls and holds the right result. */
  lemma EveryScriptEndsWell(ex: Example, clients: seq<Client>, template: Record, ms: seq<Move>, i: nat)
    requires Allowed(Boot(ex, clients, template), ms)
    requires i < |clients| && clients[i].Scripted?
    ensures var sys := Run(Boot(ex, clients, template), ms);
      && i < |sys.conns|
      && (!sys.conns[i].broken ==>
            && MovesOf(ms, i) <= 32000
            && (Quiet(sys, i) ==>
                  |sys.conns[i].outcomes| == 4 && ResultOf(sys.conns[i]) == ResultFor(ex, clients[i].values)))
  {
    var boot := Boot(ex, clients, template);
    BootInv(ex, clients, template);
    RunKeepsInv(boot, ms);
    AnsweredWhenDone(ex, clients, template, ms, i);
    var sys := Run(boot, ms);
    if !sys.conns[i].broken {
      ScriptIsBounded(boot, ms, i);
      if Quiet(sys, i) {
        QuietMeansDone(sys, i);
      }
    }
  }

  /** For any number of clients with any values, and any interleaving of their calls, of the
      workers' evaluations and of the chunks on all sockets: a run without a broken connection
      has at most 32000 steps per client, and if it cannot be continued every client has made
      its four calls and holds the right result. */
  lemma EveryRunEndsWell(ex: Example, clients: seq<Client>, template: Record, ms: seq<Move>)
    requires AllScripted(clients) && Allowed(Boot(ex, clients, template), ms)
    requires forall k :: 0 <= k < |ms| ==> !ms[k].step.Break?
    ensures var sys := Run(Boot(ex, clients, template), ms);
      && |ms| <= 32000 * |clients|
      && |sys.conns| == |clients| && sys.clients == clients && sys.example == ex
      && (Quiescent(sys) ==> AllAnswered(sys))
  {
    var boot := Boot(ex, clients, template);
    BootInv(ex, clients, template);
    RemainingAtBoot(boot.conns);
    RunIsBounded(boot, ms);
    RunKeepsInv(boot, ms);
    var sys := Run(boot, ms);
    if Quiescent(sys) {
      forall i | 0 <= i < |clients|
        ensures |sys.conns[i].outcomes| == 4 && ResultOf(sys.conns[i]) == ResultFor(ex, clients[i].values)
      {
        QuietMeansDone(sys, i);
        AnsweredWhenDone(ex, clients, template, ms, i);
      }
    }
  }

  /** The results that the client program collects after joining all threads. */
  ghost function Results(conns: seq<X.Connection>): (rs: seq<uint32>)
    ensures |rs| == |conns|
    ensures forall i :: 0 <= i < |conns| && |conns[i].outcomes| > 3 ==> rs[i] == ResultOf(conns[i])
  {
    seq(|conns|, i requires 0 <= i < |conns| => if |conns[i].outcomes| > 3 then ResultOf(conns[i]) else 0)
  }

  lemma AllOnes(sys: System)
    requires |sys.clients| == |sys.conns| < U32 && AllScripted(sys.clients) && AllAnswered(sys)
    requires sys.example.MultiClientExample?
    ensures SumOf(Results(sys.conns)) % U32 == |sys.conns|
  {
    var rs := Results(sys.conns);
    assert forall i :: 0 <= i < |sys.conns| ==> |sys.conns[i].outcomes| > 3 && rs[i] == ResultOf(sys.conns[i]);
    CountMeansAll(rs);
  }

  /** `sys` is where some run of the example's clients without a broken connection ends. */
  ghost predicate EndOfRun(ex: Example, clients: seq<Client>, template: Record, ms: seq<Move>, sys: System) {
    ToTheEnd(Boot(ex, clients, template), ms) && sys == Run(Boot(ex, clients, template), ms)
  }

  lemma EndIsAnswered(ex: Example, clients: seq<Client>, template: Record, ms: seq<Move>, sys: System)
    requires AllScripted(clients) && EndOfRun(ex, clients, template, ms, sys)
    ensures |sys.conns| == |clients| && sys.clients == clients && sys.example == ex && AllAnswered(sys)
  {
    EveryRunEndsWell(ex, clients, template, ms);
  }

  /** The multi-client program prints "True": its 32-bit count of verified clients equals the
      number of threads. */
  lemma VerifyEqualsThreads(ex: Example, clients: seq<Client>, template: Record, ms: seq<Move>, sys: System)
    requires ex.MultiClientExample? && AllScripted(clients) && |clients| < U32
    requires EndOfRun(ex, clients, template, ms, sys)
    ensures SumOf(Results(sys.conns)) % U32 == |clients|
  {
    EndIsAnswered(ex, clients, template, ms, sys);
    AllOnes(sys);
  }

  /** There is such a run for any number of clients. */
  lemma EndExists(ex: Example, clients: seq<Client>, template: Record) returns (ms: seq<Move>)
    requires AllScripted(clients)
    ensures Allowed(Boot(ex, clients, template), ms)
    ensures EndOfRun(ex, clients, template, ms, Run(Boot(ex, clients, template), ms))
  {
    BootInv(ex, clients, template);
    ms := RunToTheEnd(Boot(ex, clients, template));
  }
}
