/** The whole example: N connections, each with its client, its byte streams and its worker,
    and the one application state that all workers evaluate on. A client either runs the
    script of the example's client program or is free to make any valid call at any time,
    from any number of threads. */
module Deployment {
  import opened Bytes
  import opened Packets
  import opened Protocol
  import opened Application
  import X = Exchange
  import A = Alignment
  import opened Retry

  datatype Example = MultiClientExample | AddServerExample
  datatype Values = Values(a: uint32, b: uint32)
  datatype Client = Free | Scripted(values: Values)

  datatype System = System(example: Example, clients: seq<Client>, conns: seq<X.Connection>, app: App)

  /** A step of connection `i`. */
  datatype Move = Move(i: nat, step: X.Step)

  const DEFAULT_INTERVAL: uint32 := 1000000
  const INFINITE_TIME: uint32 := 0xFFFF_FFFF

  /** Attempts of a blocking call with the default interval and timeout. */
  const MAX_ATTEMPTS: nat := 0xFFFF_FFFF

  lemma DefaultAttempts()
    ensures RetryLimit(INFINITE_TIME, DEFAULT_INTERVAL) == MAX_ATTEMPTS
  {
  }

  function Callbacks(ex: Example): map<uint64, Handler> {
    match ex case MultiClientExample => MultiClient() case AddServerExample => AddServer()
  }

  function Total(v: Values): uint32 {
    (v.a + v.b) % U32
  }

  // ---- the client program ------------------------------------------------------------

  /** The four calls of the client program, in order. */
  function Script(ex: Example, v: Values): (calls: seq<Call>)
    ensures |calls| == 4
  {
    [ Call(SendData, VALUE_A, EncodeU32(v.a)),
      Call(SendData, VALUE_B, EncodeU32(v.b)),
      Call(SendRequest, COMPUTE, []),
      match ex
      case MultiClientExample => Call(SendRecvData, COMPARE_RESULT, EncodeU32(Total(v)))
      case AddServerExample => Call(RecvData, DOWNLOAD_RESULT, []) ]
  }

  /** The position of the program after the given outcomes: the blocking methods repeat a
      rejected call, a swallowed socket error counts as done, and the program is abandoned
      (None) on a Failure or when the attempts are used up. */
  datatype Place = Place(index: nat, rejections: nat)

  function PlaceAfter(outcomes: seq<Outcome>): Option<Place> {
    if outcomes == [] then Some(Place(0, 0))
    else
      match PlaceAfter(outcomes[..|outcomes| - 1])
      case None => None
      case Some(p) => NextPlace(p, outcomes[|outcomes| - 1])
  }

  function NextPlace(p: Place, o: Outcome): Option<Place> {
    match o
    case Accepted(_) => Some(Place(p.index + 1, 0))
    case SocketError => Some(Place(p.index + 1, 0))
    case Rejected => if p.rejections + 1 < MAX_ATTEMPTS then Some(Place(p.index, p.rejections + 1)) else None
    case Failure => None
  }

  function NextCall(ex: Example, v: Values, outcomes: seq<Outcome>): Option<Call> {
    match PlaceAfter(outcomes)
    case None => None
    case Some(p) => if p.index < 4 then Some(Script(ex, v)[p.index]) else None
  }

  // ---- steps of the whole ------------------------------------------------------------

  function Boot(ex: Example, clients: seq<Client>, template: Record): System {
    System(ex, clients, seq(|clients|, _ => X.Fresh(Implemented(Callbacks(ex)))), Start(Callbacks(ex), template))
  }

  function DemandOf(sys: System, i: nat): Demand
    requires i < |sys.conns| && sys.conns[i].server.Evaluating?
  {
    Demand(i, Code(sys.conns[i].server.packet), sys.conns[i].server.body)
  }

  ghost predicate Enabled(sys: System, m: Move) {
    && m.i < |sys.conns| == |sys.clients|
    && X.Enabled(sys.conns[m.i], m.step)
    && (m.step.Acquire? && sys.clients[m.i].Scripted? ==>
          && m.step.thread == 0
          && NextCall(sys.example, sys.clients[m.i].values, sys.conns[m.i].outcomes) == Some(m.step.call))
    && (m.step.ServerEval? ==> m.step.verdict == VerdictOn(sys.app, DemandOf(sys, m.i)))
  }

  ghost function Apply(sys: System, m: Move): System
    requires Enabled(sys, m)
  {
    sys.(conns := sys.conns[m.i := X.Apply(sys.conns[m.i], m.step)],
         app := if m.step.ServerEval? then After(sys.app, DemandOf(sys, m.i)) else sys.app)
  }

  ghost predicate Allowed(sys: System, ms: seq<Move>)
    decreases |ms|
  {
    ms == [] || (Enabled(sys, ms[0]) && Allowed(Apply(sys, ms[0]), ms[1..]))
  }

  ghost function Run(sys: System, ms: seq<Move>): System
    requires Allowed(sys, ms)
    decreases |ms|
  {
    if ms == [] then sys else Run(Apply(sys, ms[0]), ms[1..])
  }

  // ---- what the script is answered ---------------------------------------------------

  function ResultFor(ex: Example, v: Values): uint32 {
    match ex case MultiClientExample => 1 case AddServerExample => Total(v)
  }

  function ScriptVerdict(ex: Example, v: Values, k: nat): Verdict {
    Verdict(true, if k == 3 then Some(ResultMessage(ResultFor(ex, v))) else None)
  }

  /** What the application state holds for connection `i` after `e` evaluations of its script,
      whatever all other connections have done in between. */
  ghost predicate AppAt(app: App, i: int, v: Values, e: nat) {
    var r := RecordOf(app, i);
    && (e == 0 ==> KindOf(app, i) == Init)
    && (e >= 1 ==> app.sawA && r.valueA == v.a)
    && (e >= 2 ==> r.valueB == v.b && KindOf(app, i) != Init)
    && (e >= 3 ==> KindOf(app, i) == Computed && r.sum == Total(v))
  }

  /** The first four bytes of a body are what a callback reads, whatever follows them. */
  lemma ReadFirst(n: uint32, rest: seq<byte>)
    ensures ReadU32(EncodeU32(n) + rest) == n
  {
    assert (EncodeU32(n) + rest)[..4] == EncodeU32(n);
  }

  lemma ReadBack(n: uint32)
    ensures ReadU32(EncodeU32(n)) == n
  {
    ReadFirst(n, []);
    assert EncodeU32(n) + [] == EncodeU32(n);
  }

  /** A free client and all workers may take any step that their connection allows, an evaluation
      with the verdict of the application. */
  lemma FreeMayDoAnything(sys: System, i: nat, step: X.Step)
    requires i < |sys.conns| == |sys.clients| && X.Enabled(sys.conns[i], step)
    requires sys.clients[i].Free? || !step.Acquire?
    requires step.ServerEval? ==> step.verdict == VerdictOn(sys.app, DemandOf(sys, i))
    ensures Enabled(sys, Move(i, step))
  {
  }

  lemma ScriptDispatch(ex: Example, v: Values, k: nat)
    requires k < 4
    ensures Dispatch(Callbacks(ex), Script(ex, v)[k].code) == Some(
      if k == 0 then OnValueA else if k == 1 then OnValueB else if k == 2 then OnCompute
      else if ex.MultiClientExample? then OnCompareResult else OnDownloadResult)
  {
  }

  lemma EvalA(app: App, i: int, v: Values, d: Demand)
    requires d.id == i && Dispatch(app.funcmap, d.code) == Some(OnValueA) && d.body == EncodeU32(v.a)
    requires AppAt(app, i, v, 0)
    ensures VerdictOn(app, d) == Verdict(true, None) && AppAt(After(app, d), i, v, 1)
  {
    ReadBack(v.a);
  }

  lemma EvalB(app: App, i: int, v: Values, d: Demand)
    requires d.id == i && Dispatch(app.funcmap, d.code) == Some(OnValueB) && d.body == EncodeU32(v.b)
    requires AppAt(app, i, v, 1)
    ensures VerdictOn(app, d) == Verdict(true, None) && AppAt(After(app, d), i, v, 2)
  {
    ReadBack(v.b);
  }

  lemma EvalCompute(app: App, i: int, v: Values, d: Demand)
    requires d.id == i && Dispatch(app.funcmap, d.code) == Some(OnCompute)
    requires AppAt(app, i, v, 2)
    ensures VerdictOn(app, d) == Verdict(true, None) && AppAt(After(app, d), i, v, 3)
  {
  }

  lemma EvalResult(ex: Example, app: App, i: int, v: Values, d: Demand)
    requires d.id == i && AppAt(app, i, v, 3)
    requires match ex
             case MultiClientExample =>
               Dispatch(app.funcmap, d.code) == Some(OnCompareResult) && d.body == EncodeU32(Total(v))
             case AddServerExample => Dispatch(app.funcmap, d.code) == Some(OnDownloadResult)
    ensures VerdictOn(app, d) == ScriptVerdict(ex, v, 3) && AppAt(After(app, d), i, v, 4)
  {
    ReadBack(Total(v));
  }

  /** The heart of the multi-client example: the k-th request of the script is accepted even
      though all connections start on one aliased `StateInit`. */
  lemma ScriptEval(ex: Example, v: Values, app: App, i: int, e: nat)
    requires e < 4 && app.funcmap == Callbacks(ex) && AppAt(app, i, v, e)
    ensures var d := Demand(i, Script(ex, v)[e].code, Script(ex, v)[e].body);
      VerdictOn(app, d) == ScriptVerdict(ex, v, e) && AppAt(After(app, d), i, v, e + 1)
  {
    ScriptDispatch(ex, v, e);
    var d := Demand(i, Script(ex, v)[e].code, Script(ex, v)[e].body);
    if e == 0 {
      EvalA(app, i, v, d);
    } else if e == 1 {
      EvalB(app, i, v, d);
    } else if e == 2 {
      EvalCompute(app, i, v, d);
    } else {
      EvalResult(ex, app, i, v, d);
    }
  }

  // ---- the invariant -----------------------------------------------------------------

  ghost predicate OnScript(ex: Example, v: Values, c: X.Connection, app: App, i: int) {
    && |c.acquired| <= 4
    && (forall k :: 0 <= k < |c.acquired| ==> c.acquired[k] == X.Ticket(0, Script(ex, v)[k]))
    && |c.evaluated| <= |c.acquired|
    && (forall k :: 0 <= k < |c.evaluated| ==> c.evaluated[k].verdict == ScriptVerdict(ex, v, k))
    && AppAt(app, i, v, |c.evaluated|)
  }

  ghost predicate ConnInv(ex: Example, client: Client, c: X.Connection, app: App, i: int) {
    && A.Inv(c) && c.registered == Implemented(Callbacks(ex))
    && (client.Scripted? && !c.broken ==> OnScript(ex, client.values, c, app, i))
  }

  ghost predicate Inv(sys: System) {
    && |sys.clients| == |sys.conns|
    && sys.app.funcmap == Callbacks(sys.example)
    && forall i :: 0 <= i < |sys.conns| ==> ConnInv(sys.example, sys.clients[i], sys.conns[i], sys.app, i)
  }

  /** While nothing broke, every ended call of the script ended well. */
  lemma OutcomesOnScript(ex: Example, v: Values, c: X.Connection, app: App, i: int)
    requires A.Inv(c) && !c.broken && OnScript(ex, v, c, app, i)
    ensures |c.outcomes| <= |c.evaluated|
    ensures forall k :: 0 <= k < |c.outcomes| ==>
      c.outcomes[k] == Accepted(if k == 3 then EncodeU32(ResultFor(ex, v)) else [])
  {
  }

  lemma {:induction false} PlaceOfAccepted(outcomes: seq<Outcome>)
    requires forall k :: 0 <= k < |outcomes| ==> outcomes[k].Accepted?
    ensures PlaceAfter(outcomes) == Some(Place(|outcomes|, 0))
  {
    if outcomes != [] {
      PlaceOfAccepted(outcomes[..|outcomes| - 1]);
    }
  }

  lemma NextOnScript(ex: Example, v: Values, c: X.Connection, app: App, i: int)
    requires A.Inv(c) && !c.broken && OnScript(ex, v, c, app, i)
    ensures NextCall(ex, v, c.outcomes) == if |c.outcomes| < 4 then Some(Script(ex, v)[|c.outcomes|]) else None
  {
    OutcomesOnScript(ex, v, c, app, i);
    PlaceOfAccepted(c.outcomes);
  }

  lemma OneMoreTicket(ex: Example, v: Values, c: X.Connection, app: App, i: int, c': X.Connection, ticket: X.Ticket)
    requires OnScript(ex, v, c, app, i) && |c.acquired| < 4
    requires c'.evaluated == c.evaluated && c'.acquired == c.acquired + [ticket]
    requires ticket == X.Ticket(0, Script(ex, v)[|c.acquired|])
    ensures OnScript(ex, v, c', app, i)
  {
  }

  lemma AcquireOnScript(ex: Example, v: Values, c: X.Connection, app: App, i: int, step: X.Step)
    requires A.Inv(c) && !c.broken && OnScript(ex, v, c, app, i)
    requires X.Enabled(c, step) && step.Acquire? && step.thread == 0
    requires NextCall(ex, v, c.outcomes) == Some(step.call)
    ensures OnScript(ex, v, X.Apply(c, step), app, i)
  {
    NextOnScript(ex, v, c, app, i);
    OneMoreTicket(ex, v, c, app, i, X.Apply(c, step), X.Ticket(step.thread, step.call));
  }

  /** The request under evaluation is the script's next one. */
  lemma DemandOnScript(ex: Example, v: Values, c: X.Connection, app: App, i: int)
    requires A.Inv(c) && !c.broken && OnScript(ex, v, c, app, i) && c.server.Evaluating?
    ensures var e := |c.evaluated|;
      && e < |c.acquired|
      && Code(c.server.packet) == Script(ex, v)[e].code && c.server.body == Script(ex, v)[e].body
  {
    assert c.acquired[|c.evaluated|] == X.Ticket(0, Script(ex, v)[|c.evaluated|]);
  }

  lemma OneMoreOnScript(ex: Example, v: Values, c: X.Connection, app: App, i: int, e: X.Evaluation,
                        c': X.Connection, app': App)
    requires OnScript(ex, v, c, app, i) && |c.evaluated| < |c.acquired|
    requires c'.acquired == c.acquired && c'.evaluated == c.evaluated + [e]
    requires e.verdict == ScriptVerdict(ex, v, |c.evaluated|) && AppAt(app', i, v, |c.evaluated| + 1)
    ensures OnScript(ex, v, c', app', i)
  {
  }

  lemma EvalOnScript(ex: Example, v: Values, c: X.Connection, app: App, i: int, step: X.Step)
    requires A.Inv(c) && !c.broken && OnScript(ex, v, c, app, i) && app.funcmap == Callbacks(ex)
    requires X.Enabled(c, step) && step.ServerEval?
    requires step.verdict == VerdictOn(app, Demand(i, Code(c.server.packet), c.server.body))
    ensures OnScript(ex, v, X.Apply(c, step), After(app, Demand(i, Code(c.server.packet), c.server.body)), i)
  {
    var n := |c.evaluated|;
    DemandOnScript(ex, v, c, app, i);
    ScriptEval(ex, v, app, i, n);
    var c' := X.Apply(c, step);
    OneMoreOnScript(ex, v, c, app, i, c'.evaluated[n], c', After(app, Demand(i, Code(c.server.packet), c.server.body)));
  }

  lemma TransferOnScript(ex: Example, v: Values, c: X.Connection, app: App, i: int, step: X.Step)
    requires OnScript(ex, v, c, app, i) && X.Enabled(c, step) && !step.Acquire? && !step.ServerEval?
    ensures OnScript(ex, v, X.Apply(c, step), app, i)
  {
  }

  ghost function AppAfter(sys: System, m: Move): App
    requires Enabled(sys, m)
  {
    if m.step.ServerEval? then After(sys.app, DemandOf(sys, m.i)) else sys.app
  }

  /** The connection that moves. */
  lemma MoverKeeps(sys: System, m: Move)
    requires Inv(sys) && Enabled(sys, m)
    ensures ConnInv(sys.example, sys.clients[m.i], X.Apply(sys.conns[m.i], m.step), AppAfter(sys, m), m.i)
  {
    var ex, c, client := sys.example, sys.conns[m.i], sys.clients[m.i];
    A.StepKeepsInv(c, m.step);
    assert ConnInv(ex, client, c, sys.app, m.i);
    if client.Scripted? && !c.broken {
      if m.step.Acquire? {
        AcquireOnScript(ex, client.values, c, sys.app, m.i, m.step);
      } else if m.step.ServerEval? {
        EvalOnScript(ex, client.values, c, sys.app, m.i, m.step);
      } else {
        TransferOnScript(ex, client.values, c, sys.app, m.i, m.step);
      }
    }
    StepKeepsConstants(c, m.step);
  }

  lemma StepKeepsConstants(c: X.Connection, step: X.Step)
    requires X.Enabled(c, step)
    ensures X.Apply(c, step).registered == c.registered
    ensures c.broken ==> X.Apply(c, step).broken
  {
  }

  /** A connection that does not move keeps what it has, whoever else is evaluated. */
  lemma BystanderKeeps(ex: Example, client: Client, c: X.Connection, app: App, i: int, d: Demand)
    requires ConnInv(ex, client, c, app, i) && d.id != i
    ensures ConnInv(ex, client, c, After(app, d), i)
  {
    OthersUntouched(app, d, i);
  }

  lemma EvalKeepsCallbacks(app: App, d: Demand)
    ensures After(app, d).funcmap == app.funcmap
  {
  }

  lemma MoveKeepsInv(sys: System, m: Move)
    requires Inv(sys) && Enabled(sys, m)
    ensures Inv(Apply(sys, m))
  {
    var app' := AppAfter(sys, m);
    MoverKeeps(sys, m);
    var c' := X.Apply(sys.conns[m.i], m.step);
    var conns' := sys.conns[m.i := c'];
    forall i | 0 <= i < |conns'|
      ensures ConnInv(sys.example, sys.clients[i], conns'[i], app', i)
    {
      if i != m.i && m.step.ServerEval? {
        BystanderKeeps(sys.example, sys.clients[i], sys.conns[i], sys.app, i, DemandOf(sys, m.i));
      }
    }
    if m.step.ServerEval? {
      EvalKeepsCallbacks(sys.app, DemandOf(sys, m.i));
    }
    assert Apply(sys, m) == System(sys.example, sys.clients, conns', app');
  }

  lemma BootInv(ex: Example, clients: seq<Client>, template: Record)
    ensures Inv(Boot(ex, clients, template))
  {
  }

  lemma {:induction false} RunKeepsInv(sys: System, ms: seq<Move>)
    requires Inv(sys) && Allowed(sys, ms)
    ensures Inv(Run(sys, ms))
    ensures Run(sys, ms).example == sys.example && Run(sys, ms).clients == sys.clients
    decreases |ms|
  {
    if ms != [] {
      MoveKeepsInv(sys, ms[0]);
      RunKeepsInv(Apply(sys, ms[0]), ms[1..]);
    }
  }

  // ---- safety ------------------------------------------------------------------------

  /** In every reachable state and for every interleaving, with any number of other
      connections doing whatever they like: a client that runs the script and whose
      connection is not broken has never been rejected, and if it has asked for the result it
      got the right answer (a comparison that holds, respectively the sum). */
  lemma ScriptNeverRejected(ex: Example, clients: seq<Client>, template: Record, ms: seq<Move>, i: nat)
    requires Allowed(Boot(ex, clients, template), ms)
    requires i < |clients| && clients[i].Scripted?
    ensures var sys := Run(Boot(ex, clients, template), ms);
      && i < |sys.conns|
      && (!sys.conns[i].broken ==>
            && |sys.conns[i].outcomes| <= 4
            && forall k :: 0 <= k < |sys.conns[i].outcomes| ==>
                 sys.conns[i].outcomes[k] ==
                   Accepted(if k == 3 then EncodeU32(ResultFor(ex, clients[i].values)) else []))
  {
    var boot := Boot(ex, clients, template);
    BootInv(ex, clients, template);
    RunKeepsInv(boot, ms);
    var sys := Run(boot, ms);
    var c := sys.conns[i];
    assert ConnInv(ex, clients[i], c, sys.app, i);
    if !c.broken {
      OutcomesOnScript(ex, clients[i].values, c, sys.app, i);
    }
  }
}
