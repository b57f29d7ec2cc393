/** What clients are told in the composed system. The workers of all connections evaluate on one
    application; the requests that they evaluate, in the order in which they do, decide every
    outcome that any client ever gets, scripted or not. */
module Outcomes {
  import opened Bytes
  import opened Packets
  import opened Protocol
  import opened Application
  import opened Deployment
  import X = Exchange
  import A = Alignment

  // ---- the evaluations of a run ------------------------------------------------------

  /** The requests that a step has evaluated: one or none. */
  ghost function Evaluates(sys: System, m: Move): seq<Demand>
    requires Enabled(sys, m)
  {
    if m.step.ServerEval? then [DemandOf(sys, m.i)] else []
  }

  /** The requests that a run evaluates, on all connections. */
  ghost function Evaluations(sys: System, ms: seq<Move>): seq<Demand>
    requires Allowed(sys, ms)
    decreases |ms|
  {
    if ms == [] then [] else Evaluates(sys, ms[0]) + Evaluations(Apply(sys, ms[0]), ms[1..])
  }

  /** The requests of one connection among them, with the verdicts on them. */
  function Own(app: App, ds: seq<Demand>, i: int): seq<Judgement> {
    if ds == [] then []
    else
      var init, last := ds[..|ds| - 1], ds[|ds| - 1];
      Own(app, init, i) + (if last.id == i then [Judgement(last, VerdictOn(AfterAll(app, init), last))] else [])
  }

  lemma Snoc(app: App, ds: seq<Demand>, d: Demand, i: int)
    ensures AfterAll(app, ds + [d]) == After(AfterAll(app, ds), d)
    ensures Own(app, ds + [d], i) ==
            Own(app, ds, i) + (if d.id == i then [Judgement(d, VerdictOn(AfterAll(app, ds), d))] else [])
  {
    assert (ds + [d])[..|ds|] == ds;
  }

  // ---- the connection's record of them -----------------------------------------------

  /** A connection's own account of its evaluations is the application's. */
  ghost predicate Accounted(c: X.Connection, own: seq<Judgement>) {
    && |c.evaluated| == |own|
    && forall k :: 0 <= k < |own| ==>
         && c.evaluated[k].call.code == own[k].demand.code && c.evaluated[k].call.body == own[k].demand.body
         && c.evaluated[k].verdict == own[k].verdict
  }

  /** The requests `ds` explain the state of the application and of all connections. */
  ghost predicate Explained(sys: System, app0: App, ds: seq<Demand>) {
    && sys.app == AfterAll(app0, ds)
    && forall i :: 0 <= i < |sys.conns| ==> Accounted(sys.conns[i], Own(app0, ds, i))
  }

  lemma OneMoreAccounted(c: X.Connection, c': X.Connection, e: X.Evaluation, own: seq<Judgement>, j: Judgement)
    requires Accounted(c, own) && c'.evaluated == c.evaluated + [e]
    requires e.call.code == j.demand.code && e.call.body == j.demand.body && e.verdict == j.verdict
    ensures Accounted(c', own + [j])
  {
  }

  lemma EvaluatedAccounted(c: X.Connection, step: X.Step, own: seq<Judgement>, j: Judgement)
    requires X.Enabled(c, step) && step.ServerEval? && Accounted(c, own)
    requires j.demand.code == Code(c.server.packet) && j.demand.body == c.server.body && j.verdict == step.verdict
    ensures Accounted(X.Apply(c, step), own + [j])
  {
    var e := A.EvalIsEvaluated(c, step);
    OneMoreAccounted(c, A.Evaluated(c, e), e, own, j);
  }

  lemma OthersAccounted(c: X.Connection, step: X.Step, own: seq<Judgement>)
    requires X.Enabled(c, step) && !step.ServerEval? && Accounted(c, own)
    ensures Accounted(X.Apply(c, step), own)
  {
  }

  /** An evaluation on connection `m.i` is accounted for on every connection `i`. */
  lemma EvalExplained(sys: System, m: Move, app0: App, ds: seq<Demand>, i: nat)
    requires Enabled(sys, m) && m.step.ServerEval? && Explained(sys, app0, ds) && i < |sys.conns|
    ensures Accounted(Apply(sys, m).conns[i], Own(app0, ds + [DemandOf(sys, m.i)], i))
  {
    var d := DemandOf(sys, m.i);
    Snoc(app0, ds, d, i);
    if i == m.i {
      EvaluatedAccounted(sys.conns[i], m.step, Own(app0, ds, i), Judgement(d, m.step.verdict));
    }
  }

  lemma MoveExplained(sys: System, m: Move, app0: App, ds: seq<Demand>)
    requires Enabled(sys, m) && Explained(sys, app0, ds)
    ensures Explained(Apply(sys, m), app0, ds + Evaluates(sys, m))
  {
    var sys1 := Apply(sys, m);
    if m.step.ServerEval? {
      var d := DemandOf(sys, m.i);
      forall i | 0 <= i < |sys1.conns| ensures Accounted(sys1.conns[i], Own(app0, ds + [d], i)) {
        EvalExplained(sys, m, app0, ds, i);
      }
      Snoc(app0, ds, d, m.i);
    } else {
      assert ds + [] == ds;
      OthersAccounted(sys.conns[m.i], m.step, Own(app0, ds, m.i));
    }
  }

  lemma {:induction false} RunExplained(sys: System, ms: seq<Move>, app0: App, ds: seq<Demand>)
    requires Allowed(sys, ms) && Explained(sys, app0, ds)
    ensures Explained(Run(sys, ms), app0, ds + Evaluations(sys, ms))
    decreases |ms|
  {
    if ms == [] {
      assert ds + [] == ds;
    } else {
      var ds1, others := Evaluates(sys, ms[0]), Evaluations(Apply(sys, ms[0]), ms[1..]);
      MoveExplained(sys, ms[0], app0, ds);
      RunExplained(Apply(sys, ms[0]), ms[1..], app0, ds + ds1);
      Regroup(ds, ds1, others);
    }
  }

  // ---- the k-th request of a connection ----------------------------------------------

  /** Request `j` is the one of connection `i` that has `k` others of that connection before it. */
  ghost predicate KthOwn(app: App, ds: seq<Demand>, i: int, k: nat, j: nat) {
    j < |ds| && ds[j].id == i && |Own(app, ds[..j], i)| == k
  }

  /** The k-th own judgement is on the k-th own request, in the state it was made in. */
  lemma {:induction false} OwnAt(app: App, ds: seq<Demand>, i: int, k: nat) returns (j: nat)
    requires k < |Own(app, ds, i)|
    ensures KthOwn(app, ds, i, k, j)
    ensures Own(app, ds, i)[k] == Judgement(ds[j], VerdictOn(AfterAll(app, ds[..j]), ds[j]))
    decreases |ds|
  {
    var init := ds[..|ds| - 1];
    if k < |Own(app, init, i)| {
      j := OwnAt(app, init, i, k);
      assert ds[..j] == init[..j];
    } else {
      j := |ds| - 1;
    }
  }

  lemma {:induction false} OwnGrows(app: App, ds: seq<Demand>, i: int, a: nat, b: nat)
    requires a <= b <= |ds|
    ensures |Own(app, ds[..a], i)| <= |Own(app, ds[..b], i)|
    decreases b
  {
    if a < b {
      OwnGrows(app, ds, i, a, b - 1);
      assert ds[..b] == ds[..b - 1] + [ds[b - 1]];
      Snoc(app, ds[..b - 1], ds[b - 1], i);
    }
  }

  lemma OwnGrowsAt(app: App, ds: seq<Demand>, i: int, j: nat, b: nat)
    requires j < b <= |ds| && ds[j].id == i
    ensures |Own(app, ds[..j], i)| < |Own(app, ds[..b], i)|
  {
    assert ds[..j + 1] == ds[..j] + [ds[j]];
    Snoc(app, ds[..j], ds[j], i);
    OwnGrows(app, ds, i, j + 1, b);
  }

  /** Between two successive requests of a connection there are only requests of others. */
  lemma OthersBetween(app: App, ds: seq<Demand>, i: int, k: nat, j: nat, j': nat)
    requires KthOwn(app, ds, i, k, j) && KthOwn(app, ds, i, k + 1, j')
    ensures j < j' && forall t :: j < t < j' ==> ds[t].id != i
  {
    if j' <= j {
      OwnGrows(app, ds, i, j', j);
      assert false;
    }
    forall t | j < t < j' ensures ds[t].id != i {
      if ds[t].id == i {
        OwnGrowsAt(app, ds, i, j, t);
        OwnGrowsAt(app, ds, i, t, j');
        assert false;
      }
    }
  }

  // ---- every outcome -----------------------------------------------------------------

  /** In every reachable state of the composed system, the application is the result of the
      requests evaluated so far; so everything proved about sequences of requests holds of it. */
  lemma AppOfRun(ex: Example, clients: seq<Client>, template: Record, ms: seq<Move>)
    requires Allowed(Boot(ex, clients, template), ms)
    ensures var boot := Boot(ex, clients, template);
      && Run(boot, ms).app == AfterAll(Start(Callbacks(ex), template), Evaluations(boot, ms))
      && Explained(Run(boot, ms), Start(Callbacks(ex), template), Evaluations(boot, ms))
  {
    var boot := Boot(ex, clients, template);
    assert Explained(boot, boot.app, []);
    RunExplained(boot, ms, boot.app, []);
    assert [] + Evaluations(boot, ms) == Evaluations(boot, ms);
  }

  /** `c` is the unbroken connection `i` of a run that has evaluated the requests `ds`. */
  ghost predicate ConnectionOf(ex: Example, clients: seq<Client>, template: Record, ms: seq<Move>, i: nat,
                               c: X.Connection, ds: seq<Demand>) {
    var boot := Boot(ex, clients, template);
    && Allowed(boot, ms) && i < |Run(boot, ms).conns|
    && c == Run(boot, ms).conns[i] && !c.broken && ds == Evaluations(boot, ms)
  }

  lemma ConnectionAccounted(ex: Example, clients: seq<Client>, template: Record, ms: seq<Move>, i: nat,
                            c: X.Connection, ds: seq<Demand>)
    requires ConnectionOf(ex, clients, template, ms, i, c, ds)
    ensures A.Inv(c) && !c.broken && Accounted(c, Own(Start(Callbacks(ex), template), ds, i))
  {
    var boot := Boot(ex, clients, template);
    AppOfRun(ex, clients, template, ms);
    BootInv(ex, clients, template);
    RunKeepsInv(boot, ms);
    var sys := Run(boot, ms);
    assert ConnInv(ex, sys.clients[i], c, sys.app, i);
  }

  /** The k-th call of a connection ends with the verdict on the k-th request of that connection. */
  lemma OutcomeAt(c: X.Connection, app: App, ds: seq<Demand>, i: nat, k: nat) returns (j: nat)
    requires A.Inv(c) && !c.broken && Accounted(c, Own(app, ds, i)) && k < |c.outcomes|
    ensures KthOwn(app, ds, i, k, j) && k < |c.acquired|
    ensures ds[j] == Demand(i, c.acquired[k].call.code, c.acquired[k].call.body)
    ensures c.outcomes[k] == OutcomeOf(c.acquired[k].call, VerdictOn(AfterAll(app, ds[..j]), ds[j]))
  {
    OutcomeOfEvaluation(c, k);
    j := OwnAt(app, ds, i, k);
  }

  lemma OutcomeOfEvaluation(c: X.Connection, k: nat)
    requires A.Inv(c) && !c.broken && k < |c.outcomes|
    ensures k < |c.evaluated| && k < |c.acquired| && c.evaluated[k].call == c.acquired[k].call
    ensures c.outcomes[k] == OutcomeOf(c.acquired[k].call, c.evaluated[k].verdict)
  {
  }

  /** The data for a caller: for a result that it wants, the true one for the values that its own
      connection has had accepted before. */
  function DataFor(funcmap: map<uint64, Handler>, template: Record, before: seq<Demand>, d: Demand, c: Call): seq<byte> {
    match Dispatch(funcmap, d.code)
    case Some(h) =>
      if WantsData(c.meth) && (h == OnDownloadResult || h == OnCompareResult)
      then EncodeU32(TrueResult(h, Fold(funcmap, template, AcceptedOf(Start(funcmap, template), before, d.id)), d.body))
      else []
    case None => []
  }

  /** The outcome of a call whose request `d` is evaluated after the requests `before`. */
  ghost function RightOutcome(funcmap: map<uint64, Handler>, template: Record, before: seq<Demand>, d: Demand, c: Call): Outcome {
    if Acceptable(funcmap, before, d) then Accepted(DataFor(funcmap, template, before, d, c)) else Rejected
  }

  lemma VerdictIsRight(funcmap: map<uint64, Handler>, template: Record, before: seq<Demand>, d: Demand, c: Call)
    ensures OutcomeOf(c, VerdictOn(AfterAll(Start(funcmap, template), before), d)) ==
            RightOutcome(funcmap, template, before, d, c)
  {
    Acceptance(funcmap, template, before, d);
    ServedResultIsCurrent(funcmap, template, before, d);
    RecordIsolation(funcmap, template, before, d.id);
    ConstantParts(Start(funcmap, template), before);
    DataForResultsOnly(AfterAll(Start(funcmap, template), before), d);
  }

  /** For any number of clients, any of them free to make any calls from any number of threads,
      and for every interleaving: the k-th call on an unbroken connection ends with exactly the
      outcome that is right for the k-th request of that connection, given the requests evaluated
      before it on all connections. */
  lemma EveryOutcomeIsRight(ex: Example, clients: seq<Client>, template: Record, ms: seq<Move>, i: nat, k: nat,
                            c: X.Connection, ds: seq<Demand>)
    requires ConnectionOf(ex, clients, template, ms, i, c, ds) && k < |c.outcomes|
    ensures k < |c.acquired|
    ensures exists j: nat ::
      && KthOwn(Start(Callbacks(ex), template), ds, i, k, j)
      && ds[j] == Demand(i, c.acquired[k].call.code, c.acquired[k].call.body)
      && c.outcomes[k] == RightOutcome(Callbacks(ex), template, ds[..j], ds[j], c.acquired[k].call)
  {
    ConnectionAccounted(ex, clients, template, ms, i, c, ds);
    var j := OutcomeAt(c, Start(Callbacks(ex), template), ds, i, k);
    VerdictIsRight(Callbacks(ex), template, ds[..j], ds[j], c.acquired[k].call);
  }

  // ---- rejected for good -------------------------------------------------------------

  /** A request rejected once is rejected again when only other connections come in between. */
  lemma RejectedAgain(app: App, ds: seq<Demand>, j: nat, j': nat)
    requires j < j' < |ds| && ds[j'].id == ds[j].id && ds[j'].code == ds[j].code
    requires forall t :: j < t < j' ==> ds[t].id != ds[j].id
    requires !VerdictOn(AfterAll(app, ds[..j]), ds[j]).accepted
    ensures !VerdictOn(AfterAll(app, ds[..j']), ds[j']).accepted
  {
    var between := ds[j + 1..j'];
    assert ds[..j'] == ds[..j + 1] + between && ds[..j + 1] == ds[..j] + [ds[j]];
    AfterBoth(app, ds[..j + 1], between);
    Snoc(app, ds[..j], ds[j], ds[j].id);
    RejectedStaysRejected(AfterAll(app, ds[..j]), ds[j], between, ds[j']);
  }

  lemma RejectedIsFollowed(c: X.Connection, app: App, ds: seq<Demand>, i: nat, k: nat)
    requires A.Inv(c) && !c.broken && Accounted(c, Own(app, ds, i))
    requires k + 1 < |c.outcomes| && c.outcomes[k] == Rejected && SameCode(c.acquired, k, k + 1)
    ensures c.outcomes[k + 1] == Rejected
  {
    var j := OutcomeAt(c, app, ds, i, k);
    var j' := OutcomeAt(c, app, ds, i, k + 1);
    OthersBetween(app, ds, i, k, j, j');
    RejectedAgain(app, ds, j, j');
  }

  /** The calls from one to another are all made under the same code. */
  ghost predicate SameCode(calls: seq<X.Ticket>, first: nat, last: nat) {
    last < |calls| && forall n :: first <= n <= last ==> calls[n].call.code == calls[first].call.code
  }

  lemma {:induction false} RejectedFrom(outcomes: seq<Outcome>, first: nat, k: nat)
    requires first <= k < |outcomes| && outcomes[first] == Rejected
    requires forall n :: first <= n < k && outcomes[n] == Rejected ==> outcomes[n + 1] == Rejected
    ensures outcomes[k] == Rejected
    decreases k
  {
    if first < k {
      RejectedFrom(outcomes, first, k - 1);
    }
  }

  /** On an unbroken connection, whose threads make what calls they like, a rejected call is
      rejected as long as calls under the same code follow on it, whatever all other clients do. */
  lemma RepeatedCallStaysRejected(ex: Example, clients: seq<Client>, template: Record, ms: seq<Move>, i: nat,
                                  first: nat, k: nat, c: X.Connection, ds: seq<Demand>)
    requires ConnectionOf(ex, clients, template, ms, i, c, ds)
    requires first <= k < |c.outcomes| && c.outcomes[first] == Rejected && SameCode(c.acquired, first, k)
    ensures c.outcomes[k] == Rejected
  {
    ConnectionAccounted(ex, clients, template, ms, i, c, ds);
    forall n | first <= n < k && c.outcomes[n] == Rejected ensures c.outcomes[n + 1] == Rejected {
      RejectedIsFollowed(c, Start(Callbacks(ex), template), ds, i, n);
    }
    RejectedFrom(c.outcomes, first, k);
  }
}
