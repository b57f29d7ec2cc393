/** The example servers as one state: what `CallbackFunctionContainer::eval` and the
    callbacks make of a request, for any number of connections.

    A connection starts with a copy of the server's `StateContext`, but the copy points to
    the one `StateInit` object of the whole server. Its two flags are therefore part of the
    common state here (`sawA`, `sawB`), while each connection has its own state once it has
    left `StateInit`. */
module Application {
  import opened Bytes
  import opened Packets
  import opened Protocol

  const COMPUTE: uint64 := 0x0201
  const VALUE_A: uint64 := 0x0401
  const VALUE_B: uint64 := 0x0402
  const DATA_RESULT: uint64 := 0x0403
  const DOWNLOAD_RESULT: uint64 := 0x0801
  const COMPARE_RESULT: uint64 := 0x1001

  datatype Kind = Init | Ready | Computed
  datatype Event = ReceivedA | ReceivedB | ReceivedCompute | ReceivedResult
  datatype Record = Record(valueA: uint32, valueB: uint32, sum: uint32)
  datatype Handler = OnValueA | OnValueB | OnCompute | OnDownloadResult | OnCompareResult

  datatype App = App(
    funcmap: map<uint64, Handler>,
    template: Record,
    sawA: bool,
    sawB: bool,
    kinds: map<int, Kind>,
    records: map<int, Record>)

  /** One request as the worker of connection `id` hands it to the container. */
  datatype Demand = Demand(id: int, code: uint64, body: seq<byte>)

  function Level(k: Kind): int {
    match k case Init => 1 case Ready => 2 case Computed => 3
  }

  function KindOf(app: App, id: int): Kind {
    if id in app.kinds then app.kinds[id] else Init
  }

  /** The record of a connection, or the template it will be made from. */
  function RecordOf(app: App, id: int): Record {
    if id in app.records then app.records[id] else app.template
  }

  function Sum(r: Record): uint32 {
    (r.valueA + r.valueB) % U32
  }

  /** The first four bytes of a buffer as a number; shorter buffers are outside the model. */
  function ReadU32(body: seq<byte>): uint32 {
    if |body| < 4 then 0 else
      Widths();
      FromLittleEndianBound(body[..4]);
      FromLittleEndian(body[..4])
  }

  // ---- states ------------------------------------------------------------------------

  datatype Advance = Advance(kind: Kind, sawA: bool, sawB: bool)

  /** `State::set` of the three states; the flags are those of the shared `StateInit`. */
  function Next(k: Kind, sawA: bool, sawB: bool, ev: Event): Advance {
    match k
    case Init =>
      var a, b := sawA || ev.ReceivedA?, sawB || ev.ReceivedB?;
      Advance(if a && b then Ready else Init, a, b)
    case Ready => Advance(if ev.ReceivedCompute? then Computed else Ready, sawA, sawB)
    case Computed => Advance(if ev.ReceivedA? || ev.ReceivedB? then Ready else Computed, sawA, sawB)
  }

  // ---- callbacks ---------------------------------------------------------------------

  function GroupOfHandler(h: Handler): Group {
    match h
    case OnValueA => Data
    case OnValueB => Data
    case OnCompute => Request
    case OnDownloadResult => Download
    case OnCompareResult => UpDownload
  }

  predicate Suits(g: Option<Group>, h: Handler) {
    g == Some(GroupOfHandler(h))
  }

  /** The callback that runs for a code, if any: a callback class overrides only the function
      of its own group, and the base class does nothing for the others. */
  function Dispatch(funcmap: map<uint64, Handler>, code: uint64): Option<Handler> {
    if code in funcmap && Suits(GroupOf(code), funcmap[code]) then Some(funcmap[code]) else None
  }

  datatype Handled = Handled(record: Record, event: Event, message: Option<Message>)

  function ResultMessage(n: uint32): (m: Message)
    ensures ValidMessage(m)
  {
    Message(DATA_RESULT, EncodeU32(n))
  }

  /** None stands for the CallbackException that the guard throws. */
  function Handle(h: Handler, k: Kind, r: Record, body: seq<byte>): Option<Handled> {
    match h
    case OnValueA =>
      if Level(Init) <= Level(k) then Some(Handled(r.(valueA := ReadU32(body)), ReceivedA, None)) else None
    case OnValueB =>
      if Level(Init) <= Level(k) then Some(Handled(r.(valueB := ReadU32(body)), ReceivedB, None)) else None
    case OnCompute =>
      if Level(Ready) <= Level(k) then Some(Handled(r.(sum := Sum(r)), ReceivedCompute, None)) else None
    case OnDownloadResult =>
      if Level(Computed) <= Level(k) then Some(Handled(r, ReceivedResult, Some(ResultMessage(r.sum)))) else None
    case OnCompareResult =>
      if Level(Computed) <= Level(k)
      then Some(Handled(r, ReceivedResult, Some(ResultMessage(if r.sum == ReadU32(body) then 1 else 0))))
      else None
  }

  // ---- one evaluation ----------------------------------------------------------------

  function Emplace(app: App, id: int): App {
    if id in app.records then app else app.(records := app.records[id := app.template])
  }

  /** What becomes of a request: no callback runs for it, the guard of the callback throws, or
      the callback runs to its end. */
  datatype Decision = Ignored | Refused | Done(handled: Handled)

  function Decide(app: App, d: Demand): Decision {
    match Dispatch(app.funcmap, d.code)
    case None => Ignored
    case Some(h) =>
      match Handle(h, KindOf(app, d.id), RecordOf(app, d.id), d.body)
      case None => Refused
      case Some(x) => Done(x)
  }

  function VerdictOf(decision: Decision): Verdict {
    match decision
    case Ignored => Verdict(true, None)
    case Refused => Verdict(false, None)
    case Done(x) => Verdict(true, x.message)
  }

  function Commit(app: App, id: int, decision: Decision): App {
    match decision
    case Done(x) =>
      var n := Next(KindOf(app, id), app.sawA, app.sawB, x.event);
      app.(records := app.records[id := x.record], kinds := app.kinds[id := n.kind], sawA := n.sawA, sawB := n.sawB)
    case _ => Emplace(app, id)
  }

  function VerdictOn(app: App, d: Demand): Verdict {
    VerdictOf(Decide(app, d))
  }

  function After(app: App, d: Demand): App {
    Commit(app, d.id, Decide(app, d))
  }

  function Start(funcmap: map<uint64, Handler>, template: Record): App {
    App(funcmap, template, false, false, map[], map[])
  }

  /** The state after a sequence of requests, in the order of their evaluation. */
  function AfterAll(app: App, ds: seq<Demand>): App {
    if ds == [] then app else After(AfterAll(app, ds[..|ds| - 1]), ds[|ds| - 1])
  }

  ghost predicate WellRegistered(funcmap: map<uint64, Handler>) {
    forall code :: code in funcmap ==> Suits(GroupOf(code), funcmap[code])
  }

  /** The codes registered with a callback of their own group. For any other code no callback
      runs, or the function of the base class, which does nothing. */
  function Implemented(funcmap: map<uint64, Handler>): set<uint64> {
    set code | code in funcmap && Suits(GroupOf(code), funcmap[code])
  }

  /** The container decides only what the exchange allows, whatever callbacks are registered
      under whatever codes. */
  lemma EvalFits(app: App, d: Demand)
    ensures Fits(Implemented(app.funcmap), d.code, VerdictOn(app, d))
  {
  }

  lemma WellRegisteredIff(funcmap: map<uint64, Handler>)
    ensures WellRegistered(funcmap) <==> Implemented(funcmap) == funcmap.Keys
  {
    if Implemented(funcmap) == funcmap.Keys {
      forall code | code in funcmap ensures Suits(GroupOf(code), funcmap[code]) {
        assert code in Implemented(funcmap);
      }
    }
  }

  // ---- judged requests ---------------------------------------------------------------

  datatype Judgement = Judgement(demand: Demand, verdict: Verdict)

  function Demands(js: seq<Judgement>): seq<Demand> {
    if js == [] then [] else Demands(js[..|js| - 1]) + [js[|js| - 1].demand]
  }

  /** The verdicts are those of the application, each in the state its request was evaluated in. */
  ghost predicate Judged(boot: App, js: seq<Judgement>) {
    js == [] ||
    (var init, last := js[..|js| - 1], js[|js| - 1];
     Judged(boot, init) && last.verdict == VerdictOn(AfterAll(boot, Demands(init)), last.demand))
  }

  lemma JudgedMore(boot: App, js: seq<Judgement>, j: Judgement)
    requires Judged(boot, js) && j.verdict == VerdictOn(AfterAll(boot, Demands(js)), j.demand)
    ensures Judged(boot, js + [j])
    ensures AfterAll(boot, Demands(js + [j])) == After(AfterAll(boot, Demands(js)), j.demand)
  {
    assert (js + [j])[..|js|] == js;
    assert (Demands(js) + [j.demand])[..|Demands(js)|] == Demands(js);
  }

  lemma {:induction false} AfterBoth(app: App, ds: seq<Demand>, ds': seq<Demand>)
    ensures AfterAll(app, ds + ds') == AfterAll(AfterAll(app, ds), ds')
  {
    if ds' == [] {
      assert ds + ds' == ds;
    } else {
      var init := ds'[..|ds'| - 1];
      AfterBoth(app, ds, init);
      assert (ds + ds')[..|ds + ds'| - 1] == ds + init;
    }
  }

  // ---- what one evaluation changes ---------------------------------------------------

  lemma {:induction false} ConstantParts(app: App, ds: seq<Demand>)
    ensures AfterAll(app, ds).funcmap == app.funcmap && AfterAll(app, ds).template == app.template
  {
    if ds != [] {
      ConstantParts(app, ds[..|ds| - 1]);
    }
  }

  /** An evaluation for one connection leaves the state and record of all others alone, and
      the flags of the shared `StateInit` never fall back. */
  lemma OthersUntouched(app: App, d: Demand, id: int)
    requires d.id != id
    ensures KindOf(After(app, d), id) == KindOf(app, id)
    ensures RecordOf(After(app, d), id) == RecordOf(app, id)
    ensures app.sawA ==> After(app, d).sawA
    ensures app.sawB ==> After(app, d).sawB
  {
  }

  lemma {:induction false} AllOthersUntouched(app: App, ds: seq<Demand>, id: int)
    requires forall k :: 0 <= k < |ds| ==> ds[k].id != id
    ensures KindOf(AfterAll(app, ds), id) == KindOf(app, id)
    ensures RecordOf(AfterAll(app, ds), id) == RecordOf(app, id)
  {
    if ds != [] {
      AllOthersUntouched(app, ds[..|ds| - 1], id);
      OthersUntouched(AfterAll(app, ds[..|ds| - 1]), ds[|ds| - 1], id);
    }
  }

  /** A rejected request changes no state, no flag and no record. */
  lemma RejectedIsNoOp(app: App, d: Demand, id: int)
    requires !VerdictOn(app, d).accepted
    ensures After(app, d) == app.(records := After(app, d).records)
    ensures RecordOf(After(app, d), id) == RecordOf(app, id)
  {
  }

  /** Whether a request is accepted depends on its code and on the state of its connection only. */
  lemma SameVerdict(app: App, app': App, d: Demand, retry: Demand)
    requires app.funcmap == app'.funcmap && KindOf(app, d.id) == KindOf(app', d.id)
    requires retry.id == d.id && retry.code == d.code
    ensures VerdictOn(app', retry).accepted == VerdictOn(app, d).accepted
  {
  }

  /** No request of other connections can make a rejected request acceptable, whatever its
      sender puts in the body of the retry. */
  lemma RejectedStaysRejected(app: App, d: Demand, between: seq<Demand>, retry: Demand)
    requires !VerdictOn(app, d).accepted
    requires forall k :: 0 <= k < |between| ==> between[k].id != d.id
    requires retry.id == d.id && retry.code == d.code
    ensures !VerdictOn(AfterAll(After(app, d), between), retry).accepted
  {
    var app1 := After(app, d);
    RejectedIsNoOp(app, d, d.id);
    AllOthersUntouched(app1, between, d.id);
    ConstantParts(app1, between);
    SameVerdict(app, AfterAll(app1, between), d, retry);
  }

  /** Every evaluation, rejected or not, makes sure that the connection has a record. */
  lemma RecordIsMade(app: App, d: Demand)
    ensures After(app, d).records.Keys == app.records.Keys + {d.id}
  {
  }

  // ---- freshness ---------------------------------------------------------------------

  ghost predicate Current(app: App, id: int) {
    KindOf(app, id) == Computed ==> RecordOf(app, id).sum == Sum(RecordOf(app, id))
  }

  lemma FreshStep(app: App, d: Demand, id: int)
    requires Current(app, id)
    ensures Current(After(app, d), id)
  {
    if d.id != id {
      OthersUntouched(app, d, id);
    }
  }

  /** Over every run of requests of any number of connections: a connection in the computed
      state holds the sum of its current values. */
  lemma {:induction false} Freshness(funcmap: map<uint64, Handler>, template: Record, ds: seq<Demand>, id: int)
    ensures Current(AfterAll(Start(funcmap, template), ds), id)
  {
    if ds != [] {
      var init := ds[..|ds| - 1];
      Freshness(funcmap, template, init, id);
      FreshStep(AfterAll(Start(funcmap, template), init), ds[|ds| - 1], id);
    }
  }

  /** What a result request is answered: the sum of the values of its connection, or whether
      the number sent along equals it. */
  function TrueResult(h: Handler, r: Record, body: seq<byte>): uint32 {
    if h == OnDownloadResult then Sum(r) else if ReadU32(body) == Sum(r) then 1 else 0
  }

  lemma ServedStep(app: App, d: Demand)
    requires Current(app, d.id)
    ensures var v, h := VerdictOn(app, d), Dispatch(app.funcmap, d.code);
      v.message.Some? ==>
        && v.accepted && h.Some?
        && v.message.value == ResultMessage(TrueResult(h.value, RecordOf(app, d.id), d.body))
  {
  }

  /** A served result is about the values last accepted on that connection, never stale. */
  lemma ServedResultIsCurrent(funcmap: map<uint64, Handler>, template: Record, ds: seq<Demand>, d: Demand)
    ensures var app := AfterAll(Start(funcmap, template), ds);
      var v, h := VerdictOn(app, d), Dispatch(funcmap, d.code);
      v.message.Some? ==>
        && v.accepted && h.Some?
        && v.message.value.code == DATA_RESULT
        && v.message.value.payload == EncodeU32(TrueResult(h.value, RecordOf(app, d.id), d.body))
  {
    Freshness(funcmap, template, ds, d.id);
    ConstantParts(Start(funcmap, template), ds);
    ServedStep(AfterAll(Start(funcmap, template), ds), d);
  }

  /** An accepted request is answered with data if and only if it is one for the result. */
  lemma DataForResultsOnly(app: App, d: Demand)
    ensures var v, h := VerdictOn(app, d), Dispatch(app.funcmap, d.code);
      v.message.Some? <==> v.accepted && (h == Some(OnDownloadResult) || h == Some(OnCompareResult))
  {
  }

  // ---- readiness ---------------------------------------------------------------------

  predicate Is(funcmap: map<uint64, Handler>, d: Demand, h: Handler) {
    Dispatch(funcmap, d.code) == Some(h)
  }

  ghost predicate Seen(funcmap: map<uint64, Handler>, ds: seq<Demand>, h: Handler) {
    exists k :: 0 <= k < |ds| && Is(funcmap, ds[k], h)
  }

  /** Request `k` is a value sent by `id`, at a time when values of both kinds had been
      accepted, on whichever connections. */
  ghost predicate Completes(funcmap: map<uint64, Handler>, ds: seq<Demand>, id: int, k: nat)
    requires k < |ds|
  {
    && ds[k].id == id && (Is(funcmap, ds[k], OnValueA) || Is(funcmap, ds[k], OnValueB))
    && Seen(funcmap, ds[..k + 1], OnValueA) && Seen(funcmap, ds[..k + 1], OnValueB)
  }

  lemma SeenGrows(funcmap: map<uint64, Handler>, ds: seq<Demand>, h: Handler)
    requires ds != []
    ensures Seen(funcmap, ds, h) <==> Seen(funcmap, ds[..|ds| - 1], h) || Is(funcmap, ds[|ds| - 1], h)
  {
    var init := ds[..|ds| - 1];
    if Seen(funcmap, init, h) {
      var k :| 0 <= k < |init| && Is(funcmap, init[k], h);
      assert ds[k] == init[k];
    }
    if Seen(funcmap, ds, h) && !Is(funcmap, ds[|ds| - 1], h) {
      var k :| 0 <= k < |ds| && Is(funcmap, ds[k], h);
      assert init[k] == ds[k];
    }
  }

  ghost predicate EverCompletes(funcmap: map<uint64, Handler>, ds: seq<Demand>, id: int) {
    exists k :: 0 <= k < |ds| && Completes(funcmap, ds, id, k)
  }

  lemma CompletesGrows(funcmap: map<uint64, Handler>, ds: seq<Demand>, id: int)
    requires ds != []
    ensures EverCompletes(funcmap, ds, id) <==>
            EverCompletes(funcmap, ds[..|ds| - 1], id) || Completes(funcmap, ds, id, |ds| - 1)
  {
    var init := ds[..|ds| - 1];
    forall k | 0 <= k < |init| ensures Completes(funcmap, init, id, k) <==> Completes(funcmap, ds, id, k) {
      assert init[..k + 1] == ds[..k + 1];
    }
  }

  /** Readiness history, exactly: the flags of the shared object record that some connection
      sent A, respectively B; and a connection is past `StateInit` if and only if it has
      itself sent a value when both kinds had been sent by anyone. */
  lemma {:induction false} Readiness(funcmap: map<uint64, Handler>, template: Record, ds: seq<Demand>, id: int)
    ensures var app := AfterAll(Start(funcmap, template), ds);
      && (app.sawA <==> Seen(funcmap, ds, OnValueA))
      && (app.sawB <==> Seen(funcmap, ds, OnValueB))
      && (KindOf(app, id) != Init ==> app.sawA && app.sawB)
      && (KindOf(app, id) != Init <==> EverCompletes(funcmap, ds, id))
  {
    if ds != [] {
      var init, last := ds[..|ds| - 1], ds[|ds| - 1];
      var app := AfterAll(Start(funcmap, template), init);
      ConstantParts(Start(funcmap, template), init);
      Readiness(funcmap, template, init, id);
      Readiness(funcmap, template, init, last.id);
      SeenGrows(funcmap, ds, OnValueA);
      SeenGrows(funcmap, ds, OnValueB);
      CompletesGrows(funcmap, ds, id);
      assert ds[..|ds| - 1 + 1] == ds;
      ReadinessStep(app, last, id);
    }
  }

  lemma ReadinessStep(app: App, d: Demand, id: int)
    requires KindOf(app, d.id) != Init ==> app.sawA && app.sawB
    ensures var app' := After(app, d);
      && (app'.sawA <==> app.sawA || Is(app.funcmap, d, OnValueA))
      && (app'.sawB <==> app.sawB || Is(app.funcmap, d, OnValueB))
      && (KindOf(app', id) != Init <==>
            || KindOf(app, id) != Init
            || (d.id == id && (Is(app.funcmap, d, OnValueA) || Is(app.funcmap, d, OnValueB)) && app'.sawA && app'.sawB))
  {
  }

  /** With one connection the state machine means what its name says: it has left `StateInit`
      if and only if both values were accepted on it. */
  lemma SingleConnectionReadiness(funcmap: map<uint64, Handler>, template: Record, ds: seq<Demand>, id: int)
    requires forall k :: 0 <= k < |ds| ==> ds[k].id == id
    ensures KindOf(AfterAll(Start(funcmap, template), ds), id) != Init <==>
            Seen(funcmap, ds, OnValueA) && Seen(funcmap, ds, OnValueB)
  {
    Readiness(funcmap, template, ds, id);
    if Seen(funcmap, ds, OnValueA) && Seen(funcmap, ds, OnValueB) {
      var a :| 0 <= a < |ds| && Is(funcmap, ds[a], OnValueA);
      var b :| 0 <= b < |ds| && Is(funcmap, ds[b], OnValueB);
      var k := if a < b then b else a;
      assert ds[..k + 1][a] == ds[a] && ds[..k + 1][b] == ds[b];
      assert Completes(funcmap, ds, id, k);
    }
  }

  /** With two connections it does not: the second is ready after one value, because the first
      sent the other one to the `StateInit` they share. */
  lemma ReadyWithoutOwnValues(template: Record, a: seq<byte>, b: seq<byte>)
    ensures var ds := [Demand(1, VALUE_A, a), Demand(2, VALUE_B, b)];
      var app := AfterAll(Start(MultiClient(), template), ds);
      && KindOf(app, 2) == Ready && KindOf(app, 1) == Init
      && RecordOf(app, 2).valueA == template.valueA
  {
    var app0 := Start(MultiClient(), template);
    var d1, d2 := Demand(1, VALUE_A, a), Demand(2, VALUE_B, b);
    assert AfterAll(app0, [d1]) == After(AfterAll(app0, []), d1);
    assert [d1, d2][..1] == [d1];
    assert AfterAll(app0, [d1, d2]) == After(After(app0, d1), d2);
  }

  // ---- acceptance --------------------------------------------------------------------

  predicate IsValue(funcmap: map<uint64, Handler>, d: Demand) {
    Is(funcmap, d, OnValueA) || Is(funcmap, d, OnValueB)
  }

  /** Request `k` is a computation for `id`, made after it had left `StateInit`, and `id` has
      sent no value since. */
  ghost predicate Computes(funcmap: map<uint64, Handler>, ds: seq<Demand>, id: int, k: nat)
    requires k < |ds|
  {
    && ds[k].id == id && Is(funcmap, ds[k], OnCompute) && EverCompletes(funcmap, ds[..k], id)
    && forall j :: k < j < |ds| && ds[j].id == id ==> !IsValue(funcmap, ds[j])
  }

  ghost predicate HasComputed(funcmap: map<uint64, Handler>, ds: seq<Demand>, id: int) {
    exists k :: 0 <= k < |ds| && Computes(funcmap, ds, id, k)
  }

  lemma ComputesStill(funcmap: map<uint64, Handler>, ds: seq<Demand>, id: int, k: nat)
    requires k < |ds| - 1
    ensures var init, last := ds[..|ds| - 1], ds[|ds| - 1];
      Computes(funcmap, ds, id, k) <==> Computes(funcmap, init, id, k) && !(last.id == id && IsValue(funcmap, last))
  {
    var init, last := ds[..|ds| - 1], ds[|ds| - 1];
    assert init[..k] == ds[..k];
    assert forall j :: k < j < |init| ==> init[j] == ds[j];
  }

  lemma ComputedGrows(funcmap: map<uint64, Handler>, ds: seq<Demand>, id: int)
    requires ds != []
    ensures var init, last := ds[..|ds| - 1], ds[|ds| - 1];
      HasComputed(funcmap, ds, id) <==>
        && !(last.id == id && IsValue(funcmap, last))
        && (HasComputed(funcmap, init, id) || (last.id == id && Is(funcmap, last, OnCompute) && EverCompletes(funcmap, init, id)))
  {
    var init, last := ds[..|ds| - 1], ds[|ds| - 1];
    forall k | 0 <= k < |init|
      ensures Computes(funcmap, ds, id, k) <==> Computes(funcmap, init, id, k) && !(last.id == id && IsValue(funcmap, last))
    {
      ComputesStill(funcmap, ds, id, k);
    }
    assert Computes(funcmap, ds, id, |init|) <==>
      last.id == id && Is(funcmap, last, OnCompute) && EverCompletes(funcmap, init, id);
  }

  lemma ComputedStep(app: App, d: Demand, id: int)
    ensures KindOf(After(app, d), id) == Computed <==>
      && !(d.id == id && IsValue(app.funcmap, d))
      && (KindOf(app, id) == Computed || (d.id == id && Is(app.funcmap, d, OnCompute) && KindOf(app, id) != Init))
  {
  }

  /** A connection is in the computed state if and only if it has computed and sent no value
      since. */
  lemma {:induction false} ComputedHistory(funcmap: map<uint64, Handler>, template: Record, ds: seq<Demand>, id: int)
    ensures KindOf(AfterAll(Start(funcmap, template), ds), id) == Computed <==> HasComputed(funcmap, ds, id)
  {
    if ds != [] {
      var init, last := ds[..|ds| - 1], ds[|ds| - 1];
      ComputedHistory(funcmap, template, init, id);
      Readiness(funcmap, template, init, id);
      ConstantParts(Start(funcmap, template), init);
      ComputedGrows(funcmap, ds, id);
      ComputedStep(AfterAll(Start(funcmap, template), init), last, id);
    }
  }

  /** The guards: which requests are accepted in a given state. */
  lemma AcceptedIn(app: App, d: Demand)
    ensures VerdictOn(app, d).accepted <==>
            match Dispatch(app.funcmap, d.code)
            case Some(OnCompute) => KindOf(app, d.id) != Init
            case Some(OnDownloadResult) => KindOf(app, d.id) == Computed
            case Some(OnCompareResult) => KindOf(app, d.id) == Computed
            case _ => true
  {
  }

  /** Whether a request is acceptable after the requests `ds`: values always, a computation if
      and only if the connection has left `StateInit`, and the result if and only if it has
      computed and sent no value since. */
  ghost predicate Acceptable(funcmap: map<uint64, Handler>, ds: seq<Demand>, d: Demand) {
    match Dispatch(funcmap, d.code)
    case Some(OnCompute) => EverCompletes(funcmap, ds, d.id)
    case Some(OnDownloadResult) => HasComputed(funcmap, ds, d.id)
    case Some(OnCompareResult) => HasComputed(funcmap, ds, d.id)
    case _ => true
  }

  /** Which requests are accepted, in terms of the requests made before and nothing else. */
  lemma Acceptance(funcmap: map<uint64, Handler>, template: Record, ds: seq<Demand>, d: Demand)
    ensures VerdictOn(AfterAll(Start(funcmap, template), ds), d).accepted <==> Acceptable(funcmap, ds, d)
  {
    Readiness(funcmap, template, ds, d.id);
    ComputedHistory(funcmap, template, ds, d.id);
    ConstantParts(Start(funcmap, template), ds);
    AcceptedIn(AfterAll(Start(funcmap, template), ds), d);
  }

  lemma LeftForGood(app: App, d: Demand, id: int)
    requires KindOf(app, id) != Init
    ensures KindOf(After(app, d), id) != Init
  {
  }

  /** No connection ever returns to `StateInit`. */
  lemma {:induction false} NeverBackToInit(app: App, ds: seq<Demand>, j: nat, id: int)
    requires j <= |ds| && KindOf(AfterAll(app, ds[..j]), id) != Init
    ensures KindOf(AfterAll(app, ds), id) != Init
  {
    if j == |ds| {
      assert ds[..j] == ds;
    } else {
      var init := ds[..|ds| - 1];
      assert init[..j] == ds[..j];
      NeverBackToInit(app, init, j, id);
      LeftForGood(AfterAll(app, init), ds[|ds| - 1], id);
    }
  }

  // ---- record isolation --------------------------------------------------------------

  /** What an accepted request does to the record of its own connection. */
  function Update(funcmap: map<uint64, Handler>, r: Record, d: Demand): Record {
    match Dispatch(funcmap, d.code)
    case Some(OnValueA) => r.(valueA := ReadU32(d.body))
    case Some(OnValueB) => r.(valueB := ReadU32(d.body))
    case Some(OnCompute) => r.(sum := Sum(r))
    case _ => r
  }

  function Fold(funcmap: map<uint64, Handler>, r: Record, ds: seq<Demand>): Record {
    if ds == [] then r else Update(funcmap, Fold(funcmap, r, ds[..|ds| - 1]), ds[|ds| - 1])
  }

  /** The accepted requests of one connection, in order. */
  function AcceptedOf(app: App, ds: seq<Demand>, id: int): seq<Demand> {
    if ds == [] then []
    else
      var init, last := ds[..|ds| - 1], ds[|ds| - 1];
      if last.id == id && VerdictOn(AfterAll(app, init), last).accepted
      then AcceptedOf(app, init, id) + [last]
      else AcceptedOf(app, init, id)
  }

  lemma RecordStep(app: App, d: Demand, id: int)
    ensures RecordOf(After(app, d), id) ==
      if d.id == id && VerdictOn(app, d).accepted then Update(app.funcmap, RecordOf(app, id), d) else RecordOf(app, id)
  {
  }

  /** Whatever the interleaving, a connection's record is the template with its own accepted
      requests applied, and nothing else; later evaluations never initialise it again. */
  lemma {:induction false} RecordIsolation(funcmap: map<uint64, Handler>, template: Record, ds: seq<Demand>, id: int)
    ensures var app0 := Start(funcmap, template);
      RecordOf(AfterAll(app0, ds), id) == Fold(funcmap, template, AcceptedOf(app0, ds, id))
  {
    if ds != [] {
      var app0 := Start(funcmap, template);
      var init, last := ds[..|ds| - 1], ds[|ds| - 1];
      RecordIsolation(funcmap, template, init, id);
      ConstantParts(app0, init);
      RecordStep(AfterAll(app0, init), last, id);
      var own := AcceptedOf(app0, init, id);
      assert (own + [last])[..|own|] == own;
    }
  }

  // ---- the two example servers -------------------------------------------------------

  function MultiClient(): map<uint64, Handler> {
    map[VALUE_A := OnValueA, VALUE_B := OnValueB, COMPUTE := OnCompute, COMPARE_RESULT := OnCompareResult]
  }

  function AddServer(): map<uint64, Handler> {
    map[VALUE_A := OnValueA, VALUE_B := OnValueB, COMPUTE := OnCompute, DOWNLOAD_RESULT := OnDownloadResult]
  }

  lemma GroupsOfExampleCodes()
    ensures GroupOf(VALUE_A) == Some(Data) && GroupOf(VALUE_B) == Some(Data)
    ensures GroupOf(COMPUTE) == Some(Request)
    ensures GroupOf(DOWNLOAD_RESULT) == Some(Download) && GroupOf(COMPARE_RESULT) == Some(UpDownload)
  {
    DispatchIsExact(VALUE_A, Data);
    DispatchIsExact(VALUE_B, Data);
    DispatchIsExact(COMPUTE, Request);
    DispatchIsExact(DOWNLOAD_RESULT, Download);
    DispatchIsExact(COMPARE_RESULT, UpDownload);
  }

  lemma MultiClientIsWellRegistered()
    ensures WellRegistered(MultiClient())
  {
    GroupsOfExampleCodes();
    forall code | code in MultiClient() ensures Suits(GroupOf(code), MultiClient()[code]) {
      assert code == VALUE_A || code == VALUE_B || code == COMPUTE || code == COMPARE_RESULT;
    }
  }

  lemma AddServerIsWellRegistered()
    ensures WellRegistered(AddServer())
  {
    GroupsOfExampleCodes();
    forall code | code in AddServer() ensures Suits(GroupOf(code), AddServer()[code]) {
      assert code == VALUE_A || code == VALUE_B || code == COMPUTE || code == DOWNLOAD_RESULT;
    }
  }

  lemma ExamplesAreWellRegistered()
    ensures WellRegistered(MultiClient()) && WellRegistered(AddServer())
  {
    MultiClientIsWellRegistered();
    AddServerIsWellRegistered();
  }
}
