/** The server's objects in memory: state objects, the contexts that point to them, the
    callback container with its per-connection records, and the server that creates a copy
    of its context for every accepted connection. Each operation is proved to do to these
    objects what Application says it does to the state of the whole server. */
module ServerObjects {
  import opened Bytes
  import opened Packets
  import opened Protocol
  import opened Application

  /** A state object. `StateInit`, `StateReady` and `StateComputed` are told apart by `kind`;
      the flags belong to `StateInit`. */
  class State {
    const kind: Kind
    var receivedA: bool
    var receivedB: bool

    constructor (kind: Kind)
      ensures this.kind == kind && !receivedA && !receivedB
    {
      this.kind := kind;
      receivedA, receivedB := false, false;
    }

    method Set(sc: StateContext, ev: Event)
      requires sc.state == this
      modifies this, sc
      ensures var n := Next(kind, old(receivedA), old(receivedB), ev);
        && sc.state.kind == n.kind
        && (kind == Init ==> receivedA == n.sawA && receivedB == n.sawB)
        && (kind != Init ==> unchanged(this))
      ensures sc.state == this || (fresh(sc.state) && sc.state.kind != Init)
    {
      match kind
      case Init =>
        if ev == ReceivedA {
          receivedA := true;
        } else if ev == ReceivedB {
          receivedB := true;
        }
        if receivedA && receivedB {
          var next := new State(Ready);
          sc.NextState(next);
        }
      case Ready =>
        if ev == ReceivedCompute {
          var next := new State(Computed);
          sc.NextState(next);
        }
      case Computed =>
        if ev == ReceivedA || ev == ReceivedB {
          var next := new State(Ready);
          sc.NextState(next);
        }
    }
  }

  class StateContext {
    var state: State
    ghost const owner: int

    /** `owner` is the connection that the copy is made for. */
    constructor (state: State, ghost owner: int)
      ensures this.state == state && this.owner == owner
    {
      this.state := state;
      this.owner := owner;
    }

    method NextState(next: State)
      modifies this
      ensures state == next
    {
      state := next;
    }

    method Set(ev: Event)
      modifies this, state
      ensures var n := Next(old(state.kind), old(state.receivedA), old(state.receivedB), ev);
        && state.kind == n.kind
        && (old(state.kind) == Init ==> old(state).receivedA == n.sawA && old(state).receivedB == n.sawB)
        && (old(state.kind) != Init ==> unchanged(old(state)))
      ensures state == old(state) || (fresh(state) && state.kind != Init)
    {
      state.Set(this, ev);
    }
  }

  /** `CallbackFunctionContainer::Impl`, with typed records in place of byte vectors. */
  class Container {
    var funcmap: map<uint64, Handler>
    var template: Record
    var records: map<int, Record>

    /** Until common data are set the template is any record. */
    constructor ()
      ensures funcmap == map[] && records == map[]
    {
      funcmap, records := map[], map[];
      template := *;
    }

    /** What the callbacks of a connection find: its record, or the template it is made from. */
    ghost function Reads(id: int): Record
      reads this
    {
      if id in records then records[id] else template
    }

    /** `emplace`: the first registration of a code stays. */
    method Register(code: uint64, h: Handler)
      modifies this`funcmap
      ensures funcmap == if code in old(funcmap) then old(funcmap) else old(funcmap)[code := h]
    {
      if code !in funcmap {
        funcmap := funcmap[code := h];
      }
    }

    /** New common data reach the connections that have no record yet, and no other. */
    method SetCommonData(data: Record)
      modifies this`template
      ensures template == data
      ensures forall id :: Reads(id) == if id in records then old(Reads(id)) else data
    {
      template := data;
    }

    /** The callbacks of the multi-client server, and the data of its connections. */
    method SetUpMultiClient(data: Record)
      requires funcmap == map[]
      modifies this`funcmap, this`template
      ensures funcmap == MultiClient() && template == data && records == old(records)
    {
      Register(VALUE_A, OnValueA);
      Register(VALUE_B, OnValueB);
      Register(COMPUTE, OnCompute);
      Register(COMPARE_RESULT, OnCompareResult);
      SetCommonData(data);
    }

    /** Those of the add server. */
    method SetUpAddServer(data: Record)
      requires funcmap == map[]
      modifies this`funcmap, this`template
      ensures funcmap == AddServer() && template == data && records == old(records)
    {
      Register(VALUE_A, OnValueA);
      Register(VALUE_B, OnValueB);
      Register(COMPUTE, OnCompute);
      Register(DOWNLOAD_RESULT, OnDownloadResult);
      SetCommonData(data);
    }

    /** One evaluation, after the body has been received. The message is what a callback has
        sent when it returns; `accepted` is false when it has thrown a CallbackException. */
    method Eval(id: int, code: uint64, body: seq<byte>, sc: StateContext, ghost app: App) returns (v: Verdict)
      requires app.funcmap == funcmap && app.template == template && app.records == records
      requires KindOf(app, id) == sc.state.kind
      requires sc.state.kind == Init ==> app.sawA == sc.state.receivedA && app.sawB == sc.state.receivedB
      modifies this`records, sc, sc.state
      ensures v == VerdictOn(app, Demand(id, code, body))
      ensures var app' := After(app, Demand(id, code, body));
        && records == app'.records
        && sc.state.kind == KindOf(app', id)
        && (old(sc.state.kind) == Init ==> old(sc.state).receivedA == app'.sawA && old(sc.state).receivedB == app'.sawB)
        && (old(sc.state.kind) != Init ==> unchanged(old(sc.state)))
      ensures sc.state == old(sc.state) || (fresh(sc.state) && sc.state.kind != Init)
    {
      if id !in records {
        records := records[id := template];
      }
      v := Verdict(true, None);
      if code in funcmap && Suits(GroupOf(code), funcmap[code]) {
        v := Call(funcmap[code], id, body, sc);
      }
    }

    /** The bodies of the callbacks. */
    method Call(h: Handler, id: int, body: seq<byte>, sc: StateContext) returns (v: Verdict)
      requires id in records
      modifies this`records, sc, sc.state
      ensures match Handle(h, old(sc.state.kind), old(records[id]), body)
              case None =>
                v == Verdict(false, None) && records == old(records) && unchanged(sc) && unchanged(old(sc.state))
              case Some(x) =>
                var n := Next(old(sc.state.kind), old(sc.state.receivedA), old(sc.state.receivedB), x.event);
                && v == Verdict(true, x.message)
                && records == old(records)[id := x.record]
                && sc.state.kind == n.kind
                && (old(sc.state.kind) == Init ==> old(sc.state).receivedA == n.sawA && old(sc.state).receivedB == n.sawB)
                && (old(sc.state.kind) != Init ==> unchanged(old(sc.state)))
      ensures sc.state == old(sc.state) || (fresh(sc.state) && sc.state.kind != Init)
    {
      v := Verdict(false, None);
      match h
      case OnValueA =>
        if Level(Init) <= Level(sc.state.kind) {
          records := records[id := records[id].(valueA := ReadU32(body))];
          sc.Set(ReceivedA);
          v := Verdict(true, None);
        }
      case OnValueB =>
        if Level(Init) <= Level(sc.state.kind) {
          records := records[id := records[id].(valueB := ReadU32(body))];
          sc.Set(ReceivedB);
          v := Verdict(true, None);
        }
      case OnCompute =>
        if Level(Ready) <= Level(sc.state.kind) {
          var r := records[id];
          records := records[id := r.(sum := (r.valueA + r.valueB) % U32)];
          sc.Set(ReceivedCompute);
          v := Verdict(true, None);
        }
      case OnDownloadResult =>
        if Level(Computed) <= Level(sc.state.kind) {
          var message := ResultMessage(records[id].sum);
          sc.Set(ReceivedResult);
          v := Verdict(true, Some(message));
        }
      case OnCompareResult =>
        if Level(Computed) <= Level(sc.state.kind) {
          var message := ResultMessage(if records[id].sum == ReadU32(body) then 1 else 0);
          sc.Set(ReceivedResult);
          v := Verdict(true, Some(message));
        }
    }
  }

  /** `Server::Impl` with the context copies of its resource containers. `boot` is the
      application at the start, `history` the requests evaluated so far by all workers and what
      was decided about them. */
  class Server {
    const initial: State
    const container: Container
    var contexts: map<int, StateContext>
    ghost const boot: App
    ghost var history: seq<Judgement>

    /** The objects stand for the application state `app`. A context either still points to
        the one initial state object or to an object of a later state. */
    ghost predicate Represents(app: App)
      reads this`contexts, initial, container, contexts.Values, set c | c in contexts.Values :: c.state
    {
      && initial.kind == Init
      && app.funcmap == container.funcmap && app.template == container.template
      && app.records == container.records
      && app.sawA == initial.receivedA && app.sawB == initial.receivedB
      && (forall i :: i in contexts ==>
            && contexts[i].owner == i
            && contexts[i].state.kind == KindOf(app, i)
            && (contexts[i].state == initial || contexts[i].state.kind != Init))
      && (forall i :: i !in contexts ==> KindOf(app, i) == Init)
    }

    ghost predicate Valid()
      reads this, initial, container, contexts.Values, set c | c in contexts.Values :: c.state
    {
      Represents(AfterAll(boot, Demands(history))) && Judged(boot, history)
    }

    constructor (state: State, container: Container)
      requires state.kind == Init && !state.receivedA && !state.receivedB && container.records == map[]
      ensures this.container == container && this.initial == state && contexts == map[]
      ensures Valid() && boot == Start(container.funcmap, container.template) && history == []
    {
      initial := state;
      this.container := container;
      contexts := map[];
      boot, history := Start(container.funcmap, container.template), [];
    }

    /** `ResourceContainer` copies the context, not the state it points to. */
    method Connect(id: int)
      requires Valid() && id !in contexts
      modifies this`contexts
      ensures contexts.Keys == old(contexts).Keys + {id} && contexts[id].state == initial
      ensures Valid()
    {
      var copy := new StateContext(initial, id);
      contexts := contexts[id := copy];
    }

    /** An evaluation on one connection's worker is the application step on the whole server. */
    method Evaluate(id: int, code: uint64, body: seq<byte>) returns (v: Verdict)
      requires Valid() && id in contexts
      modifies this`history, container`records, contexts[id], contexts[id].state
      ensures Valid()
      ensures history == old(history) + [Judgement(Demand(id, code, body), v)]
      ensures v == VerdictOn(AfterAll(boot, Demands(old(history))), Demand(id, code, body))
      ensures contexts[id].state == old(contexts[id].state) || fresh(contexts[id].state)
    {
      v := EvaluateIn(id, code, body, AfterAll(boot, Demands(history)));
      Remember(Judgement(Demand(id, code, body), v));
    }

    /** The history after an evaluation that the objects already stand for. */
    ghost method Remember(j: Judgement)
      requires Judged(boot, history) && j.verdict == VerdictOn(AfterAll(boot, Demands(history)), j.demand)
      requires Represents(After(AfterAll(boot, Demands(history)), j.demand))
      modifies this`history
      ensures Valid() && history == old(history) + [j]
    {
      JudgedMore(boot, history, j);
      history := history + [j];
    }

    method EvaluateIn(id: int, code: uint64, body: seq<byte>, ghost app: App) returns (v: Verdict)
      requires Represents(app) && id in contexts
      modifies container`records, contexts[id], contexts[id].state
      ensures v == VerdictOn(app, Demand(id, code, body))
      ensures Represents(After(app, Demand(id, code, body)))
      ensures contexts[id].state == old(contexts[id].state) || fresh(contexts[id].state)
    {
      var sc := contexts[id];
      ghost var d := Demand(id, code, body);
      ghost var s0 := sc.state;
      v := container.Eval(id, code, body, sc, app);
      ghost var app' := After(app, d);
      forall i | i in contexts
        ensures contexts[i].owner == i && contexts[i].state.kind == KindOf(app', i) && (contexts[i].state == initial || contexts[i].state.kind != Init)
      {
        if i != id {
          OthersUntouched(app, d, i);
        }
      }
      forall i | i !in contexts ensures KindOf(app', i) == Init {
        OthersUntouched(app, d, i);
      }
      if s0.kind != Init {
        FlagsOnlyFromInit(app, d);
      }
    }
  }

  lemma FlagsOnlyFromInit(app: App, d: Demand)
    requires KindOf(app, d.id) != Init
    ensures After(app, d).sawA == app.sawA && After(app, d).sawB == app.sawB
  {
  }

  // ---- the two server programs -------------------------------------------------------

  /** The objects that the multi-client program makes stand for the application's first state
      with that program's callbacks and data. */
  method BootMultiClient(data: Record) returns (server: Server)
    ensures fresh(server) && fresh(server.initial) && fresh(server.container)
    ensures server.Valid() && server.contexts == map[]
    ensures server.boot == Start(MultiClient(), data) && server.history == []
  {
    var state := new State(Init);
    var container := new Container();
    container.SetUpMultiClient(data);
    server := new Server(state, container);
  }

  method BootAddServer(data: Record) returns (server: Server)
    ensures fresh(server) && fresh(server.initial) && fresh(server.container)
    ensures server.Valid() && server.contexts == map[]
    ensures server.boot == Start(AddServer(), data) && server.history == []
  {
    var state := new State(Init);
    var container := new Container();
    container.SetUpAddServer(data);
    server := new Server(state, container);
  }
}
