/**
 The HTTP side: the route table, the four handlers and the port setting.
 A handler is given the path variables the router extracted and returns the
 writes it makes to the response, in order: `Header(code)` for each
 `WriteHeader` and `Body(text)` for each `Write`.
 */
module Http {
  import opened KeyValue

  datatype Ev = Header(code: int) | Body(text: string)

  const StatusOK := 200
  const StatusBadRequest := 400
  const DefaultPort := "8080"

  /** One request as the router sees it after matching a route. */
  datatype Request =
    | Health
    | SetReq(key: string, value: string)
    | GetReq(key: string)
    | DeleteReq(key: string)

  /** The table after a request, and what the request wrote. */
  datatype Outcome = Outcome(store: map<string, string>, events: seq<Ev>)

  /** The writes a handler makes when its key path variable is empty;
      the GET and delete handlers carry on after them. */
  function KeyRequired(key: string): seq<Ev>
  {
    if key == "" then [Header(StatusBadRequest), Body("key is required")] else []
  }

  /** Set handler: reject a missing key or value before touching the table;
      otherwise insert-if-absent and answer "ok". */
  function SetOutcome(m: map<string, string>, key: string, value: string): Outcome
  {
    if key == "" || value == "" then
      Outcome(m, [Header(StatusBadRequest), Body("key/value is required")])
    else
      Outcome(Inserted(m, key, value), [Header(StatusOK), Body("ok")])
  }

  /** GET handler: the empty-key complaint (with no early return), then
      the value with 200 on a hit, or 400 "value not found" on a miss. */
  function GetEvents(m: map<string, string>, key: string): seq<Ev>
  {
    var (value, found) := Lookup(m, key);
    KeyRequired(key) +
    if found then [Header(StatusOK), Body(value)]
    else [Header(StatusBadRequest), Body("value not found")]
  }

  /** Delete handler: the empty-key complaint (with no early return), then
      an unconditional delete and "ok". */
  function DeleteOutcome(m: map<string, string>, key: string): Outcome
  {
    Outcome(Removed(m, key), KeyRequired(key) + [Header(StatusOK), Body("ok")])
  }

  /** A missing key or value gets exactly one 400 and its message, and the
      table is not touched. */
  lemma SetRejectsMissing(m: map<string, string>, key: string, value: string)
    requires key == "" || value == ""
    ensures SetOutcome(m, key, value).store == m
    ensures SetOutcome(m, key, value).events == [Header(StatusBadRequest), Body("key/value is required")]
  {
  }

  /** With both present, the pair is inserted if the key is absent, an
      existing value is kept, and the answer is 200 "ok" either way. */
  lemma SetAccepts(m: map<string, string>, key: string, value: string)
    requires key != "" && value != ""
    ensures SetOutcome(m, key, value).events == [Header(StatusOK), Body("ok")]
    ensures key !in m ==> SetOutcome(m, key, value).store == m[key := value]
    ensures key in m ==> SetOutcome(m, key, value).store == m
  {
  }

  /** A GET never changes the table (see Step); with a non-empty key a hit
      answers 200 and the value, a miss 400 "value not found". */
  lemma GetAnswers(m: map<string, string>, key: string)
    requires key != ""
    ensures key in m ==> GetEvents(m, key) == [Header(StatusOK), Body(m[key])]
    ensures key !in m ==> GetEvents(m, key) == [Header(StatusBadRequest), Body("value not found")]
  {
  }

  /** With an empty key the GET handler complains and then goes on to look
      up the empty key all the same. */
  lemma GetFallsThrough(m: map<string, string>)
    ensures |GetEvents(m, "")| == 4
    ensures GetEvents(m, "")[..2] == [Header(StatusBadRequest), Body("key is required")]
    ensures "" in m ==> GetEvents(m, "")[2..] == [Header(StatusOK), Body(m[""])]
    ensures "" !in m ==> GetEvents(m, "")[2..] == [Header(StatusBadRequest), Body("value not found")]
  {
  }

  /** Delete always removes the key and always ends in 200 "ok"; an empty
      key adds the complaint in front and is deleted all the same. */
  lemma DeleteAnswers(m: map<string, string>, key: string)
    ensures DeleteOutcome(m, key).store == Removed(m, key)
    ensures key != "" ==> DeleteOutcome(m, key).events == [Header(StatusOK), Body("ok")]
    ensures key == "" ==>
              DeleteOutcome(m, key).events ==
              [Header(StatusBadRequest), Body("key is required"), Header(StatusOK), Body("ok")]
  {
  }

  /** Deleting through the handler twice leaves the table as once, and both
      calls answer the same. */
  lemma DeleteHandlerIdempotent(m: map<string, string>, key: string)
    ensures DeleteOutcome(DeleteOutcome(m, key).store, key) == DeleteOutcome(m, key)
  {
  }

  /** The route table: which handler serves which request, and its effect. */
  function Step(m: map<string, string>, req: Request): (o: Outcome)
    ensures !req.SetReq? && !req.DeleteReq? ==> o.store == m
    ensures req.Health? ==> o.events == [Body("ok")]
  {
    match req
    case Health => Outcome(m, [Body("ok")])
    case SetReq(key, value) => SetOutcome(m, key, value)
    case GetReq(key) => Outcome(m, GetEvents(m, key))
    case DeleteReq(key) => DeleteOutcome(m, key)
  }

  /** The health check: a body "ok" and no explicit status write. */
  method Ping() returns (evs: seq<Ev>)
    ensures evs == [Body("ok")]
  {
    evs := [];
    evs := evs + [Body("ok")];
  }

  /** The port the server listens on: PORT when set, 8080 when empty. */
  function ListenPort(env: string): (port: string)
    ensures port != ""
    ensures env != "" ==> port == env
    ensures env == "" ==> port == DefaultPort
  {
    if env == "" then DefaultPort else env
  }

  /** The address handed to the listener: a colon and the chosen port. */
  function ListenAddress(env: string): (addr: string)
    ensures |addr| >= 2 && addr[0] == ':'
    ensures addr[1..] == ListenPort(env)
  {
    ":" + ListenPort(env)
  }

  /** The application: the shared store that every handler uses. */
  class App {
    const kvs: Store

    constructor (kvs: Store)
      ensures this.kvs == kvs
    {
      this.kvs := kvs;
    }

    method SetHandler(key: string, value: string) returns (evs: seq<Ev>)
      modifies kvs
      ensures Outcome(kvs.m, evs) == SetOutcome(old(kvs.m), key, value)
    {
      evs := [];
      if key == "" || value == "" {
        evs := evs + [Header(StatusBadRequest)];
        evs := evs + [Body("key/value is required")];
        return;
      }
      kvs.Set(key, value);
      evs := evs + [Header(StatusOK)];
      evs := evs + [Body("ok")];
    }

    method GetHandler(key: string) returns (evs: seq<Ev>)
      ensures evs == GetEvents(kvs.m, key)
    {
      evs := [];
      if key == "" {
        evs := evs + [Header(StatusBadRequest)];
        evs := evs + [Body("key is required")];
      }
      var value, found := kvs.Get(key);
      if !found {
        evs := evs + [Header(StatusBadRequest)];
        evs := evs + [Body("value not found")];
        return;
      }
      evs := evs + [Header(StatusOK)];
      evs := evs + [Body(value)];
    }

    method DeleteHandler(key: string) returns (evs: seq<Ev>)
      modifies kvs
      ensures Outcome(kvs.m, evs) == DeleteOutcome(old(kvs.m), key)
    {
      evs := [];
      if key == "" {
        evs := evs + [Header(StatusBadRequest)];
        evs := evs + [Body("key is required")];
      }
      kvs.Delete(key);
      evs := evs + [Header(StatusOK)];
      evs := evs + [Body("ok")];
    }

    /** Dispatches a matched request to the handler its route names. */
    method Serve(req: Request) returns (evs: seq<Ev>)
      modifies kvs
      ensures Outcome(kvs.m, evs) == Step(old(kvs.m), req)
    {
      match req
      case Health =>
        evs := Ping();
      case SetReq(key, value) =>
        evs := SetHandler(key, value);
      case GetReq(key) =>
        evs := GetHandler(key);
      case DeleteReq(key) =>
        evs := DeleteHandler(key);
    }
  }

  /** The end-to-end exchange against a fresh store: set foo to bar, read
      it back, delete it, and read it again. */
  method Scenario() returns (r1: seq<Ev>, r2: seq<Ev>, r3: seq<Ev>, r4: seq<Ev>)
    ensures r1 == [Header(StatusOK), Body("ok")]
    ensures r2 == [Header(StatusOK), Body("bar")]
    ensures r3 == [Header(StatusOK), Body("ok")]
    ensures r4 == [Header(StatusBadRequest), Body("value not found")]
  {
    var kvs := new Store();
    var app := new App(kvs);
    r1 := app.SetHandler("foo", "bar");
    r2 := app.GetHandler("foo");
    r3 := app.DeleteHandler("foo");
    r4 := app.GetHandler("foo");
  }
}
