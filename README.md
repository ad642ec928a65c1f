# gokv: a verified model of the key-value table and its HTTP handlers

gokv is a small in-memory key-value server. It keeps a string-to-string
table. Four routes use it: `/health`, `/set/{key}/{value}`, `/get/{key}` and
`/delete/{key}`. This project models all of its logic in Dafny:

- `store.dfy` (module `KeyValue`) holds the table. The functions `Inserted`,
  `Removed` and `Lookup` on `map` values state what `Set`, `Delete` and `Get`
  do. The class `Store` keeps the table in its field `m`, and its methods
  update that field in place.
  - `Set` is insert-if-absent (`LoadOrStore`). It never overwrites a value and
    never reports an error.
  - `Delete` is idempotent.
  - `setupRoute`, despite its name, is a second copy of `Delete`.
- `server.dfy` (module `Http`) holds the handlers.
  - The set, get and delete handlers are methods of `App`, the application
    object that holds the shared store. `Ping` is a plain method, as `ping`
    is a free function. The router has already extracted the path variables,
    so a handler takes them as arguments.
  - A handler returns its writes to the response, in order: `Header(code)` for
    a `WriteHeader`, `Body(text)` for a `Write`.
  - `Step` is the route table. For each request it gives the new table and
    the writes.
  - `ListenPort` models the `PORT` defaulting.
- `traces.dfy` (module `Traces`) serves a sequence of requests one after
  another with `Run`. Its lemmas hold for any such sequence:
  - The table never holds an empty key or an empty value.
  - A stored value changes only if that key is deleted, and an absent key
    stays absent until it is set.
  - Each reply is its request's reply on the table the earlier requests left.
  - What a key holds depends only on the requests for that key.
  - The end-to-end exchange "set, get, delete, get" gives the expected
    replies.

The GET and delete handlers do not return after their "key is required"
complaint. The model keeps this fall-through: with an empty key, the GET
handler still looks up the empty key, and the delete handler still deletes
it. Unlike the GET and delete handlers, the set handler returns right after
its complaint on a missing key or value (main.go:103), so the model does not
call `Set` in that case.

## Model

| member | source | states |
|---|---|---|
| `KeyValue.Inserted` | main.go:38-40 | the key is present afterwards; an existing entry is kept and the table is unchanged; an absent key gets the new value; no other entry changes |
| `KeyValue.Removed` | main.go:50-52 | the key is absent afterwards; every other entry keeps its value; deleting an absent key changes nothing |
| `KeyValue.Lookup` | main.go:42-48 | found exactly when the key is present; the stored value on a hit, the empty string on a miss |
| `KeyValue.EmptyMisses` | main.go:42-48 | a freshly created table finds no key |
| `KeyValue.GetAfterSet` | main.go:38-48 | after a Set of an absent key, Get returns that value with found true |
| `KeyValue.SetKeepsFirst` | main.go:38-40 | a second Set of the same key leaves the table, and what Get returns, as after the first |
| `KeyValue.SetsOnDistinctKeysCommute` | main.go:38-40 | Sets on two different keys give the same table in either order |
| `KeyValue.GetAfterDelete` | main.go:42-52 | after a Delete, Get reports not found, from any table |
| `KeyValue.DeleteIdempotent` | main.go:50-52 | deleting twice equals deleting once |
| `KeyValue.Store.constructor` | main.go:116-118 | the application starts with an empty table |
| `KeyValue.Store.Set` | main.go:38-40 | the table becomes the insert-if-absent update of the old table |
| `KeyValue.Store.Get` | main.go:42-48 | returns the stored value and true on a hit, the empty string and false on a miss; the table is not modified |
| `KeyValue.Store.Delete` | main.go:50-52 | the table becomes the old table without the key |
| `KeyValue.Store.SetupRoute` | main.go:54-56 | exactly the same effect as Delete |
| `Http.KeyRequired` | main.go:65-67 | has no ensures of its own: the writes for an empty key (also main.go:84-86), read through `Http.GetFallsThrough` and `Http.DeleteAnswers` |
| `Http.SetOutcome` | main.go:100-109 | has no ensures of its own: the set handler's table and writes, whose properties `Http.SetRejectsMissing` and `Http.SetAccepts` state |
| `Http.GetEvents` | main.go:65-79 | has no ensures of its own: the get handler's writes, whose properties `Http.GetAnswers`, `Http.GetFallsThrough` and `Traces.GetEmptyKeyOnWellFormed` state |
| `Http.DeleteOutcome` | main.go:84-92 | has no ensures of its own: the delete handler's table and writes, whose properties `Http.DeleteAnswers` and `Http.DeleteHandlerIdempotent` state |
| `Http.SetRejectsMissing` | main.go:100-104 | an empty key or value gets exactly 400 and "key/value is required", and the table is untouched |
| `Http.SetAccepts` | main.go:106-109 | with both present, the answer is 200 "ok"; an absent key is added; a present key keeps its old value |
| `Http.GetAnswers` | main.go:70-79 | with a non-empty key, a hit answers 200 and the value, and a miss answers 400 "value not found" |
| `Http.GetFallsThrough` | main.go:65-79 | with an empty key, "key is required" with 400 comes first, and the lookup of the empty key still follows with its own answer |
| `Http.DeleteAnswers` | main.go:84-92 | the key is always deleted and the reply always ends in 200 "ok"; an empty key puts 400 "key is required" in front |
| `Http.DeleteHandlerIdempotent` | main.go:84-92 | two deletes through the handler leave the same table and the same reply as one |
| `Http.Step` | main.go:21-26 | each route runs its handler; health and get requests leave the table unchanged; health writes only "ok" |
| `Http.Ping` | main.go:58-60 | the health handler writes the body "ok" and no status |
| `Http.ListenPort` | main.go:28-31 | the port is never empty: 8080 when PORT is empty, PORT unchanged otherwise |
| `Http.ListenAddress` | main.go:34 | the listen address is a colon followed by the chosen port |
| `Http.App.constructor` | main.go:114-119 | the application holds the given store |
| `Http.App.SetHandler` | main.go:96-110 | the writes and the new table are those of the set handler's specification on the old table |
| `Http.App.GetHandler` | main.go:62-80 | the writes are those of the get handler's specification on the current table; the table is not modified |
| `Http.App.DeleteHandler` | main.go:81-94 | the writes and the new table are those of the delete handler's specification on the old table |
| `Http.App.Serve` | main.go:21-26 | dispatching a request has exactly the effect the route table gives |
| `Http.Scenario` | main.go:62-110 | on a fresh store: set foo/bar gives 200 "ok", get foo gives 200 "bar", delete foo gives 200 "ok", and get foo then gives 400 "value not found" |
| `Traces.Run` | main.go:21-26 | serving a sequence of requests gives one reply per request, the first being that request's own reply |
| `Traces.StepPreservesWellFormed` | main.go:96-110 | no request stores an empty key or an empty value into a table that has none |
| `Traces.RunPreservesWellFormed` | main.go:96-110 | the same holds for any sequence of requests |
| `Traces.GetEmptyKeyOnWellFormed` | main.go:65-79 | on such a table, a get with an empty key always writes 400 "key is required" and then 400 "value not found" |
| `Traces.GetHitNonEmpty` | main.go:70-79 | on such a table, a get hit answers 200 with a non-empty value |
| `Traces.NoOverwrite` | main.go:38-40 | a stored value survives every sequence of requests that does not delete its key |
| `Traces.NeverSetStaysAbsent` | main.go:38-56 | a key absent from the table stays absent through every sequence of requests that does not set it |
| `Traces.NeverSetNotFound` | main.go:42-56 | from a fresh table, a get of a key that no request has set reports not found, whatever other keys were set or deleted |
| `Traces.RunAppend` | main.go:21-26 | serving two sequences in turn is serving the second from the table the first left, with its replies after the first's |
| `Traces.ReplyAt` | main.go:21-26 | each reply in a sequence is its own request's reply on the table the earlier requests left |
| `Traces.StepElsewhere` | main.go:38-56 | a request for another key leaves a key's entry unchanged |
| `Traces.StepAgrees` | main.go:38-56 | two tables that agree on a key still agree on it after any request, and a request for that key gets the same reply from both |
| `Traces.RunAgrees` | main.go:38-56 | the same holds after any sequence of requests |
| `Traces.OnlyOwnKeyMatters` | main.go:38-56 | what a key holds after any sequence of requests equals what it holds after the requests for that key alone |
| `Traces.HealthChangesNothing` | main.go:58-60 | health checks never change the table and each one answers "ok" |
| `Traces.EndToEnd` | main.go:62-110 | from an empty table, the exchange set foo/bar, get foo, delete foo, get foo ends with an empty table and the replies 200 "ok", 200 "bar", 200 "ok", 400 "value not found" |

## Left out

- Concurrency of `sync.Map` (main.go:13): the model is sequential. Each store call is one atomic step, and `Run` serves the requests one after another. This loses nothing: each handler makes at most one store call (main.go:70, 89, 106), so a concurrent execution gives the same table and replies as serving the requests in the order of those calls.
- Routing (main.go:21-26): gorilla/mux path matching and path-variable extraction are not modelled (the library is not part of this model). `Request` holds the variables as already extracted. Whether the router would match a route with an empty segment at all is not modelled.
- What `net/http` makes of the writes is not modelled. This covers the implicit 200 when a handler writes a body first (as `ping` does), a second `WriteHeader` being ignored, and how the bodies are joined. The model gives the sequence of writes.
- `http.ListenAndServe`, `log.Println`, `log.Fatal` and `os.Getenv` (main.go:28-34) are I/O. The value of `PORT` is a parameter of `ListenPort`, and the log line and the listener are not modelled.
- The type assertion `value.(string)` (main.go:47) cannot fail here, because the table is typed `map<string, string>`.
- Go strings are byte sequences, while the model uses Dafny strings (sequences of characters). Nothing in the code inspects individual bytes.
- `main` (main.go:112-123) is modelled only as the two constructors it calls.
