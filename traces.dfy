/**
 Requests served one after another against one table: the order in which
 the concurrent map linearizes them. These lemmas state what holds across
 any such sequence: the table stays free of empty keys and values, a stored
 value is never overwritten, and what a key ends up holding depends only
 on the requests for that key.
 */
module Traces {
  import opened KeyValue
  import opened Http

  /** The table after a sequence of requests, and each request's writes. */
  datatype Served = Served(store: map<string, string>, replies: seq<seq<Ev>>)

  /** Serves the requests in order; one reply per request. */
  function Run(m: map<string, string>, reqs: seq<Request>): (s: Served)
    ensures |s.replies| == |reqs|
    ensures reqs != [] ==> s.replies[0] == Step(m, reqs[0]).events
    decreases |reqs|
  {
    if reqs == [] then Served(m, [])
    else
      var o := Step(m, reqs[0]);
      var rest := Run(o.store, reqs[1..]);
      Served(rest.store, [o.events] + rest.replies)
  }

  /** The request names key k in its path. */
  predicate Touches(req: Request, k: string)
  {
    !req.Health? && req.key == k
  }

  /** The requests of reqs that name key k, in their order. */
  function OnKey(reqs: seq<Request>, k: string): (r: seq<Request>)
    ensures |r| <= |reqs|
    ensures forall i :: 0 <= i < |r| ==> Touches(r[i], k)
    decreases |reqs|
  {
    if reqs == [] then []
    else if Touches(reqs[0], k) then [reqs[0]] + OnKey(reqs[1..], k)
    else OnKey(reqs[1..], k)
  }

  /** Neither the empty key nor an empty value is stored: what the handlers
      keep true, because the set handler refuses both. */
  predicate WellFormed(m: map<string, string>)
  {
    "" !in m && forall k :: k in m ==> m[k] != ""
  }

  /** Every request keeps the table well formed. */
  lemma StepPreservesWellFormed(m: map<string, string>, req: Request)
    requires WellFormed(m)
    ensures WellFormed(Step(m, req).store)
  {
  }

  /** Any sequence of requests keeps the table well formed. */
  lemma {:induction false} RunPreservesWellFormed(m: map<string, string>, reqs: seq<Request>)
    requires WellFormed(m)
    ensures WellFormed(Run(m, reqs).store)
    decreases |reqs|
  {
    if reqs != [] {
      StepPreservesWellFormed(m, reqs[0]);
      RunPreservesWellFormed(Step(m, reqs[0]).store, reqs[1..]);
    }
  }

  /** On a well-formed table a GET with an empty key always ends in
      "value not found", right after the "key is required" complaint. */
  lemma GetEmptyKeyOnWellFormed(m: map<string, string>)
    requires WellFormed(m)
    ensures Step(m, GetReq("")).events ==
            [Header(StatusBadRequest), Body("key is required"),
             Header(StatusBadRequest), Body("value not found")]
  {
  }

  /** On a well-formed table a GET hit never answers with an empty body. */
  lemma GetHitNonEmpty(m: map<string, string>, k: string)
    requires WellFormed(m) && k in m
    ensures Step(m, GetReq(k)).events == [Header(StatusOK), Body(m[k])]
    ensures m[k] != ""
  {
  }

  /** No overwrite: once a key holds a value, only a delete of that key
      can change it, however many requests follow. */
  lemma {:induction false} NoOverwrite(m: map<string, string>, reqs: seq<Request>, k: string)
    requires k in m
    requires forall i :: 0 <= i < |reqs| ==> reqs[i] != DeleteReq(k)
    ensures k in Run(m, reqs).store && Run(m, reqs).store[k] == m[k]
    decreases |reqs|
  {
    if reqs != [] {
      var m1 := Step(m, reqs[0]).store;
      assert reqs[0] != DeleteReq(k);
      assert k in m1 && m1[k] == m[k];
      forall i | 0 <= i < |reqs[1..]|
        ensures reqs[1..][i] != DeleteReq(k)
      {
        assert reqs[1..][i] == reqs[i + 1];
      }
      NoOverwrite(m1, reqs[1..], k);
    }
  }

  /** The other half: a key that is absent stays absent until some request
      sets it, whatever is set or deleted under other keys. */
  lemma {:induction false} NeverSetStaysAbsent(m: map<string, string>, reqs: seq<Request>, k: string)
    requires k !in m
    requires forall i :: 0 <= i < |reqs| ==> !(reqs[i].SetReq? && reqs[i].key == k)
    ensures k !in Run(m, reqs).store
    decreases |reqs|
  {
    if reqs != [] {
      var m1 := Step(m, reqs[0]).store;
      assert !(reqs[0].SetReq? && reqs[0].key == k);
      assert k !in m1;
      forall i | 0 <= i < |reqs[1..]|
        ensures !(reqs[1..][i].SetReq? && reqs[1..][i].key == k)
      {
        assert reqs[1..][i] == reqs[i + 1];
      }
      NeverSetStaysAbsent(m1, reqs[1..], k);
    }
  }

  /** From a fresh table, a key that no request has set is not found. */
  lemma NeverSetNotFound(reqs: seq<Request>, k: string)
    requires forall i :: 0 <= i < |reqs| ==> !(reqs[i].SetReq? && reqs[i].key == k)
    ensures Lookup(Run(map[], reqs).store, k) == ("", false)
  {
    NeverSetStaysAbsent(map[], reqs, k);
  }

  /** Serving a then b is serving a, then serving b from the table a left,
      with b's replies after a's: so each reply is that of its own request,
      served on the table the requests before it produced. */
  lemma {:induction false} RunAppend(m: map<string, string>, a: seq<Request>, b: seq<Request>)
    ensures Run(m, a + b) ==
            Served(Run(Run(m, a).store, b).store, Run(m, a).replies + Run(Run(m, a).store, b).replies)
    decreases |a|
  {
    if a == [] {
      assert a + b == b;
    } else {
      assert (a + b)[0] == a[0];
      assert (a + b)[1..] == a[1..] + b;
      RunAppend(Step(m, a[0]).store, a[1..], b);
    }
  }

  /** Reply i of a sequence is what request i gets on the table left by the
      requests before it. */
  lemma ReplyAt(m: map<string, string>, reqs: seq<Request>, i: nat)
    requires i < |reqs|
    ensures Run(m, reqs).replies[i] == Step(Run(m, reqs[..i]).store, reqs[i]).events
  {
    assert reqs == reqs[..i] + reqs[i..];
    RunAppend(m, reqs[..i], reqs[i..]);
  }

  /** A request that names another key leaves k's entry alone. */
  lemma StepElsewhere(m: map<string, string>, req: Request, k: string)
    requires !Touches(req, k)
    ensures Lookup(Step(m, req).store, k) == Lookup(m, k)
  {
  }

  /** Two tables that agree on k still agree on k after the same request,
      and a request for k gets the same reply from both. */
  lemma StepAgrees(m1: map<string, string>, m2: map<string, string>, req: Request, k: string)
    requires Lookup(m1, k) == Lookup(m2, k)
    ensures Lookup(Step(m1, req).store, k) == Lookup(Step(m2, req).store, k)
    ensures Touches(req, k) ==> Step(m1, req).events == Step(m2, req).events
  {
  }

  /** Two tables that agree on k still agree on k after the same requests. */
  lemma {:induction false} RunAgrees(m1: map<string, string>, m2: map<string, string>, reqs: seq<Request>, k: string)
    requires Lookup(m1, k) == Lookup(m2, k)
    ensures Lookup(Run(m1, reqs).store, k) == Lookup(Run(m2, reqs).store, k)
    decreases |reqs|
  {
    if reqs != [] {
      StepAgrees(m1, m2, reqs[0], k);
      RunAgrees(Step(m1, reqs[0]).store, Step(m2, reqs[0]).store, reqs[1..], k);
    }
  }

  /** Per-key independence: what key k holds after any sequence of requests
      is what it holds after only the requests for k, with the others
      left out. */
  lemma {:induction false} OnlyOwnKeyMatters(m: map<string, string>, reqs: seq<Request>, k: string)
    ensures Lookup(Run(m, reqs).store, k) == Lookup(Run(m, OnKey(reqs, k)).store, k)
    decreases |reqs|
  {
    if reqs != [] {
      var m1 := Step(m, reqs[0]).store;
      OnlyOwnKeyMatters(m1, reqs[1..], k);
      if !Touches(reqs[0], k) {
        StepElsewhere(m, reqs[0], k);
        RunAgrees(m1, m, OnKey(reqs[1..], k), k);
      }
    }
  }

  /** A health check anywhere in a sequence leaves the table as it was. */
  lemma {:induction false} HealthChangesNothing(m: map<string, string>, reqs: seq<Request>)
    requires forall i :: 0 <= i < |reqs| ==> reqs[i] == Health
    ensures Run(m, reqs).store == m
    ensures forall i :: 0 <= i < |reqs| ==> Run(m, reqs).replies[i] == [Body("ok")]
    decreases |reqs|
  {
    if reqs != [] {
      assert forall i :: 0 <= i < |reqs[1..]| ==> reqs[1..][i] == reqs[i + 1];
      HealthChangesNothing(m, reqs[1..]);
      var rest := Run(m, reqs[1..]);
      assert Run(m, reqs).replies == [[Body("ok")]] + rest.replies;
    }
  }

  /** The end-to-end exchange from an empty table: set foo to bar, read it,
      delete it, read it again. */
  lemma EndToEnd()
    ensures Run(map[], [SetReq("foo", "bar"), GetReq("foo"), DeleteReq("foo"), GetReq("foo")]) ==
            Served(map[], [[Header(StatusOK), Body("ok")],
                           [Header(StatusOK), Body("bar")],
                           [Header(StatusOK), Body("ok")],
                           [Header(StatusBadRequest), Body("value not found")]])
  {
    var reqs := [SetReq("foo", "bar"), GetReq("foo"), DeleteReq("foo"), GetReq("foo")];
    var m1 := map["foo" := "bar"];
    var ok := [Header(StatusOK), Body("ok")];
    var miss := [Header(StatusBadRequest), Body("value not found")];
    assert Lookup(map[], "foo") == ("", false);
    assert reqs[1..][1..] == reqs[2..];
    assert reqs[2..][1..] == reqs[3..];
    assert reqs[3..][1..] == [];
    assert KeyRequired("foo") == [];
    assert Step(map[], GetReq("foo")) == Outcome(map[], miss);
    assert Run(map[], reqs[3..]) == Served(map[], [miss]);
    assert Step(m1, reqs[2]) == Outcome(map[], ok) by {
      assert m1 - {"foo"} == map[];
    }
    assert Run(m1, reqs[2..]) == Served(map[], [ok, miss]);
    assert Step(m1, reqs[1]) == Outcome(m1, [Header(StatusOK), Body("bar")]);
    assert Run(m1, reqs[1..]) == Served(map[], [[Header(StatusOK), Body("bar")], ok, miss]);
    assert Step(map[], reqs[0]) == Outcome(m1, ok);
  }
}
