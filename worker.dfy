/**
 * The worker process (backend/redis/worker.py): at start-up it creates the
 * consumer groups of both streams, tolerating groups that already exist; then
 * each iteration reads at most one request entry, acknowledges it, decodes the
 * prompt, asks the model and appends one response entry with the same id.
 * An exception while handling an entry is swallowed and nothing is appended;
 * an exception from the read itself ends the loop.
 *
 * The model call is a parameter: a total function from the model name and the
 * decoded prompt to the completion (its `model_dump()`), or `None` when it fails.
 */
module Worker {
  import opened Wrappers
  import opened Json
  import opened Faults
  import opened Streams

  const RequestStream := "request_stream"
  const ResponseStream := "response_stream"
  const RequestGroup := "request_group"
  /** The response stream's group carries the same name as the request stream's. */
  const ResponseGroup := "request_group"
  const RequestConsumer := "Worker"
  const ResponseConsumer := "Response_Worker"

  type Inference = (string, Json) -> Option<Json>

  // ------------------------------------------------------------ start-up

  /** The two guarded `XGROUP CREATE ... id="0" mkstream=True` calls; BUSYGROUP is ignored. */
  function Startup(db: Db): (r: Db)
    ensures HasGroup(r, RequestStream, RequestGroup) && HasGroup(r, ResponseStream, ResponseGroup)
    ensures forall k :: Entries(r, k) == Entries(db, k)
    ensures forall k, g :: HasGroup(db, k, g) ==> HasGroup(r, k, g) && r[k].groups[g] == db[k].groups[g]
    ensures forall k, g :: HasGroup(r, k, g) && !HasGroup(db, k, g) ==>
      (k, g) in {(RequestStream, RequestGroup), (ResponseStream, ResponseGroup)} && r[k].groups[g] == Group(0, {})
  {
    CreateGroup(CreateGroup(db, RequestStream, RequestGroup).1, ResponseStream, ResponseGroup).1
  }

  /** Start-up succeeds whether or not the groups exist, and a second run changes nothing. */
  lemma StartupIdempotent(db: Db)
    ensures Startup(Startup(db)) == Startup(db)
  {
    var once := Startup(db);
    var mid := CreateGroup(once, RequestStream, RequestGroup);
    assert mid == (false, once);
    CreateGroupIdempotent(CreateGroup(db, RequestStream, RequestGroup).1, ResponseStream, ResponseGroup);
    assert CreateGroup(once, ResponseStream, ResponseGroup) == (false, once);
  }

  lemma StartupValid(db: Db)
    requires Valid(db)
    ensures Valid(Startup(db))
  {
    CreateGroupValid(db, RequestStream, RequestGroup);
    CreateGroupValid(CreateGroup(db, RequestStream, RequestGroup).1, ResponseStream, ResponseGroup);
  }

  method CreateGroups(redis: Redis)
    modifies redis
    ensures redis.db == Startup(old(redis.db))
  {
    var _ := redis.XGroupCreate(RequestStream, RequestGroup);
    var _ := redis.XGroupCreate(ResponseStream, ResponseGroup);
  }

  // ------------------------------------------------------------ one request

  /** What handling one delivered request gives: the response entry, or the exception. */
  datatype Handled = Respond(entry: Fields) | Fail(fault: Fault)

  /** The response entry for a request id and the model's result. */
  function ResponseEntry(requestId: string, result: Json): Fields
  {
    map["id" := requestId, "response" := Encode(result)]
  }

  /** The body of the `try` after the acknowledgement: field reads, `json.loads`, the model call. */
  function Handle(f: Fields, infer: Inference): (r: Handled)
    ensures r.Respond? <==>
      && "id" in f && "model" in f && "prompt" in f
      && Decode(f["prompt"]).Some?
      && infer(f["model"], Decode(f["prompt"]).value).Some?
    ensures r.Respond? ==> r.entry == ResponseEntry(f["id"], infer(f["model"], Decode(f["prompt"]).value).value)
    ensures "id" !in f ==> r == Fail(KeyError("id"))
    ensures "id" in f && "model" !in f ==> r == Fail(KeyError("model"))
    ensures "id" in f && "model" in f && "prompt" !in f ==> r == Fail(KeyError("prompt"))
    ensures "id" in f && "model" in f && "prompt" in f && Decode(f["prompt"]).None? ==> r == Fail(JsonDecodeError)
  {
    if "id" !in f then Fail(KeyError("id"))
    else if "model" !in f then Fail(KeyError("model"))
    else if "prompt" !in f then Fail(KeyError("prompt"))
    else
      match Decode(f["prompt"])
      case None => Fail(JsonDecodeError)
      case Some(prompt) =>
        match infer(f["model"], prompt)
        case None => Fail(InferenceError)
        case Some(result) => Respond(ResponseEntry(f["id"], result))
  }

  /** The response field reads back as the model's result, and the entry has exactly
      the fields `id` and `response`. */
  lemma ResponseEntryDecodes(requestId: string, result: Json)
    ensures ResponseEntry(requestId, result).Keys == {"id", "response"}
    ensures ResponseEntry(requestId, result)["id"] == requestId
    ensures Decode(ResponseEntry(requestId, result)["response"]) == Some(result)
  {
    DecodeEncode(result);
  }

  /** How one iteration of `process_requests` ends. */
  datatype Outcome =
    | Idle                      // no new request entry
    | Responded(requestId: string)
    | Dropped(fault: Fault)     // caught by the `except`: nothing is appended
    | Crashed(fault: Fault)     // raised by the read, outside the `try`: the loop ends

  /** One iteration: read one entry, acknowledge it, then handle it. */
  function WorkerStep(db: Db, infer: Inference): (r: (Outcome, Db))
    requires Valid(db)
  {
    var (d, db1) := ReadNext(db, RequestStream, RequestGroup);
    match d
    case NoGroup => (Crashed(NoGroupError), db1)
    case NoNewEntry => (Idle, db1)
    case Delivered(id, f) =>
      var db2 := Acknowledge(db1, RequestStream, RequestGroup, id).1;
      match Handle(f, infer)
      case Fail(e) => (Dropped(e), db2)
      case Respond(entry) => (Responded(f["id"]), Append(db2, ResponseStream, entry).1)
  }

  lemma WorkerStepValid(db: Db, infer: Inference)
    requires Valid(db)
    ensures Valid(WorkerStep(db, infer).1)
  {
    var (d, db1) := ReadNext(db, RequestStream, RequestGroup);
    ReadNextValid(db, RequestStream, RequestGroup);
    if d.Delivered? {
      AcknowledgeValid(db1, RequestStream, RequestGroup, d.id);
      var db2 := Acknowledge(db1, RequestStream, RequestGroup, d.id).1;
      if Handle(d.fields, infer).Respond? {
        AppendValid(db2, ResponseStream, Handle(d.fields, infer).entry);
      }
    }
  }

  /** `process_requests`' loop body on the client. */
  method ProcessOne(redis: Redis, infer: Inference) returns (o: Outcome)
    requires Valid(redis.db)
    modifies redis
    ensures (o, redis.db) == WorkerStep(old(redis.db), infer)
    ensures Valid(redis.db)
  {
    WorkerStepValid(redis.db, infer);
    var d := redis.XReadGroup(RequestStream, RequestGroup);
    match d {
      case NoGroup =>
        return Crashed(NoGroupError);
      case NoNewEntry =>
        return Idle;
      case Delivered(id, f) =>
        var _ := redis.XAck(RequestStream, RequestGroup, id);
        if "id" !in f {
          return Dropped(KeyError("id"));
        }
        var requestId := f["id"];
        if "model" !in f {
          return Dropped(KeyError("model"));
        }
        var model := f["model"];
        if "prompt" !in f {
          return Dropped(KeyError("prompt"));
        }
        var prompt := Decode(f["prompt"]);
        if prompt.None? {
          return Dropped(JsonDecodeError);
        }
        var result := infer(model, prompt.value);
        if result.None? {
          return Dropped(InferenceError);
        }
        var _ := redis.XAdd(ResponseStream, ResponseEntry(requestId, result.value));
        return Responded(requestId);
    }
  }

  // ------------------------------------------------------------ what one iteration does

  /** With no request entry past the cursor the iteration changes nothing. */
  lemma StepIdle(db: Db, infer: Inference)
    requires Valid(db)
    requires HasGroup(db, RequestStream, RequestGroup)
    requires GroupOf(db, RequestStream, RequestGroup).lastDelivered == |db[RequestStream].entries|
    ensures WorkerStep(db, infer) == (Idle, db)
  {
  }

  /** Without the request group the read raises outside the `try`: the worker stops. */
  lemma StepCrashes(db: Db, infer: Inference)
    requires Valid(db)
    requires !HasGroup(db, RequestStream, RequestGroup)
    ensures WorkerStep(db, infer) == (Crashed(NoGroupError), db)
  {
  }

  /** A delivered request is read alone, acknowledged whatever follows, and answered by
      exactly one response entry when and only when handling succeeds; the request
      stream itself is never written. */
  lemma StepDelivers(db: Db, infer: Inference)
    requires Valid(db)
    requires HasGroup(db, RequestStream, RequestGroup)
    requires GroupOf(db, RequestStream, RequestGroup).lastDelivered < |db[RequestStream].entries|
    ensures var g := GroupOf(db, RequestStream, RequestGroup);
      var f := db[RequestStream].entries[g.lastDelivered];
      var (o, r) := WorkerStep(db, infer);
      && HasGroup(r, RequestStream, RequestGroup)
      && GroupOf(r, RequestStream, RequestGroup) == Group(g.lastDelivered + 1, g.pending)
      && Entries(r, RequestStream) == Entries(db, RequestStream)
      && (Handle(f, infer).Fail? ==> o == Dropped(Handle(f, infer).fault))
      && (Handle(f, infer).Fail? ==> Entries(r, ResponseStream) == Entries(db, ResponseStream))
      && (Handle(f, infer).Respond? ==> o == Responded(f["id"]))
      && (Handle(f, infer).Respond? ==>
            Entries(r, ResponseStream) == Entries(db, ResponseStream) + [Handle(f, infer).entry])
  {
    var g := GroupOf(db, RequestStream, RequestGroup);
    assert StreamValid(db[RequestStream]) && GroupValid(g, |db[RequestStream].entries|);
    assert g.lastDelivered !in g.pending;
    assert (g.pending + {g.lastDelivered}) - {g.lastDelivered} == g.pending;
  }

  /** An iteration never touches the consumer groups of the response stream: the
      worker only appends entries there. */
  lemma StepKeepsResponseGroups(db: Db, infer: Inference)
    requires Valid(db)
    ensures var r := WorkerStep(db, infer).1;
      ResponseStream in db ==> ResponseStream in r && r[ResponseStream].groups == db[ResponseStream].groups
  {
  }

  /** Every iteration keeps the request stream as it is, keeps the request group, moves
      its cursor at most one entry and either appends one response entry or none. */
  lemma StepEffects(db: Db, infer: Inference)
    requires Valid(db)
    ensures var (o, r) := WorkerStep(db, infer);
      var before := Entries(db, ResponseStream);
      && (o.Crashed? <==> !HasGroup(db, RequestStream, RequestGroup))
      && (o.Crashed? ==> r == db)
      && Entries(r, RequestStream) == Entries(db, RequestStream)
      && (HasGroup(db, RequestStream, RequestGroup) ==>
            && HasGroup(r, RequestStream, RequestGroup)
            && GroupOf(r, RequestStream, RequestGroup).lastDelivered <= GroupOf(db, RequestStream, RequestGroup).lastDelivered + 1)
      && (o.Responded? ==> |Entries(r, ResponseStream)| == |before| + 1)
      && (!o.Responded? ==> |Entries(r, ResponseStream)| == |before|)
      && Entries(r, ResponseStream)[..|before|] == before
  {
    if HasGroup(db, RequestStream, RequestGroup) {
      if GroupOf(db, RequestStream, RequestGroup).lastDelivered < |db[RequestStream].entries| {
        StepDelivers(db, infer);
      } else {
        StepIdle(db, infer);
      }
    }
  }

  // ------------------------------------------------------------ the loop

  /** `n` iterations of `while True`, or fewer when the read raises. */
  function Run(db: Db, infer: Inference, n: nat): (r: (seq<Outcome>, Db))
    requires Valid(db)
    ensures Valid(r.1)
    decreases n
  {
    if n == 0 then ([], db)
    else
      WorkerStepValid(db, infer);
      var (o, db1) := WorkerStep(db, infer);
      if o.Crashed? then ([o], db1)
      else
        var (os, db2) := Run(db1, infer, n - 1);
        ([o] + os, db2)
  }

  /** How many iterations appended a response. */
  function Responses(os: seq<Outcome>): nat
  {
    if os == [] then 0 else (if os[0].Responded? then 1 else 0) + Responses(os[1..])
  }

  /** `process_requests`, cut off after `n` iterations. */
  method ProcessRequests(redis: Redis, infer: Inference, n: nat) returns (outcomes: seq<Outcome>)
    requires Valid(redis.db)
    modifies redis
    ensures (outcomes, redis.db) == Run(old(redis.db), infer, n)
  {
    outcomes := [];
    var i := 0;
    assert [] + Run(redis.db, infer, n).0 == Run(redis.db, infer, n).0;
    while i < n
      invariant i <= n
      invariant Valid(redis.db)
      invariant Run(old(redis.db), infer, n) == (outcomes + Run(redis.db, infer, n - i).0, Run(redis.db, infer, n - i).1)
    {
      ghost var db0 := redis.db;
      RunUnfold(db0, infer, n - i);
      var o := ProcessOne(redis, infer);
      if o.Crashed? {
        outcomes := outcomes + [o];
        return;
      }
      ConsAssoc(outcomes, o, Run(redis.db, infer, n - i - 1).0);
      outcomes := outcomes + [o];
      i := i + 1;
    }
    assert outcomes + [] == outcomes;
  }

  /** One iteration of the loop, then the rest: `Run` unfolded once. */
  lemma RunUnfold(db: Db, infer: Inference, k: nat)
    requires Valid(db) && 0 < k
    ensures Valid(WorkerStep(db, infer).1)
    ensures var (o, r) := WorkerStep(db, infer);
      Run(db, infer, k) == if o.Crashed? then ([o], r) else ([o] + Run(r, infer, k - 1).0, Run(r, infer, k - 1).1)
  {
    WorkerStepValid(db, infer);
  }

  lemma ConsAssoc<T>(xs: seq<T>, x: T, ys: seq<T>)
    ensures xs + ([x] + ys) == (xs + [x]) + ys
  {
  }

  /** One iteration with the request group in place: it does not stop the loop, keeps
      the group and the request stream, and grows the response stream by the response
      it appends, if any. */
  lemma StepGrows(db: Db, infer: Inference)
    requires Valid(db)
    requires HasGroup(db, RequestStream, RequestGroup)
    ensures var (o, r) := WorkerStep(db, infer);
      var before := Entries(db, ResponseStream);
      && !o.Crashed?
      && HasGroup(r, RequestStream, RequestGroup)
      && Entries(r, RequestStream) == Entries(db, RequestStream)
      && |Entries(r, ResponseStream)| == |before| + (if o.Responded? then 1 else 0)
      && Entries(r, ResponseStream)[..|before|] == before
  {
    StepEffects(db, infer);
  }

  lemma ResponsesCons(o: Outcome, os: seq<Outcome>)
    ensures Responses([o] + os) == (if o.Responded? then 1 else 0) + Responses(os)
  {
    assert ([o] + os)[1..] == os;
  }

  lemma PrefixTrans(a: seq<Fields>, b: seq<Fields>, c: seq<Fields>)
    requires |a| <= |b| <= |c| && b[..|a|] == a && c[..|b|] == b
    ensures c[..|a|] == a
  {
    assert c[..|a|] == c[..|b|][..|a|];
  }

  /** Once the request group exists the loop never stops: every iteration yields an
      outcome, the request stream is left as it is, and the response stream only grows,
      by one entry per answered request. */
  lemma {:induction false} RunKeepsGoing(db: Db, infer: Inference, n: nat)
    requires Valid(db)
    requires HasGroup(db, RequestStream, RequestGroup)
    ensures var (os, r) := Run(db, infer, n);
      var before := Entries(db, ResponseStream);
      && |os| == n
      && (forall j :: 0 <= j < n ==> !os[j].Crashed?)
      && Entries(r, RequestStream) == Entries(db, RequestStream)
      && |Entries(r, ResponseStream)| == |before| + Responses(os)
      && Entries(r, ResponseStream)[..|before|] == before
    decreases n
  {
    if n > 0 {
      StepGrows(db, infer);
      WorkerStepValid(db, infer);
      var (o, db1) := WorkerStep(db, infer);
      RunKeepsGoing(db1, infer, n - 1);
      var (os, db2) := Run(db1, infer, n - 1);
      assert Run(db, infer, n) == ([o] + os, db2);
      ResponsesCons(o, os);
      PrefixTrans(Entries(db, ResponseStream), Entries(db1, ResponseStream), Entries(db2, ResponseStream));
    }
  }
}
