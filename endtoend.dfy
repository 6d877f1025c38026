/**
 * The broker and the worker over one shared keyspace. The two run in separate
 * processes; the model takes one interleaving step by step: the broker
 * publishes a request, the worker takes one iteration of its loop, then the
 * broker waits on the response stream.
 */
module EndToEnd {
  import opened Wrappers
  import opened Json
  import opened Faults
  import opened Streams
  import opened Broker
  import opened Worker

  /** A broker configured on the worker's two streams, reading through its own group. */
  function Wired(responseGroup: string): Config
  {
    Config(RequestStream, ResponseStream, responseGroup)
  }

  /** Neither side has a backlog: both groups exist and both cursors are at the end. */
  predicate Caught(db: Db, responseGroup: string)
  {
    && HasGroup(db, RequestStream, RequestGroup)
    && GroupOf(db, RequestStream, RequestGroup).lastDelivered == |db[RequestStream].entries|
    && HasGroup(db, ResponseStream, responseGroup)
    && GroupOf(db, ResponseStream, responseGroup).lastDelivered == |db[ResponseStream].entries|
  }

  /** Publish, one worker iteration, wait: the worker's outcome, the broker's reply and
      the keyspace afterwards. */
  function Exchange(db: Db, responseGroup: string, id: string, model: string, messages: seq<Json>,
                    infer: Inference, fuel: nat): (Outcome, Reply, Db)
    requires Valid(db)
  {
    var cfg := Wired(responseGroup);
    PublishValid(db, cfg, RequestFor(id, model, messages));
    var (post, db1) := Publish(db, cfg, RequestFor(id, model, messages));
    WorkerStepValid(db1, infer);
    var (o, db2) := WorkerStep(db1, infer);
    match post
    case PostFails(e) => (o, Raised(e), db2)
    case Posted(reqId) =>
      var (r, db3) := Await(db2, ResponseStream, responseGroup, reqId, fuel);
      (o, r, db3)
  }

  /** The worker picks up exactly the published request: it runs the model on the
      published model name and on the messages as the broker sent them, and answers with
      one entry under the same id, leaving the broker's group as it was. */
  lemma WorkerTakesRequest(db: Db, responseGroup: string, id: string, model: string, messages: seq<Json>, infer: Inference)
    requires Valid(db) && Caught(db, responseGroup)
    ensures var db1 := Publish(db, Wired(responseGroup), RequestFor(id, model, messages)).1;
      var (o, db2) := WorkerStep(db1, infer);
      && HasGroup(db2, ResponseStream, responseGroup)
      && GroupOf(db2, ResponseStream, responseGroup) == GroupOf(db, ResponseStream, responseGroup)
      && (infer(model, JArr(messages)).Some? ==>
            && o == Responded(id)
            && db2[ResponseStream].entries == db[ResponseStream].entries + [ResponseEntry(id, infer(model, JArr(messages)).value)])
      && (infer(model, JArr(messages)).None? ==>
            && o == Dropped(InferenceError)
            && db2[ResponseStream].entries == db[ResponseStream].entries)
  {
    var entry := RequestEntry(id, model, messages);
    PublishRequest(db, Wired(responseGroup), id, model, messages);
    var db1 := Append(db, RequestStream, entry).1;
    RequestQueued(db, responseGroup, entry);
    StepDelivers(db1, infer);
    StepKeepsResponseGroups(db1, infer);
    RequestHandled(id, model, messages, infer);
  }

  /** After the publish the worker's group has exactly the new request ahead of it,
      and the response stream is as it was. */
  lemma RequestQueued(db: Db, responseGroup: string, entry: Fields)
    requires Valid(db) && Caught(db, responseGroup)
    ensures var db1 := Append(db, RequestStream, entry).1;
      var n := |db[RequestStream].entries|;
      && Valid(db1)
      && HasGroup(db1, RequestStream, RequestGroup)
      && GroupOf(db1, RequestStream, RequestGroup).lastDelivered == n < |db1[RequestStream].entries|
      && db1[RequestStream].entries[n] == entry
      && ResponseStream in db1 && db1[ResponseStream] == db[ResponseStream]
  {
    AppendValid(db, RequestStream, entry);
  }

  /** The worker's handling of a request entry the broker wrote: the model's result under
      the same id, or the failed model call. */
  lemma RequestHandled(id: string, model: string, messages: seq<Json>, infer: Inference)
    ensures Handle(RequestEntry(id, model, messages), infer) ==
      (if infer(model, JArr(messages)).Some? then Respond(ResponseEntry(id, infer(model, JArr(messages)).value))
       else Fail(InferenceError))
  {
    DecodeEncode(JArr(messages));
  }

  /** The id and the prompt make the whole trip: when the model's result carries content,
      the broker returns that content after one worker iteration. */
  lemma ExchangeAnswers(db: Db, responseGroup: string, id: string, model: string, messages: seq<Json>,
                        infer: Inference, fuel: nat, c: Json)
    requires Valid(db) && Caught(db, responseGroup)
    requires infer(model, JArr(messages)).Some? && Extract(infer(model, JArr(messages)).value) == Content(c)
    requires 1 <= fuel
    ensures Exchange(db, responseGroup, id, model, messages, infer, fuel).0 == Responded(id)
    ensures Exchange(db, responseGroup, id, model, messages, infer, fuel).1 == Answer(c)
  {
    var cfg := Wired(responseGroup);
    PublishRequest(db, cfg, id, model, messages);
    PublishValid(db, cfg, RequestFor(id, model, messages));
    var db1 := Publish(db, cfg, RequestFor(id, model, messages)).1;
    WorkerTakesRequest(db, responseGroup, id, model, messages, infer);
    WorkerStepValid(db1, infer);
    var db2 := WorkerStep(db1, infer).1;
    var result := infer(model, JArr(messages)).value;
    var k := |db[ResponseStream].entries|;
    assert db2[ResponseStream].entries[k] == ResponseEntry(id, result);
    ResponseEntryDecodes(id, result);
    assert Usable(ResponseEntry(id, result)) == Some(Content(c));
    AwaitFinds(db2, ResponseStream, responseGroup, JStr(id), fuel, k);
  }

  /** A model call that fails is swallowed by the worker: nothing is answered and the
      broker's wait ends with the timeout string. */
  lemma ExchangeTimesOut(db: Db, responseGroup: string, id: string, model: string, messages: seq<Json>,
                         infer: Inference, fuel: nat)
    requires Valid(db) && Caught(db, responseGroup)
    requires infer(model, JArr(messages)).None?
    ensures Exchange(db, responseGroup, id, model, messages, infer, fuel).0 == Dropped(InferenceError)
    ensures Exchange(db, responseGroup, id, model, messages, infer, fuel).1 == TimedOut
  {
    var cfg := Wired(responseGroup);
    PublishRequest(db, cfg, id, model, messages);
    PublishValid(db, cfg, RequestFor(id, model, messages));
    var db1 := Publish(db, cfg, RequestFor(id, model, messages)).1;
    WorkerTakesRequest(db, responseGroup, id, model, messages, infer);
    WorkerStepValid(db1, infer);
    var db2 := WorkerStep(db1, infer).1;
    AwaitIdle(db2, ResponseStream, responseGroup, JStr(id), fuel);
  }

  /** A chat completion produced by the model comes back to the caller as its content. */
  lemma CompletionReturned(db: Db, responseGroup: string, id: string, model: string, messages: seq<Json>,
                           infer: Inference, fuel: nat, c: Json)
    requires Valid(db) && Caught(db, responseGroup)
    requires infer(model, JArr(messages)) == Some(Completion(c))
    requires 1 <= fuel
    ensures Exchange(db, responseGroup, id, model, messages, infer, fuel).1 == Answer(c)
  {
    ExtractCompletion(c);
    ExchangeAnswers(db, responseGroup, id, model, messages, infer, fuel, c);
  }

  /** On a fresh server the worker's start-up creates everything the exchange needs,
      provided the broker reads through the group the worker creates on the response
      stream (the broker itself never creates one). */
  lemma StartupWires()
    ensures Valid(Startup(map[])) && Caught(Startup(map[]), ResponseGroup)
  {
    StartupValid(map[]);
  }
}
