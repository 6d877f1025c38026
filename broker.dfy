/**
 * The gateway's side of the request/response protocol (`redis_communication`
 * and `generate_model_response` in backend/app/main.py): flatten the request
 * fields to JSON text in place, append one request entry, then read the
 * response stream through its consumer group one entry at a time until an
 * entry carries the request's id and a usable payload, or the deadline passes.
 *
 * The deadline is a number of loop iterations (`fuel`): one read per iteration.
 */
module Broker {
  import opened Wrappers
  import opened Text
  import opened Json
  import opened Faults
  import opened Streams

  /** The stream and group names the gateway reads from its environment. */
  datatype Config = Config(requestStream: string, responseStream: string, responseGroup: string)

  /** What `redis_communication` ends with: a value it returns, the timeout string, or an exception. */
  datatype Reply =
    | Answer(content: Json)
    | TimedOut
    | Raised(fault: Fault)

  const TimeoutMessage := "Error: Timeout reached while waiting for response"
  const NoContent := "No content found"

  /** The value handed back to the caller, for replies that are not exceptions. */
  function Returned(r: Reply): Json
    requires !r.Raised?
  {
    if r.TimedOut? then JStr(TimeoutMessage) else r.content
  }

  // ------------------------------------------------------------ flattening

  /** One dict item after the flattening loop: a list or dict becomes its JSON text. */
  function FlattenField(m: Member): (r: Member)
    ensures r.key == m.key
    ensures !IsNested(r.value)
    ensures !IsNested(m.value) ==> r == m
    ensures IsNested(m.value) ==> r.value.JStr?
  {
    if IsNested(m.value) then Member(m.key, JStr(Encode(m.value))) else m
  }

  /** The text that replaces a nested value reads back as that value. */
  lemma FlattenFieldDecodes(m: Member)
    requires IsNested(m.value)
    ensures Decode(FlattenField(m).value.s) == Some(m.value)
  {
    DecodeEncode(m.value);
  }

  function FlattenAll(ms: seq<Member>): (r: seq<Member>)
    ensures |r| == |ms|
    ensures forall i :: 0 <= i < |ms| ==> r[i] == FlattenField(ms[i])
  {
    seq(|ms|, i requires 0 <= i < |ms| => FlattenField(ms[i]))
  }

  /** The loop over `request_data.items()` that rewrites nested values in place. */
  method Flatten(request: array<Member>)
    modifies request
    ensures request[..] == FlattenAll(old(request[..]))
  {
    for i := 0 to request.Length
      invariant forall j :: 0 <= j < i ==> request[j] == FlattenField(old(request[j]))
      invariant forall j :: i <= j < request.Length ==> request[j] == old(request[j])
    {
      if IsNested(request[i].value) {
        request[i] := Member(request[i].key, JStr(Encode(request[i].value)));
      }
    }
  }

  // ------------------------------------------------------------ the wire

  /** redis-py sends strings as they are and integers in decimal; anything else is refused. */
  predicate Sendable(v: Json) { v.JStr? || v.JNum? }

  function WireText(v: Json): string
    requires Sendable(v)
  {
    if v.JStr? then v.s else IntText(v.n)
  }

  /** Every value of the dict is one redis-py can send. */
  predicate AllSendable(ms: seq<Member>)
  {
    forall i :: 0 <= i < |ms| ==> Sendable(ms[i].value)
  }

  lemma AllSendableInit(ms: seq<Member>)
    requires ms != []
    ensures AllSendable(ms) <==> AllSendable(ms[..|ms| - 1]) && Sendable(ms[|ms| - 1].value)
  {
    if AllSendable(ms[..|ms| - 1]) && Sendable(ms[|ms| - 1].value) {
      forall i | 0 <= i < |ms|
        ensures Sendable(ms[i].value)
      {
        if i < |ms| - 1 {
          assert ms[..|ms| - 1][i] == ms[i];
        }
      }
    }
  }

  /** The fields redis-py writes for the dict's items, or `None` when it raises DataError. */
  function WireFields(ms: seq<Member>): (r: Option<Fields>)
    ensures r.Some? <==> AllSendable(ms)
    ensures r.Some? ==> forall k :: k in r.value <==> Get(ms, k).Some?
    ensures r.Some? ==> forall k :: k in r.value ==> Sendable(Get(ms, k).value) && r.value[k] == WireText(Get(ms, k).value)
  {
    if ms == [] then Some(map[])
    else
      var last := ms[|ms| - 1];
      AllSendableInit(ms);
      match WireFields(ms[..|ms| - 1])
      case None => None
      case Some(f) => if Sendable(last.value) then Some(f[last.key := WireText(last.value)]) else None
  }

  // ------------------------------------------------------------ the payload

  /** How the wait loop treats a decoded response payload. */
  datatype Extraction =
    | Content(value: Json)    // `choices[0].message.content`, or the default
    | KeepWaiting             // `choices` missing or not a list: the loop goes on
    | Fails(fault: Fault)     // the expression raised

  /** Python's `.get(key, default)` on an object. */
  function GetOr(ms: seq<Member>, key: string, default: Json): Json
  {
    match Get(ms, key)
    case None => default
    case Some(v) => v
  }

  /** The `choices` list of a payload, when the payload is an object and that member is a list. */
  function ChoicesList(payload: Json): Option<seq<Json>>
  {
    if payload.JObj? then
      match Get(payload.members, "choices")
      case Some(JArr(cs)) => Some(cs)
      case _ => None
    else None
  }

  /** `"choices" in response and isinstance(response["choices"], list)` and what follows it. */
  function Extract(payload: Json): (x: Extraction)
    ensures x.Content? ==> ChoicesList(payload).Some?
    ensures payload.JObj? && ChoicesList(payload).None? ==> x.KeepWaiting?
    ensures ChoicesList(payload) == Some([]) ==> x == Fails(IndexError)
    ensures x.Fails? ==> x.fault in {IndexError, AttributeError, TypeError}
  {
    match payload
    case JObj(ms) =>
      (match ChoicesList(payload)
       case None => KeepWaiting
       case Some(cs) =>
         if cs == [] then Fails(IndexError)
         else if !cs[0].JObj? then Fails(AttributeError)
         else
           var message := GetOr(cs[0].members, "message", JObj([]));
           if !message.JObj? then Fails(AttributeError)
           else Content(GetOr(message.members, "content", JStr(NoContent))))
    case JArr(items) => if JStr("choices") in items then Fails(TypeError) else KeepWaiting
    case JStr(s) => if Contains(s, "choices") then Fails(TypeError) else KeepWaiting
    case _ => Fails(TypeError)
  }

  // ------------------------------------------------------------ the wait loop

  /** An entry that carries the request's id. */
  predicate Matches(f: Fields, reqId: Json)
  {
    "id" in f && JStr(f["id"]) == reqId
  }

  /** What the entry's `response` field gives the loop, when the entry matches. */
  function Usable(f: Fields): Option<Extraction>
  {
    if "response" !in f then None
    else
      match Decode(f["response"])
      case None => None
      case Some(payload) => Some(Extract(payload))
  }

  datatype Turn = Done(reply: Reply) | Continue

  /** How one read changes the consumer group: the cursor moves past the entry it
      delivers, which joins the pending list unless it was acknowledged; only a
      matching entry can be acknowledged. */
  predicate Advance(g0: Group, g1: Group, entries: seq<Fields>, reqId: Json)
  {
    && g1.lastDelivered == (if g0.lastDelivered < |entries| then g0.lastDelivered + 1 else g0.lastDelivered)
    && g0.pending <= g1.pending
    && g1.pending <= g0.pending + (if g0.lastDelivered < |entries| then {g0.lastDelivered} else {})
    && (g0.lastDelivered < |entries| && !Matches(entries[g0.lastDelivered], reqId) ==> g0.lastDelivered in g1.pending)
  }

  /** Only `key`'s group `group` may change; no stream gains or loses an entry. */
  predicate Untouched(db: Db, db1: Db, key: string, group: string)
  {
    && db1.Keys == db.Keys
    && (forall k :: k in db ==> db1[k].entries == db[k].entries)
    && (forall k :: k in db && k != key ==> db1[k] == db[k])
    && (key in db ==> db1[key].groups.Keys == db[key].groups.Keys)
    && (forall g :: key in db && g in db[key].groups && g != group ==> db1[key].groups[g] == db[key].groups[g])
  }

  /** What the loop body does with a delivered entry: the decision, and whether
      the entry is acknowledged on the way. */
  function Inspect(f: Fields, reqId: Json): (r: (Turn, bool))
    ensures r.1 ==> Matches(f, reqId)
    ensures !Matches(f, reqId) && "id" in f ==> r == (Continue, false)
    ensures r.0.Done? && r.0.reply.Answer? ==>
      r.1 && Usable(f) == Some(Content(r.0.reply.content))
    ensures Matches(f, reqId) && Usable(f).Some? && Usable(f).value.Content? ==>
      r == (Done(Answer(Usable(f).value.value)), true)
    ensures "id" !in f ==> r == (Done(Raised(KeyError("id"))), false)
    ensures Matches(f, reqId) && "response" !in f ==> r == (Done(Raised(KeyError("response"))), false)
    ensures Matches(f, reqId) && "response" in f && Decode(f["response"]).None? ==>
      r == (Done(Raised(JsonDecodeError)), false)
    ensures Matches(f, reqId) && Usable(f) == Some(KeepWaiting) ==> r == (Continue, true)
    ensures Matches(f, reqId) && Usable(f).Some? && Usable(f).value.Fails? ==>
      r == (Done(Raised(Usable(f).value.fault)), true)
  {
    if "id" !in f then (Done(Raised(KeyError("id"))), false)
    else if JStr(f["id"]) != reqId then (Continue, false)
    else if "response" !in f then (Done(Raised(KeyError("response"))), false)
    else
      match Decode(f["response"])
      case None => (Done(Raised(JsonDecodeError)), false)
      case Some(payload) =>
        match Extract(payload)
        case Content(c) => (Done(Answer(c)), true)
        case Fails(e) => (Done(Raised(e)), true)
        case KeepWaiting => (Continue, true)
  }

  /** One iteration of the `while` loop: one read of at most one entry, and what it decides. */
  function Poll(db: Db, key: string, group: string, reqId: Json): (r: (Turn, Db))
    requires Valid(db)
    ensures Valid(r.1)
  {
    ReadNextValid(db, key, group);
    var read := ReadNext(db, key, group);
    match read.0
    case NoGroup => (Done(Raised(NoGroupError)), read.1)
    case NoNewEntry => (Continue, read.1)
    case Delivered(id, f) =>
      var (turn, ack) := Inspect(f, reqId);
      if ack then
        AcknowledgeValid(read.1, key, group, id);
        (turn, Acknowledge(read.1, key, group, id).1)
      else (turn, read.1)
  }

  /** A read changes only the group it reads through, and only as `Advance` allows. */
  lemma PollFrame(db: Db, key: string, group: string, reqId: Json)
    requires Valid(db)
    ensures var r := Poll(db, key, group, reqId);
      && Untouched(db, r.1, key, group)
      && (!HasGroup(db, key, group) ==> r == (Done(Raised(NoGroupError)), db))
      && (HasGroup(db, key, group) ==>
            Advance(GroupOf(db, key, group), GroupOf(r.1, key, group), db[key].entries, reqId))
  {
    var read := ReadNext(db, key, group);
    if read.0.Delivered? {
      var g0 := GroupOf(db, key, group);
      var id := read.0.id;
      assert StreamValid(db[key]) && GroupValid(g0, |db[key].entries|);
      assert g0.lastDelivered !in g0.pending;
      var read1 := Group(id + 1, g0.pending + {id});
      assert read.1 == WithGroup(db, key, group, read1);
      if Inspect(read.0.fields, reqId).1 {
        var g1 := read1.(pending := read1.pending - {id});
        assert Poll(db, key, group, reqId).1 == WithGroup(read.1, key, group, g1);
        WithGroupTwice(db, key, group, read1, g1);
        WithGroupUntouched(db, key, group, g1);
      } else {
        WithGroupUntouched(db, key, group, read1);
      }
    }
  }

  /** `db` with the group `group` of stream `key` replaced by `g`. */
  function WithGroup(db: Db, key: string, group: string, g: Group): Db
    requires key in db
  {
    db[key := db[key].(groups := db[key].groups[group := g])]
  }

  lemma WithGroupTwice(db: Db, key: string, group: string, a: Group, b: Group)
    requires key in db
    ensures WithGroup(WithGroup(db, key, group, a), key, group, b) == WithGroup(db, key, group, b)
  {
    assert db[key].groups[group := a][group := b] == db[key].groups[group := b];
  }

  lemma WithGroupUntouched(db: Db, key: string, group: string, g: Group)
    requires HasGroup(db, key, group)
    ensures Untouched(db, WithGroup(db, key, group, g), key, group)
    ensures GroupOf(WithGroup(db, key, group, g), key, group) == g
  {
  }

  /** The wait loop with `fuel` iterations left before the deadline. */
  function Await(db: Db, key: string, group: string, reqId: Json, fuel: nat): (r: (Reply, Db))
    requires Valid(db)
    ensures Valid(r.1)
    decreases fuel
  {
    if fuel == 0 then (TimedOut, db)
    else
      var p := Poll(db, key, group, reqId);
      match p.0
      case Done(reply) => (reply, p.1)
      case Continue => Await(p.1, key, group, reqId, fuel - 1)
  }

  /** One iteration of the wait loop: read the next entry for the group and decide on it. */
  method ReadOnce(redis: Redis, key: string, group: string, reqId: Json) returns (turn: Turn)
    requires Valid(redis.db)
    modifies redis
    ensures (turn, redis.db) == Poll(old(redis.db), key, group, reqId)
  {
    var d := redis.XReadGroup(key, group);
    match d {
      case NoGroup =>
        return Done(Raised(NoGroupError));
      case NoNewEntry =>
      case Delivered(id, f) =>
        if "id" !in f {
          return Done(Raised(KeyError("id")));
        }
        if JStr(f["id"]) == reqId {
          if "response" !in f {
            return Done(Raised(KeyError("response")));
          }
          var decoded := Decode(f["response"]);
          if decoded.None? {
            return Done(Raised(JsonDecodeError));
          }
          var _ := redis.XAck(key, group, id);
          var x := Extract(decoded.value);
          if x.Content? {
            return Done(Answer(x.value));
          } else if x.Fails? {
            return Done(Raised(x.fault));
          }
        }
    }
    return Continue;
  }

  /** The loop of `redis_communication` on the client: reads, acknowledges and returns. */
  method AwaitResponse(redis: Redis, key: string, group: string, reqId: Json, fuel: nat) returns (r: Reply)
    requires Valid(redis.db)
    modifies redis
    ensures (r, redis.db) == Await(old(redis.db), key, group, reqId, fuel)
  {
    var left := fuel;
    while left > 0
      invariant Valid(redis.db)
      invariant Await(old(redis.db), key, group, reqId, fuel) == Await(redis.db, key, group, reqId, left)
      decreases left
    {
      var turn := ReadOnce(redis, key, group, reqId);
      if turn.Done? {
        return turn.reply;
      }
      left := left - 1;
    }
    return TimedOut;
  }

  /** A read that finds an entry decides as `Inspect` does on that entry. */
  lemma PollInspects(db: Db, key: string, group: string, reqId: Json)
    requires Valid(db)
    requires HasGroup(db, key, group)
    requires GroupOf(db, key, group).lastDelivered < |db[key].entries|
    ensures Poll(db, key, group, reqId).0 == Inspect(db[key].entries[GroupOf(db, key, group).lastDelivered], reqId).0
  {
  }

  // ------------------------------------------------------------ what the loop guarantees

  /** How many reads change a group: the cursor only moves forward, nothing that was
      pending is acknowledged, every entry delivered on the way stays pending unless it
      matched, and nothing else becomes pending. */
  predicate Progress(g0: Group, g1: Group, entries: seq<Fields>, reqId: Json)
  {
    && g0.lastDelivered <= g1.lastDelivered
    && (g0.lastDelivered <= |entries| ==> g1.lastDelivered <= |entries|)
    && g0.pending <= g1.pending
    && (forall i :: i in g1.pending ==> i in g0.pending || g0.lastDelivered <= i < g1.lastDelivered)
    && (forall i :: g0.lastDelivered <= i < g1.lastDelivered && i < |entries| && !Matches(entries[i], reqId) ==> i in g1.pending)
  }

  lemma ProgressOfAdvance(g0: Group, g1: Group, entries: seq<Fields>, reqId: Json)
    requires Advance(g0, g1, entries, reqId)
    ensures Progress(g0, g1, entries, reqId)
  {
  }

  lemma ProgressTrans(g0: Group, g1: Group, g2: Group, entries: seq<Fields>, reqId: Json)
    requires Progress(g0, g1, entries, reqId) && Progress(g1, g2, entries, reqId)
    ensures Progress(g0, g2, entries, reqId)
  {
  }

  lemma ProgressRefl(g: Group, entries: seq<Fields>, reqId: Json)
    ensures Progress(g, g, entries, reqId)
  {
  }

  lemma UntouchedTrans(a: Db, b: Db, c: Db, key: string, group: string)
    requires Untouched(a, b, key, group) && Untouched(b, c, key, group)
    ensures Untouched(a, c, key, group)
  {
  }

  /** `db1` is `db` after at most `n` reads: no stream wrote to, no other group touched,
      and the group read through moved as `Progress` says. */
  predicate Framed(db: Db, db1: Db, key: string, group: string, reqId: Json, n: nat)
  {
    && Untouched(db, db1, key, group)
    && (!HasGroup(db, key, group) ==> db1 == db)
    && (HasGroup(db, key, group) ==>
          && HasGroup(db1, key, group)
          && Progress(GroupOf(db, key, group), GroupOf(db1, key, group), db[key].entries, reqId)
          && GroupOf(db1, key, group).lastDelivered <= GroupOf(db, key, group).lastDelivered + n)
  }

  /** The wait loop never writes to a stream, touches no other group, and moves its
      own group as `Progress` says. */
  lemma {:induction false} AwaitFrame(db: Db, key: string, group: string, reqId: Json, fuel: nat)
    requires Valid(db)
    ensures Framed(db, Await(db, key, group, reqId, fuel).1, key, group, reqId, fuel)
    decreases fuel
  {
    if fuel == 0 {
      FramedRefl(db, key, group, reqId);
    } else {
      var p := Poll(db, key, group, reqId);
      PollFramed(db, key, group, reqId);
      if p.0.Continue? {
        var r := Await(p.1, key, group, reqId, fuel - 1);
        assert Await(db, key, group, reqId, fuel) == r;
        AwaitFrame(p.1, key, group, reqId, fuel - 1);
        FramedTrans(db, p.1, r.1, key, group, reqId, 1, fuel - 1);
      } else {
        FramedMono(db, p.1, key, group, reqId, 1, fuel);
      }
    }
  }

  lemma PollFramed(db: Db, key: string, group: string, reqId: Json)
    requires Valid(db)
    ensures Framed(db, Poll(db, key, group, reqId).1, key, group, reqId, 1)
  {
    PollFrame(db, key, group, reqId);
    if HasGroup(db, key, group) {
      ProgressOfAdvance(GroupOf(db, key, group), GroupOf(Poll(db, key, group, reqId).1, key, group), db[key].entries, reqId);
    }
  }

  lemma FramedRefl(db: Db, key: string, group: string, reqId: Json)
    ensures Framed(db, db, key, group, reqId, 0)
  {
    if HasGroup(db, key, group) {
      ProgressRefl(GroupOf(db, key, group), db[key].entries, reqId);
    }
  }

  lemma FramedTrans(a: Db, b: Db, c: Db, key: string, group: string, reqId: Json, n: nat, m: nat)
    requires Framed(a, b, key, group, reqId, n) && Framed(b, c, key, group, reqId, m)
    ensures Framed(a, c, key, group, reqId, n + m)
  {
    UntouchedTrans(a, b, c, key, group);
    if HasGroup(a, key, group) {
      assert b[key].entries == a[key].entries;
      ProgressTrans(GroupOf(a, key, group), GroupOf(b, key, group), GroupOf(c, key, group), a[key].entries, reqId);
    }
  }

  lemma FramedMono(db: Db, db1: Db, key: string, group: string, reqId: Json, n: nat, m: nat)
    requires Framed(db, db1, key, group, reqId, n) && n <= m
    ensures Framed(db, db1, key, group, reqId, m)
  {
  }

  /** A read that lets the loop go on found the group, kept the stream's entries and
      did not move the cursor back. */
  lemma PollContinues(db: Db, key: string, group: string, reqId: Json)
    requires Valid(db)
    requires Poll(db, key, group, reqId).0.Continue?
    ensures var r := Poll(db, key, group, reqId).1;
      && HasGroup(db, key, group) && HasGroup(r, key, group)
      && r[key].entries == db[key].entries
      && GroupOf(db, key, group).lastDelivered <= GroupOf(r, key, group).lastDelivered
  {
  }

  /** A read that returns content delivered the entry at the cursor: it carries the id,
      its payload yields the content, and it was acknowledged. */
  lemma PollAnswers(db: Db, key: string, group: string, reqId: Json)
    requires Valid(db)
    requires Poll(db, key, group, reqId).0.Done? && Poll(db, key, group, reqId).0.reply.Answer?
    ensures var (t, r) := Poll(db, key, group, reqId);
      && HasGroup(db, key, group) && HasGroup(r, key, group)
      && var i := GroupOf(db, key, group).lastDelivered;
      && i < |db[key].entries|
      && GroupOf(r, key, group).lastDelivered == i + 1
      && Matches(db[key].entries[i], reqId)
      && Usable(db[key].entries[i]) == Some(Content(t.reply.content))
      && i !in GroupOf(r, key, group).pending
  {
  }

  /** Any content returned comes from an entry past the starting cursor that carries the
      request's id and whose payload yields that content; that entry is the last one read
      and it was acknowledged. */
  lemma {:induction false} AwaitAnswer(db: Db, key: string, group: string, reqId: Json, fuel: nat)
    requires Valid(db)
    requires Await(db, key, group, reqId, fuel).0.Answer?
    ensures var r := Await(db, key, group, reqId, fuel);
      && HasGroup(db, key, group)
      && HasGroup(r.1, key, group)
      && var i := GroupOf(r.1, key, group).lastDelivered - 1;
      && GroupOf(db, key, group).lastDelivered <= i < |db[key].entries|
      && Matches(db[key].entries[i], reqId)
      && Usable(db[key].entries[i]) == Some(Content(r.0.content))
      && i !in GroupOf(r.1, key, group).pending
    decreases fuel
  {
    var p := Poll(db, key, group, reqId);
    if p.0.Continue? {
      PollContinues(db, key, group, reqId);
      AwaitAnswer(p.1, key, group, reqId, fuel - 1);
      var r, q := Await(db, key, group, reqId, fuel), Await(p.1, key, group, reqId, fuel - 1);
      assert r.0 == q.0 && r.1 == q.1;
    } else {
      PollAnswers(db, key, group, reqId);
    }
  }

  /** An entry the wait passes over: it has an id, and either the id is another
      request's or its payload has no list of choices. */
  predicate PassedOver(f: Fields, reqId: Json)
  {
    "id" in f && (!Matches(f, reqId) || Usable(f) == Some(KeepWaiting))
  }

  /** The deadline passes without a usable match: when every entry the remaining
      iterations can read is passed over, the loop ends with the timeout string. */
  lemma {:induction false} AwaitTimesOut(db: Db, key: string, group: string, reqId: Json, fuel: nat)
    requires Valid(db)
    requires HasGroup(db, key, group)
    requires var c := GroupOf(db, key, group).lastDelivered;
      forall i :: c <= i < |db[key].entries| && i < c + fuel ==> PassedOver(db[key].entries[i], reqId)
    ensures Await(db, key, group, reqId, fuel).0 == TimedOut
    decreases fuel
  {
    var c := GroupOf(db, key, group).lastDelivered;
    assert StreamValid(db[key]) && GroupValid(GroupOf(db, key, group), |db[key].entries|);
    if fuel > 0 {
      if c == |db[key].entries| {
        AwaitIdle(db, key, group, reqId, fuel);
      } else {
        assert PassedOver(db[key].entries[c], reqId);
        var p := Poll(db, key, group, reqId);
        if Matches(db[key].entries[c], reqId) {
          AwaitKeepsWaiting(db, key, group, reqId, fuel);
        } else {
          AwaitSkips(db, key, group, reqId, fuel);
        }
        AwaitTimesOut(p.1, key, group, reqId, fuel - 1);
      }
    }
  }

  /** A read that delivers an entry without the request's id leaves the reply to the
      remaining iterations. */
  lemma AwaitSkips(db: Db, key: string, group: string, reqId: Json, fuel: nat)
    requires Valid(db)
    requires HasGroup(db, key, group)
    requires GroupOf(db, key, group).lastDelivered < |db[key].entries|
    requires "id" in db[key].entries[GroupOf(db, key, group).lastDelivered]
    requires !Matches(db[key].entries[GroupOf(db, key, group).lastDelivered], reqId)
    requires 0 < fuel
    ensures var p := Poll(db, key, group, reqId);
      && HasGroup(p.1, key, group)
      && p.1[key].entries == db[key].entries
      && GroupOf(p.1, key, group).lastDelivered == GroupOf(db, key, group).lastDelivered + 1
      && Await(db, key, group, reqId, fuel) == Await(p.1, key, group, reqId, fuel - 1)
  {
    PollFrame(db, key, group, reqId);
    PollInspects(db, key, group, reqId);
  }

  /** A matching entry whose payload has no list of choices is acknowledged and the
      wait goes on: the cursor moves past it, it does not stay pending, and the reply is
      left to the remaining iterations. */
  lemma AwaitKeepsWaiting(db: Db, key: string, group: string, reqId: Json, fuel: nat)
    requires Valid(db)
    requires HasGroup(db, key, group)
    requires GroupOf(db, key, group).lastDelivered < |db[key].entries|
    requires Matches(db[key].entries[GroupOf(db, key, group).lastDelivered], reqId)
    requires Usable(db[key].entries[GroupOf(db, key, group).lastDelivered]) == Some(KeepWaiting)
    requires 0 < fuel
    ensures var p := Poll(db, key, group, reqId);
      && p.0 == Continue
      && HasGroup(p.1, key, group)
      && p.1[key].entries == db[key].entries
      && GroupOf(p.1, key, group) == Group(GroupOf(db, key, group).lastDelivered + 1, GroupOf(db, key, group).pending)
      && Await(db, key, group, reqId, fuel) == Await(p.1, key, group, reqId, fuel - 1)
  {
    var g0 := GroupOf(db, key, group);
    assert StreamValid(db[key]) && GroupValid(g0, |db[key].entries|);
    assert g0.lastDelivered !in g0.pending;
    assert (g0.pending + {g0.lastDelivered}) - {g0.lastDelivered} == g0.pending;
  }

  /** A matching entry whose payload cannot be read, or whose content expression raises,
      ends the wait with that exception. Only an entry whose `response` decoded was
      acknowledged; the others stay pending. */
  lemma AwaitRaises(db: Db, key: string, group: string, reqId: Json, fuel: nat)
    requires Valid(db)
    requires HasGroup(db, key, group)
    requires GroupOf(db, key, group).lastDelivered < |db[key].entries|
    requires Matches(db[key].entries[GroupOf(db, key, group).lastDelivered], reqId)
    requires var u := Usable(db[key].entries[GroupOf(db, key, group).lastDelivered]); u.None? || u.value.Fails?
    requires 0 < fuel
    ensures var g0 := GroupOf(db, key, group);
      var e := db[key].entries[g0.lastDelivered];
      var r := Await(db, key, group, reqId, fuel);
      && r.0 == Raised(if Usable(e).Some? then Usable(e).value.fault
                       else if "response" !in e then KeyError("response") else JsonDecodeError)
      && HasGroup(r.1, key, group)
      && r.1[key].entries == db[key].entries
      && GroupOf(r.1, key, group).lastDelivered == g0.lastDelivered + 1
      && (g0.lastDelivered in GroupOf(r.1, key, group).pending <==> Usable(e).None?)
  {
    var g0 := GroupOf(db, key, group);
    assert StreamValid(db[key]) && GroupValid(g0, |db[key].entries|);
    assert g0.lastDelivered !in g0.pending;
  }

  /** A read that delivers a matching entry whose payload yields content returns it. */
  lemma AwaitStops(db: Db, key: string, group: string, reqId: Json, fuel: nat)
    requires Valid(db)
    requires HasGroup(db, key, group)
    requires GroupOf(db, key, group).lastDelivered < |db[key].entries|
    requires Matches(db[key].entries[GroupOf(db, key, group).lastDelivered], reqId)
    requires Usable(db[key].entries[GroupOf(db, key, group).lastDelivered]).Some?
    requires Usable(db[key].entries[GroupOf(db, key, group).lastDelivered]).value.Content?
    requires 0 < fuel
    ensures Await(db, key, group, reqId, fuel).0 ==
      Answer(Usable(db[key].entries[GroupOf(db, key, group).lastDelivered]).value.value)
  {
    PollInspects(db, key, group, reqId);
  }

  /** Every entry from `lo` up to `k` carries an id, and not the request's. */
  predicate NoneMatch(entries: seq<Fields>, lo: nat, k: nat, reqId: Json)
    requires k <= |entries|
  {
    forall i :: lo <= i < k ==> "id" in entries[i] && !Matches(entries[i], reqId)
  }

  /** The first entry past the cursor that carries the request's id decides the reply:
      when its payload yields content and the deadline leaves enough reads to reach it,
      that content is returned. */
  lemma {:induction false} AwaitFinds(db: Db, key: string, group: string, reqId: Json, fuel: nat, k: nat)
    requires Valid(db)
    requires HasGroup(db, key, group)
    requires GroupOf(db, key, group).lastDelivered <= k < |db[key].entries|
    requires NoneMatch(db[key].entries, GroupOf(db, key, group).lastDelivered, k, reqId)
    requires Matches(db[key].entries[k], reqId)
    requires Usable(db[key].entries[k]).Some? && Usable(db[key].entries[k]).value.Content?
    requires k - GroupOf(db, key, group).lastDelivered < fuel
    ensures Await(db, key, group, reqId, fuel).0 == Answer(Usable(db[key].entries[k]).value.value)
    decreases fuel
  {
    if GroupOf(db, key, group).lastDelivered < k {
      SkipMoves(db, key, group, reqId);
      var next := Poll(db, key, group, reqId).1;
      var e := db[key].entries[k];
      assert next[key].entries[k] == e;
      AwaitFinds(next, key, group, reqId, fuel - 1, k);
      var r := Answer(Usable(e).value.value);
      AwaitPassesOn(db, key, group, reqId, fuel, r);
    } else {
      AwaitStops(db, key, group, reqId, fuel);
    }
  }

  /** Skipping an entry with another id moves the cursor past it and keeps the stream. */
  lemma SkipMoves(db: Db, key: string, group: string, reqId: Json)
    requires Valid(db)
    requires HasGroup(db, key, group)
    requires GroupOf(db, key, group).lastDelivered < |db[key].entries|
    requires "id" in db[key].entries[GroupOf(db, key, group).lastDelivered]
    requires !Matches(db[key].entries[GroupOf(db, key, group).lastDelivered], reqId)
    ensures var next := Poll(db, key, group, reqId).1;
      && HasGroup(next, key, group)
      && next[key].entries == db[key].entries
      && GroupOf(next, key, group).lastDelivered == GroupOf(db, key, group).lastDelivered + 1
  {
    AwaitSkips(db, key, group, reqId, 1);
  }

  /** A reply the remaining iterations give after skipping the entry at the cursor is the
      reply of the whole wait. */
  lemma AwaitPassesOn(db: Db, key: string, group: string, reqId: Json, fuel: nat, r: Reply)
    requires Valid(db)
    requires HasGroup(db, key, group)
    requires GroupOf(db, key, group).lastDelivered < |db[key].entries|
    requires "id" in db[key].entries[GroupOf(db, key, group).lastDelivered]
    requires !Matches(db[key].entries[GroupOf(db, key, group).lastDelivered], reqId)
    requires 0 < fuel
    requires Await(Poll(db, key, group, reqId).1, key, group, reqId, fuel - 1).0 == r
    ensures Await(db, key, group, reqId, fuel).0 == r
  {
    AwaitSkips(db, key, group, reqId, fuel);
  }

  /** With the cursor at the end of the stream every read comes back empty: the loop
      changes nothing and ends with the timeout string. */
  lemma {:induction false} AwaitIdle(db: Db, key: string, group: string, reqId: Json, fuel: nat)
    requires Valid(db)
    requires HasGroup(db, key, group)
    requires GroupOf(db, key, group).lastDelivered == |db[key].entries|
    ensures Await(db, key, group, reqId, fuel) == (TimedOut, db)
    decreases fuel
  {
    if fuel > 0 {
      assert Poll(db, key, group, reqId) == (Continue, db);
      AwaitIdle(db, key, group, reqId, fuel - 1);
    }
  }

  // ------------------------------------------------------------ blocking reads

  /** The loop as written: `block=0` makes a read that finds no new entry wait for one.
      With no other writer it never returns (`None`), so the deadline is never checked. */
  function AwaitAsWritten(db: Db, key: string, group: string, reqId: Json, fuel: nat): Option<(Reply, Db)>
    requires Valid(db)
    decreases fuel
  {
    if fuel == 0 then Some((TimedOut, db))
    else if ReadNext(db, key, group).0.NoNewEntry? then None
    else
      var p := Poll(db, key, group, reqId);
      match p.0
      case Done(reply) => Some((reply, p.1))
      case Continue => AwaitAsWritten(p.1, key, group, reqId, fuel - 1)
  }

  /** Whenever the blocking loop returns, it returns what the bounded loop does. */
  lemma {:induction false} AwaitAsWrittenAgrees(db: Db, key: string, group: string, reqId: Json, fuel: nat)
    requires Valid(db)
    requires AwaitAsWritten(db, key, group, reqId, fuel).Some?
    ensures AwaitAsWritten(db, key, group, reqId, fuel).value == Await(db, key, group, reqId, fuel)
    decreases fuel
  {
    if fuel > 0 {
      var p := Poll(db, key, group, reqId);
      if p.0.Continue? {
        AwaitAsWrittenAgrees(p.1, key, group, reqId, fuel - 1);
      }
    }
  }

  /** With nothing left to read, the blocking loop waits forever where the deadline
      should end it with the timeout string. */
  lemma AwaitAsWrittenHangs(db: Db, key: string, group: string, reqId: Json, fuel: nat)
    requires Valid(db)
    requires HasGroup(db, key, group)
    requires GroupOf(db, key, group).lastDelivered == |db[key].entries|
    requires 0 < fuel
    ensures AwaitAsWritten(db, key, group, reqId, fuel).None?
    ensures Await(db, key, group, reqId, fuel) == (TimedOut, db)
  {
    AwaitIdle(db, key, group, reqId, fuel);
  }

  // ------------------------------------------------------------ publishing

  /** The fields `XADD` writes for the flattened dict, or `None` where redis-py raises
      DataError: an empty dict, or a value that is neither a string nor an integer. */
  function EntryOf(flat: seq<Member>): (r: Option<Fields>)
    ensures r.Some? <==> flat != [] && AllSendable(flat)
    ensures r.Some? ==> r.value != map[] && forall k :: k in r.value <==> Get(flat, k).Some?
  {
    if flat == [] then None
    else
      assert Get(flat, flat[|flat| - 1].key).Some?;
      WireFields(flat)
  }

  /** How publishing ends: the request's id to wait for, or the exception raised. */
  datatype Post = Posted(reqId: Json) | PostFails(fault: Fault)

  /** Lines 197-205: flatten, append one request entry, read back the id. A dict
      without an `id` is still appended before the lookup raises. */
  function Publish(db: Db, cfg: Config, request: seq<Member>): (r: (Post, Db))
  {
    var flat := FlattenAll(request);
    match EntryOf(flat)
    case None => (PostFails(DataError), db)
    case Some(f) =>
      var db1 := Append(db, cfg.requestStream, f).1;
      match Get(flat, "id")
      case None => (PostFails(KeyError("id")), db1)
      case Some(id) => (Posted(id), db1)
  }

  /** Publishing appends exactly the flattened entry to the request stream and touches
      nothing else; a refused dict changes nothing. The entry's fields are the dict's
      keys, nested values as JSON text that reads back as the value, the others as
      redis-py writes them; the id waited for is the dict's own. */
  lemma PublishAppends(db: Db, cfg: Config, request: seq<Member>)
    ensures var r := Publish(db, cfg, request);
      var flat := FlattenAll(request);
      && (EntryOf(flat).None? <==> r == (PostFails(DataError), db))
      && (EntryOf(flat).Some? ==>
            && r.1 == Append(db, cfg.requestStream, EntryOf(flat).value).1
            && (r.0.Posted? <==> Get(request, "id").Some?)
            && (r.0.Posted? ==> r.0.reqId == FlattenField(Member("id", Get(request, "id").value)).value)
            && SentAsWritten(request, EntryOf(flat).value))
  {
    var flat := FlattenAll(request);
    GetFlattened(request, "id");
    if EntryOf(flat).Some? {
      EntryFields(request);
    }
  }

  /** Every field sent comes from a key of the request: nested values as JSON text
      that reads back as the value, the others as redis-py writes them. */
  predicate SentAsWritten(request: seq<Member>, entry: Fields)
  {
    forall k :: k in entry ==>
      && Get(request, k).Some?
      && (IsNested(Get(request, k).value) ==> Decode(entry[k]) == Some(Get(request, k).value))
      && (!IsNested(Get(request, k).value) ==>
            Sendable(Get(request, k).value) && entry[k] == WireText(Get(request, k).value))
  }

  lemma EntryFields(request: seq<Member>)
    requires EntryOf(FlattenAll(request)).Some?
    ensures SentAsWritten(request, EntryOf(FlattenAll(request)).value)
  {
    var flat := FlattenAll(request);
    forall k
      ensures Get(flat, k) == (if Get(request, k).Some? then Some(FlattenField(Member(k, Get(request, k).value)).value) else None)
    {
      GetFlattened(request, k);
    }
    forall k | k in EntryOf(flat).value && IsNested(Get(request, k).value)
      ensures Decode(EntryOf(flat).value[k]) == Some(Get(request, k).value)
    {
      FlattenFieldDecodes(Member(k, Get(request, k).value));
    }
  }


  /** Looking a key up after flattening finds the flattened value of the same member. */
  lemma {:induction false} GetFlattened(ms: seq<Member>, k: string)
    ensures Get(FlattenAll(ms), k) == (if Get(ms, k).Some? then Some(FlattenField(Member(k, Get(ms, k).value)).value) else None)
  {
    if ms != [] {
      var flat := FlattenAll(ms);
      assert flat[..|flat| - 1] == FlattenAll(ms[..|ms| - 1]);
      GetFlattened(ms[..|ms| - 1], k);
    }
  }

  lemma PublishValid(db: Db, cfg: Config, request: seq<Member>)
    requires Valid(db)
    ensures Valid(Publish(db, cfg, request).1)
  {
    var flat := FlattenAll(request);
    if EntryOf(flat).Some? {
      AppendValid(db, cfg.requestStream, EntryOf(flat).value);
    }
  }

  /** `redis_communication`: publish, then wait on the response stream. */
  function Communicate(db: Db, cfg: Config, request: seq<Member>, fuel: nat): (Reply, Db)
    requires Valid(db)
  {
    PublishValid(db, cfg, request);
    var (post, db1) := Publish(db, cfg, request);
    match post
    case PostFails(e) => (Raised(e), db1)
    case Posted(id) => Await(db1, cfg.responseStream, cfg.responseGroup, id, fuel)
  }

  /** With no worker answering, a generated request is published and the wait ends with
      the timeout string: the response group's cursor stands at the end of its stream,
      and publishing on the request stream leaves the response stream as it was. */
  lemma CommunicateTimesOut(db: Db, cfg: Config, id: string, model: string, messages: seq<Json>, fuel: nat)
    requires Valid(db)
    requires cfg.requestStream != cfg.responseStream
    requires HasGroup(db, cfg.responseStream, cfg.responseGroup)
    requires GroupOf(db, cfg.responseStream, cfg.responseGroup).lastDelivered == |db[cfg.responseStream].entries|
    ensures Communicate(db, cfg, RequestFor(id, model, messages), fuel).0 == TimedOut
  {
    var request := RequestFor(id, model, messages);
    PublishRequest(db, cfg, id, model, messages);
    PublishValid(db, cfg, request);
    var db1 := Publish(db, cfg, request).1;
    assert db1[cfg.responseStream] == db[cfg.responseStream];
    AwaitIdle(db1, cfg.responseStream, cfg.responseGroup, JStr(id), fuel);
  }

  /** `redis_communication` on the client: the dict is rewritten in place, then sent. */
  method RedisCommunication(redis: Redis, cfg: Config, request: array<Member>, fuel: nat) returns (r: Reply)
    requires Valid(redis.db)
    modifies redis, request
    ensures request[..] == FlattenAll(old(request[..]))
    ensures (r, redis.db) == Communicate(old(redis.db), cfg, old(request[..]), fuel)
  {
    Flatten(request);
    var entry := EntryOf(request[..]);
    if entry.None? {
      return Raised(DataError);
    }
    ghost var db0 := redis.db;
    var _ := redis.XAdd(cfg.requestStream, entry.value);
    AppendValid(db0, cfg.requestStream, entry.value);
    var id := Get(request[..], "id");
    if id.None? {
      return Raised(KeyError("id"));
    }
    r := AwaitResponse(redis, cfg.responseStream, cfg.responseGroup, id.value, fuel);
  }

  /** Any content `redis_communication` returns comes from a response entry that carries
      the id of the request it published and whose payload yields that content. */
  lemma CommunicateAnswer(db: Db, cfg: Config, request: seq<Member>, fuel: nat)
    requires Valid(db)
    requires Communicate(db, cfg, request, fuel).0.Answer?
    ensures var (post, db1) := Publish(db, cfg, request);
      && post.Posted?
      && HasGroup(db1, cfg.responseStream, cfg.responseGroup)
      && exists i :: GroupOf(db1, cfg.responseStream, cfg.responseGroup).lastDelivered <= i < |db1[cfg.responseStream].entries|
           && Matches(db1[cfg.responseStream].entries[i], post.reqId)
           && Usable(db1[cfg.responseStream].entries[i]) == Some(Content(Communicate(db, cfg, request, fuel).0.content))
  {
    PublishValid(db, cfg, request);
    var (post, db1) := Publish(db, cfg, request);
    AwaitAnswer(db1, cfg.responseStream, cfg.responseGroup, post.reqId, fuel);
  }

  // ------------------------------------------------------------ generate_model_response

  /** The dict `generate_model_response` builds; `id` stands for `str(uuid.uuid4())`. */
  function RequestFor(id: string, model: string, messages: seq<Json>): seq<Member>
  {
    [Member("id", JStr(id)), Member("model", JStr(model)), Member("prompt", JArr(messages))]
  }

  /** The request entry as it lands in the stream. */
  function RequestEntry(id: string, model: string, messages: seq<Json>): Fields
  {
    map["id" := id, "model" := model, "prompt" := Encode(JArr(messages))]
  }

  /** Adding one sendable member to a sendable dict sets that one field. */
  lemma WireFieldsSnoc(ms: seq<Member>, m: Member)
    requires WireFields(ms).Some? && Sendable(m.value)
    ensures WireFields(ms + [m]) == Some(WireFields(ms).value[m.key := WireText(m.value)])
  {
    assert (ms + [m])[..|ms|] == ms;
  }

  /** A generated request is always sent: its entry carries the id, the model and the
      messages as JSON text that reads back as the messages. */
  lemma PublishRequest(db: Db, cfg: Config, id: string, model: string, messages: seq<Json>)
    ensures Publish(db, cfg, RequestFor(id, model, messages)) ==
      (Posted(JStr(id)), Append(db, cfg.requestStream, RequestEntry(id, model, messages)).1)
    ensures Decode(RequestEntry(id, model, messages)["prompt"]) == Some(JArr(messages))
  {
    RequestWire(id, model, messages);
    DecodeEncode(JArr(messages));
  }

  /** The three fields flatten to the request entry, and the id is the one generated. */
  lemma RequestWire(id: string, model: string, messages: seq<Json>)
    ensures var flat := FlattenAll(RequestFor(id, model, messages));
      EntryOf(flat) == Some(RequestEntry(id, model, messages)) && Get(flat, "id") == Some(JStr(id))
  {
    var a, b, c := Member("id", JStr(id)), Member("model", JStr(model)), Member("prompt", JStr(Encode(JArr(messages))));
    assert FlattenAll(RequestFor(id, model, messages)) == [a, b, c];
    assert WireFields([]) == Some(map[]);
    WireFieldsSnoc([], a);
    assert [] + [a] == [a];
    WireFieldsSnoc([a], b);
    assert [a] + [b] == [a, b];
    WireFieldsSnoc([a, b], c);
    assert [a, b] + [c] == [a, b, c];
    assert EntryOf([a, b, c]) == Some(RequestEntry(id, model, messages));
    assert Get([a, b, c], "id") == Some(JStr(id));
  }

  /** `generate_model_response`: a three-field request, then `redis_communication`. */
  method GenerateModelResponse(redis: Redis, cfg: Config, model: string, messages: seq<Json>, id: string, fuel: nat)
    returns (r: Reply)
    requires Valid(redis.db)
    modifies redis
    ensures (r, redis.db) == Communicate(old(redis.db), cfg, RequestFor(id, model, messages), fuel)
  {
    var request := new Member[3] [Member("id", JStr(id)), Member("model", JStr(model)), Member("prompt", JArr(messages))];
    assert request[..] == RequestFor(id, model, messages);
    r := RedisCommunication(redis, cfg, request, fuel);
  }

  /** Each call appends exactly one entry to the request stream, the one carrying its id,
      and waiting adds nothing to any stream. */
  lemma GenerateAppendsOne(db: Db, cfg: Config, id: string, model: string, messages: seq<Json>, fuel: nat)
    requires Valid(db)
    ensures var db2 := Communicate(db, cfg, RequestFor(id, model, messages), fuel).1;
      && Entries(db2, cfg.requestStream) == Entries(db, cfg.requestStream) + [RequestEntry(id, model, messages)]
      && forall k :: k != cfg.requestStream ==> Entries(db2, k) == Entries(db, k)
  {
    PublishRequest(db, cfg, id, model, messages);
    PublishValid(db, cfg, RequestFor(id, model, messages));
    var db1 := Append(db, cfg.requestStream, RequestEntry(id, model, messages)).1;
    AwaitFrame(db1, cfg.responseStream, cfg.responseGroup, JStr(id), fuel);
  }

  // ------------------------------------------------------------ the payload, read back

  /** The shape of a chat completion: one choice whose message carries `content`. */
  function Completion(content: Json): Json
  {
    JObj([Member("choices", JArr([JObj([Member("message", JObj([Member("role", JStr("assistant")), Member("content", content)]))])]))])
  }

  /** With `choices` a non-empty list whose first entry is an object without `message`,
      the result is "No content found". */
  lemma ExtractNoMessage(ms: seq<Member>, cs: seq<Json>, first: seq<Member>)
    requires Get(ms, "choices") == Some(JArr(cs))
    requires cs != [] && cs[0] == JObj(first)
    requires Get(first, "message").None?
    ensures Extract(JObj(ms)) == Content(JStr(NoContent))
  {
    assert ChoicesList(JObj(ms)) == Some(cs);
  }

  /** With `choices[0].message` an object, the result is its `content`, or "No content
      found" when it has none. */
  lemma ExtractMessage(ms: seq<Member>, cs: seq<Json>, first: seq<Member>, msg: seq<Member>)
    requires Get(ms, "choices") == Some(JArr(cs))
    requires cs != [] && cs[0] == JObj(first)
    requires Get(first, "message") == Some(JObj(msg))
    ensures Get(msg, "content").Some? ==> Extract(JObj(ms)) == Content(Get(msg, "content").value)
    ensures Get(msg, "content").None? ==> Extract(JObj(ms)) == Content(JStr(NoContent))
  {
    assert ChoicesList(JObj(ms)) == Some(cs);
    assert GetOr(first, "message", JObj([])) == JObj(msg);
  }

  /** A completion's content always comes back out. */
  lemma ExtractCompletion(c: Json)
    ensures Extract(Completion(c)) == Content(c)
  {
    var msg := [Member("role", JStr("assistant")), Member("content", c)];
    var first := [Member("message", JObj(msg))];
    assert Get(msg, "content") == Some(c);
    assert Get(first, "message") == Some(JObj(msg));
    ExtractMessage(Completion(c).members, [JObj(first)], first, msg);
  }
}
