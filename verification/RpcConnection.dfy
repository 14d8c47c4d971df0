/**
  A JSON-RPC connection (librpc/jrpc/connection.c, librpc/jrpc/jrpc.c): the
  identifier generator, the table of pending callbacks and the dispatch of
  incoming messages.  The first part is the connection as a value; the class
  keeps its callbacks in the hash table of hash.c.
 */
module RpcConnection {
  import opened Wrappers
  import opened JsonRpc
  import HT = HashTable
  import ProbeTable
  import TableRuns
  import MultHash

  // A callback and its user data, both opaque to the connection.
  datatype Callback = Callback(cb: int, userData: int)

  datatype Firing = Firing(id: nat, callback: Callback, result: Json)

  datatype Conn = Conn(
    currentId: nat,
    pending: map<nat, Callback>,
    issued: map<nat, Callback>,
    fired: seq<Firing>,
    sent: seq<Json>,
    errors: seq<Message>)     // error responses given to the error handler

  const NEW_CONN := Conn(1, map[], map[], [], [], [])

  datatype Event =
    | Call(name: string, params: Option<Json>, callback: Option<Callback>)
    | Receive(obj: Json)

  function DoCall(c: Conn, name: string, params: Option<Json>, callback: Option<Callback>): Conn {
    match callback
    case None => c.(sent := c.sent + [MakeCall(name, params, 0)])
    case Some(cb) =>
      Conn(c.currentId + 1, c.pending[c.currentId := cb], c.issued[c.currentId := cb], c.fired,
           c.sent + [MakeCall(name, params, c.currentId)], c.errors)
  }

  function SendIfAny(c: Conn, reply: Option<Json>): Conn {
    match reply
    case Some(r) => c.(sent := c.sent + [r])
    case None => c
  }

  /** Treats one incoming message; also the return code. */
  function DoReceive(mapper: Mapper, c: Conn, obj: Json): (Conn, int) {
    match Unpack(obj)
    case Request(name, id, params) =>
      var r := ServeRequest(mapper, name, id, params);
      (SendIfAny(c, r.1), r.0)
    case ResultResponse(id, result) =>
      if id in c.pending then
        (c.(pending := c.pending - {id}, fired := c.fired + [Firing(id, c.pending[id], result)]), 0)
      else (c, ERR_INVALID_RESPONSE_ID)
    case ErrorResponse(_, _, _, _) => (c.(errors := c.errors + [Unpack(obj)]), 0)
    case Invalid(err) =>
      (SendIfAny(c, if err == ERR_INVALID_REQUEST then Some(MakeError(err, "invalid request", None, 0)) else None), err)
  }

  function Do(mapper: Mapper, c: Conn, e: Event): Conn {
    match e
    case Call(name, params, cb) => DoCall(c, name, params, cb)
    case Receive(obj) => DoReceive(mapper, c, obj).0
  }

  function Run(mapper: Mapper, c: Conn, es: seq<Event>): Conn
    decreases |es|
  {
    if es == [] then c else Run(mapper, Do(mapper, c, es[0]), es[1..])
  }

  // ---------------------------------------------------------------------
  // What every run keeps
  // ---------------------------------------------------------------------

  ghost predicate HasFired(c: Conn, id: nat) {
    exists n :: 0 <= n < |c.fired| && c.fired[n].id == id
  }

  /**
    Identifiers are issued from 1 on; the pending callbacks are those issued and
    not fired; each firing is of the callback registered for its identifier, and
    no identifier fires twice.
   */
  ghost predicate Inv(c: Conn) {
    && c.currentId >= 1
    && (forall id :: id in c.issued <==> 1 <= id < c.currentId)
    && (forall id :: id in c.pending <==> id in c.issued && !HasFired(c, id))
    && (forall id :: id in c.pending ==> c.pending[id] == c.issued[id])
    && (forall n :: 0 <= n < |c.fired| ==>
          c.fired[n].id in c.issued && c.fired[n].callback == c.issued[c.fired[n].id])
    && (forall n, m :: 0 <= n < m < |c.fired| ==> c.fired[n].id != c.fired[m].id)
  }

  lemma FireInv(c: Conn, id: nat, result: Json)
    requires Inv(c) && id in c.pending
    ensures Inv(c.(pending := c.pending - {id}, fired := c.fired + [Firing(id, c.pending[id], result)]))
  {
    var f := Firing(id, c.pending[id], result);
    var c' := c.(pending := c.pending - {id}, fired := c.fired + [f]);
    forall i
      ensures HasFired(c', i) <==> HasFired(c, i) || i == id
    {
      if HasFired(c, i) {
        var n :| 0 <= n < |c.fired| && c.fired[n].id == i;
        assert c'.fired[n].id == i;
      }
      assert c'.fired[|c.fired|] == f;
    }
    assert forall n :: 0 <= n < |c.fired| ==> c.fired[n].id != id;
  }

  lemma CallInv(c: Conn, name: string, params: Option<Json>, cb: Option<Callback>)
    requires Inv(c)
    ensures Inv(DoCall(c, name, params, cb))
  {
    var d := if cb == None then c
      else c.(currentId := c.currentId + 1, pending := c.pending[c.currentId := cb.value],
              issued := c.issued[c.currentId := cb.value]);
    if cb != None {
      RegisterInv(c, cb.value);
    }
    SentInv(d, MakeCall(name, params, if cb == None then 0 else c.currentId));
  }

  lemma DoInv(mapper: Mapper, c: Conn, e: Event)
    requires Inv(c)
    ensures Inv(Do(mapper, c, e))
  {
    match e
    case Call(name, params, cb) =>
      CallInv(c, name, params, cb);
    case Receive(obj) =>
      var c' := DoReceive(mapper, c, obj).0;
      if Unpack(obj).ResultResponse? && Unpack(obj).id in c.pending {
        FireInv(c, Unpack(obj).id, Unpack(obj).result);
      } else {
        assert forall id :: HasFired(c', id) <==> HasFired(c, id);
      }
  }

  /** The n-th firing of a run was made by a received response that carries its identifier and its result. */
  ghost predicate CausedBy(es: seq<Event>, f: Firing) {
    exists i :: 0 <= i < |es| && es[i].Receive? && Unpack(es[i].obj) == ResultResponse(f.id, f.result)
  }

  lemma DoFired(mapper: Mapper, c: Conn, e: Event)
    ensures var d := Do(mapper, c, e);
            || d.fired == c.fired
            || (e.Receive? && |d.fired| == |c.fired| + 1 && d.fired[..|c.fired|] == c.fired
                && Unpack(e.obj) == ResultResponse(d.fired[|c.fired|].id, d.fired[|c.fired|].result))
  {
  }

  lemma CausedLater(es: seq<Event>, f: Firing)
    requires es != [] && CausedBy(es[1..], f)
    ensures CausedBy(es, f)
  {
    var i :| 0 <= i < |es[1..]| && es[1..][i].Receive? && Unpack(es[1..][i].obj) == ResultResponse(f.id, f.result);
    assert es[i + 1] == es[1..][i];
  }

  lemma {:induction false} RunFired(mapper: Mapper, c: Conn, es: seq<Event>)
    requires Inv(c)
    ensures var c' := Run(mapper, c, es);
            && Inv(c')
            && c.fired <= c'.fired
            && (forall n :: |c.fired| <= n < |c'.fired| ==> CausedBy(es, c'.fired[n]))
    decreases |es|
  {
    if es != [] {
      var d := Do(mapper, c, es[0]);
      DoInv(mapper, c, es[0]);
      DoFired(mapper, c, es[0]);
      RunFired(mapper, d, es[1..]);
      var fired := Run(mapper, d, es[1..]).fired;
      forall n | |c.fired| <= n < |fired|
        ensures CausedBy(es, fired[n])
      {
        if n >= |d.fired| {
          CausedLater(es, fired[n]);
        } else {
          assert fired[n] == d.fired[n];
        }
      }
    }
  }

  /**
    In every run each registered callback fires at most once, with its own user
    data and a result received for its identifier; the pending identifiers are
    exactly those issued and not answered by a result.
   */
  lemma CallbacksFireOnce(mapper: Mapper, es: seq<Event>)
    ensures var c := Run(mapper, NEW_CONN, es);
            && (forall id :: id in c.pending <==> id in c.issued && !HasFired(c, id))
            && (forall n, m :: 0 <= n < m < |c.fired| ==> c.fired[n].id != c.fired[m].id)
            && (forall n :: 0 <= n < |c.fired| ==>
                  && c.fired[n].id in c.issued && c.fired[n].callback == c.issued[c.fired[n].id]
                  && CausedBy(es, c.fired[n]))
  {
    RunFired(mapper, NEW_CONN, es);
  }

  /** An error response reaches only the error handler: the callback stays pending. */
  lemma ErrorKeepsPending(mapper: Mapper, c: Conn, obj: Json)
    requires Unpack(obj).ErrorResponse?
    ensures var c' := DoReceive(mapper, c, obj).0;
            && c'.pending == c.pending && c'.fired == c.fired && c'.sent == c.sent
            && c'.errors == c.errors + [Unpack(obj)]
  {
  }

  /** A result for this identifier is among the messages received. */
  ghost predicate ResultFor(es: seq<Event>, id: nat) {
    exists i :: 0 <= i < |es| && es[i].Receive? && IsResultFor(Unpack(es[i].obj), id)
  }

  predicate IsResultFor(m: Message, id: nat) {
    m.ResultResponse? && m.id == id
  }

  lemma ResultForFirst(es: seq<Event>, id: nat)
    requires es != []
    ensures ResultFor(es, id) <==> (es[0].Receive? && IsResultFor(Unpack(es[0].obj), id)) || ResultFor(es[1..], id)
  {
    if i :| 0 <= i < |es[1..]| && es[1..][i].Receive? && IsResultFor(Unpack(es[1..][i].obj), id) {
      assert es[i + 1] == es[1..][i];
    }
    if i :| 0 < i < |es| && es[i].Receive? && IsResultFor(Unpack(es[i].obj), id) {
      assert es[1..][i - 1] == es[i];
    }
  }

  /** A callback that has been fired is never registered again. */
  lemma {:induction false} StaysFired(mapper: Mapper, c: Conn, es: seq<Event>, id: nat)
    requires Inv(c) && HasFired(c, id)
    ensures id !in Run(mapper, c, es).pending
    decreases |es|
  {
    if es != [] {
      var d := Do(mapper, c, es[0]);
      DoInv(mapper, c, es[0]);
      DoFired(mapper, c, es[0]);
      var n :| 0 <= n < |c.fired| && c.fired[n].id == id;
      assert d.fired[n] == c.fired[n];
      StaysFired(mapper, d, es[1..], id);
    }
  }

  lemma DoPending(mapper: Mapper, c: Conn, e: Event, id: nat)
    requires Inv(c) && id in c.pending
    ensures var d := Do(mapper, c, e);
            if e.Receive? && IsResultFor(Unpack(e.obj), id) then id !in d.pending && HasFired(d, id)
            else id in d.pending && d.pending[id] == c.pending[id]
  {
    var d := Do(mapper, c, e);
    if e.Receive? && IsResultFor(Unpack(e.obj), id) {
      assert d.fired[|c.fired|].id == id;
    }
  }

  /**
    Whatever happens, errors for its identifier included: a pending callback
    stays pending exactly as long as no result for its identifier is received.
   */
  lemma {:induction false} PendingUntilResult(mapper: Mapper, c: Conn, es: seq<Event>, id: nat)
    requires Inv(c) && id in c.pending
    ensures id in Run(mapper, c, es).pending <==> !ResultFor(es, id)
    ensures !ResultFor(es, id) ==> Run(mapper, c, es).pending[id] == c.pending[id]
    decreases |es|
  {
    if es != [] {
      var d := Do(mapper, c, es[0]);
      DoInv(mapper, c, es[0]);
      DoPending(mapper, c, es[0], id);
      ResultForFirst(es, id);
      if id in d.pending {
        PendingUntilResult(mapper, d, es[1..], id);
      } else {
        StaysFired(mapper, d, es[1..], id);
      }
    }
  }

  // ---------------------------------------------------------------------
  // What one message does
  // ---------------------------------------------------------------------

  /** The connection has sent one message more, which a peer unpacks as m. */
  ghost predicate Sends(c: Conn, d: Conn, m: Message) {
    && |d.sent| == |c.sent| + 1 && d.sent[..|c.sent|] == c.sent && Unpack(d.sent[|c.sent|]) == m
  }

  /** The callbacks and the errors are as they were. */
  ghost predicate SameCallbacks(c: Conn, d: Conn) {
    && d.currentId == c.currentId && d.pending == c.pending && d.issued == c.issued
    && d.fired == c.fired && d.errors == c.errors
  }

  /**
    A request is answered to its identifier: with the error "method not found",
    with the status of the method that failed, in the low byte of the code, or
    with its result.  A notification, which has identifier 0, is not answered if
    its method succeeds, nor is a request whose method has set no result.
   */
  lemma RequestIsServed(mapper: Mapper, c: Conn, obj: Json, name: string, id: nat, params: Option<Json>)
    requires Unpack(obj) == Request(name, id, params)
    ensures var (d, ret) := DoReceive(mapper, c, obj);
            && SameCallbacks(c, d)
            && (name !in mapper.methods ==>
                  ret == -32601 && Sends(c, d, ErrorResponse(id, -32601, "method was not found", None)))
            && (name in mapper.methods ==>
                  var (status, result) := mapper.methods[name](params);
                  var code := status % 256;
                  && (status != 0 ==>
                        && ret == -30000 + code
                        && Sends(c, d, ErrorResponse(id, ret, if code in mapper.messages then mapper.messages[code]
                                                              else "method returned an unknow error", None)))
                  && (status == 0 ==> ret == 0)
                  && (status == 0 && id != 0 && result.Some? ==> Sends(c, d, ResultResponse(id, result.value)))
                  && (status == 0 && (id == 0 || result.None?) ==> d == c))
  {
    UnpackRequestExactly(obj, name, id, params);
    ReplyTellsOutcome(mapper, name, id, params);
  }

  /** A malformed request is answered with an error to no identifier; a malformed response is not answered. */
  lemma InvalidIsReported(mapper: Mapper, c: Conn, obj: Json)
    requires Unpack(obj).Invalid?
    ensures var (d, ret) := DoReceive(mapper, c, obj);
            if obj.JObject? && "method" in obj.members && obj.members["method"].JString? then
              ret == -32600 && SameCallbacks(c, d) && Sends(c, d, ErrorResponse(0, -32600, "invalid request", None))
            else ret == -32088 && d == c
  {
    UnpackInvalidExactly(obj);
    UnpackMakeError(ERR_INVALID_REQUEST, "invalid request", None, 0);
  }

  /** A result fires its callback with it, once; a result for no pending callback is refused and changes nothing. */
  lemma ResultIsDelivered(mapper: Mapper, c: Conn, obj: Json, id: nat, result: Json)
    requires Unpack(obj) == ResultResponse(id, result)
    ensures var (d, ret) := DoReceive(mapper, c, obj);
            if id in c.pending then
              && ret == 0 && id !in d.pending && (forall i :: i in c.pending && i != id ==> i in d.pending && d.pending[i] == c.pending[i])
              && (forall i :: i in d.pending ==> i in c.pending)
              && d.fired == c.fired + [Firing(id, c.pending[id], result)]
              && (d.currentId, d.issued, d.sent, d.errors) == (c.currentId, c.issued, c.sent, c.errors)
            else ret == -32089 && d == c
  {
  }

  /** An error goes to the error handler with all its parts, and nowhere else. */
  lemma ErrorIsHandled(mapper: Mapper, c: Conn, obj: Json, id: nat, code: int, message: string, data: Option<Json>)
    requires Unpack(obj) == ErrorResponse(id, code, message, data)
    ensures var (d, ret) := DoReceive(mapper, c, obj);
            ret == 0 && d == c.(errors := c.errors + [ErrorResponse(id, code, message, data)])
  {
  }

  /**
    A call sends one request with its parameters, under the next identifier, and
    makes its callback pending under it; a notification sends one without
    identifier and changes nothing else.
   */
  lemma CallSends(c: Conn, name: string, params: Option<Json>, callback: Option<Callback>)
    ensures var d := DoCall(c, name, params, callback);
            && Sends(c, d, Request(name, if callback.None? then 0 else c.currentId % 0x1_0000_0000, params))
            && d.fired == c.fired && d.errors == c.errors
            && match callback
               case None => SameCallbacks(c, d) && "id" !in d.sent[|c.sent|].members
               case Some(cb) =>
                 && d.currentId == c.currentId + 1
                 && d.pending == c.pending[c.currentId := cb] && d.issued == c.issued[c.currentId := cb]
                 && (c.currentId != 0 ==> d.sent[|c.sent|].members["id"] == JInt(c.currentId))
  {
    UnpackMakeCall(name, params, if callback.None? then 0 else c.currentId);
    CallMembers(name, params, if callback.None? then 0 else c.currentId);
  }

  /**
    A notification reaches the method of the server with exactly its parameters.
    The server replies exactly when the method is missing or fails, and the
    client's error handler then gets an error for no call.
   */
  lemma NotificationIsServed(server: Mapper, s: Conn, client: Mapper, c: Conn, name: string, params: Option<Json>)
    ensures var sent := DoCall(c, name, params, None);
            var (t, ret) := DoReceive(server, s, sent.sent[|c.sent|]);
            && (ret == 0 <==> name in server.methods && server.methods[name](params).0 == 0)
            && (name in server.methods && server.methods[name](params).0 != 0 ==>
                  ret == -30000 + server.methods[name](params).0 % 256)
            && (ret == 0 ==> t == s)
            && (ret != 0 ==>
                  && |t.sent| == |s.sent| + 1 && t.sent[..|s.sent|] == s.sent
                  && var d := DoReceive(client, sent, t.sent[|s.sent|]).0;
                     && (d.pending, d.fired, d.sent) == (sent.pending, sent.fired, sent.sent)
                     && |d.errors| == |c.errors| + 1 && d.errors[..|c.errors|] == c.errors
                     && d.errors[|c.errors|].ErrorResponse? && d.errors[|c.errors|].id == 0 && d.errors[|c.errors|].code == ret)
  {
    CallSends(c, name, params, None);
    RequestIsServed(server, s, DoCall(c, name, params, None).sent[|c.sent|], name, 0, params);
  }

  // ---------------------------------------------------------------------
  // A call and its answer
  // ---------------------------------------------------------------------

  /** What a connection in state s sends when it receives obj. */
  function AnswerOf(server: Mapper, s: Conn, obj: Json): Option<Json> {
    var t := DoReceive(server, s, obj).0;
    if |s.sent| < |t.sent| then Some(t.sent[|s.sent|]) else None
  }

  /** The state of the client after a call, its treatment by a server in state s, and the delivery of the reply, if any. */
  function Called(server: Mapper, s: Conn, client: Mapper, c: Conn, name: string, params: Option<Json>, cb: Callback): Conn {
    var called := DoCall(c, name, params, Some(cb));
    match AnswerOf(server, s, called.sent[|called.sent| - 1])
    case Some(reply) => DoReceive(client, called, reply).0
    case None => called
  }

  /**
    The reply to a call carries the low 32 bits of its identifier, because the
    server unpacks request identifiers as an int.  If the method returns a
    result, the callback pending under those bits fires, if there is one: it is
    that of the call exactly if the identifier fits in 32 bits.  If the method is
    not found or fails, the error handler gets those bits and every callback
    stays pending; if it sets no result, there is no reply.
   */
  lemma CallIsAnswered(server: Mapper, s: Conn, client: Mapper, c: Conn, name: string, params: Option<Json>, cb: Callback)
    requires Inv(c) && c.currentId < TWO_64
    ensures var id, called, after := c.currentId, DoCall(c, name, params, Some(cb)), Called(server, s, client, c, name, params, cb);
            && (HasFired(after, id) <==> id < TWO_32 && Returns(server, name, params))
            && (Returns(server, name, params) ==>
                  Fires(called, after, id % TWO_32, server.methods[name](params).1.value))
            && (id < TWO_32 && Returns(server, name, params) ==>
                  && after.fired == c.fired + [Firing(id, cb, server.methods[name](params).1.value)]
                  && after.pending == c.pending)
            && (!Succeeds(server, name, params) ==>
                  && after.pending == called.pending && after.fired == c.fired
                  && after.errors != [] && after.errors[..|after.errors| - 1] == c.errors
                  && after.errors[|after.errors| - 1].ErrorResponse? && after.errors[|after.errors| - 1].id == id % TWO_32)
            && (SetsNoResult(server, name, params) ==> after == called)
  {
    var id, low := c.currentId, c.currentId % TWO_32;
    UnpackMakeCall(name, params, id);
    CallPending(c, name, params, cb);
    if Returns(server, name, params) {
      CallReturns(server, s, client, c, name, params, cb);
    } else if !Succeeds(server, name, params) {
      CallFails(server, s, client, c, name, params, cb);
    } else {
      ServerAnswers(server, name, low, params);
    }
  }

  /** A result fires the callback pending under its identifier, and nothing if there is none. */
  ghost predicate Fires(c: Conn, after: Conn, id: nat, result: Json) {
    if id in c.pending then
      after == c.(pending := c.pending - {id}, fired := c.fired + [Firing(id, c.pending[id], result)])
    else after == c
  }

  lemma CallReturns(server: Mapper, s: Conn, client: Mapper, c: Conn, name: string, params: Option<Json>, cb: Callback)
    requires Inv(c) && c.currentId < TWO_64 && Returns(server, name, params)
    ensures var id, called, after := c.currentId, DoCall(c, name, params, Some(cb)), Called(server, s, client, c, name, params, cb);
            && (HasFired(after, id) <==> id < TWO_32)
            && Fires(called, after, id % TWO_32, server.methods[name](params).1.value)
            && (id < TWO_32 ==>
                  && after.fired == c.fired + [Firing(id, cb, server.methods[name](params).1.value)]
                  && after.pending == c.pending)
  {
    var id, low := c.currentId, c.currentId % TWO_32;
    UnpackMakeCall(name, params, id);
    CallPending(c, name, params, cb);
    if low != 0 {
      var r := server.methods[name](params).1.value;
      UnpackMakeResult(r, low);
      ReceiveResult(client, DoCall(c, name, params, Some(cb)), MakeResult(Some(r), low).value, low, r, id);
    }
  }

  /** The reply to a later call fires a callback left pending under the low 32 bits of its identifier. */
  lemma WrongCallbackFires(server: Mapper, s: Conn, client: Mapper, c: Conn, name: string, params: Option<Json>, cb: Callback)
    requires Inv(c) && TWO_32 <= c.currentId < TWO_64 && Returns(server, name, params)
    ensures var low, after := c.currentId % TWO_32, Called(server, s, client, c, name, params, cb);
            && (after.fired != c.fired <==> low in c.pending)
            && (low in c.pending ==>
                  after.fired == c.fired + [Firing(low, c.pending[low], server.methods[name](params).1.value)])
  {
    CallReturns(server, s, client, c, name, params, cb);
  }

  lemma CallFails(server: Mapper, s: Conn, client: Mapper, c: Conn, name: string, params: Option<Json>, cb: Callback)
    requires Inv(c) && c.currentId < TWO_64 && !Succeeds(server, name, params)
    ensures var id, called, after := c.currentId, DoCall(c, name, params, Some(cb)), Called(server, s, client, c, name, params, cb);
            && !HasFired(after, id) && after.pending == called.pending && after.fired == c.fired
            && after.errors != [] && after.errors[..|after.errors| - 1] == c.errors
            && after.errors[|after.errors| - 1].ErrorResponse? && after.errors[|after.errors| - 1].id == id % TWO_32
  {
    var id, low := c.currentId, c.currentId % TWO_32;
    var called := DoCall(c, name, params, Some(cb));
    UnpackMakeCall(name, params, id);
    CallPending(c, name, params, cb);
    ServerAnswers(server, name, low, params);
    var reply := AnswerOf(server, s, called.sent[|called.sent| - 1]).value;
    ErrorKeepsPending(client, called, reply);
    SameFired(called, DoReceive(client, called, reply).0, id);
  }

  lemma SameFired(c: Conn, d: Conn, id: nat)
    requires d.fired == c.fired
    ensures HasFired(d, id) <==> HasFired(c, id)
  {
  }

  lemma CallPending(c: Conn, name: string, params: Option<Json>, cb: Callback)
    requires Inv(c)
    ensures var called := DoCall(c, name, params, Some(cb));
            && called.pending - {c.currentId} == c.pending && called.pending[c.currentId] == cb
            && !HasFired(called, c.currentId)
  {
    var called := DoCall(c, name, params, Some(cb));
    assert c.currentId !in c.pending;
    forall n | 0 <= n < |c.fired|
      ensures c.fired[n].id != c.currentId
    {
      assert c.fired[n].id in c.issued;
    }
  }

  lemma ReceiveResult(mapper: Mapper, c: Conn, obj: Json, low: nat, r: Json, id: nat)
    requires Unpack(obj) == ResultResponse(low, r) && id in c.pending && !HasFired(c, id)
    ensures var after := DoReceive(mapper, c, obj).0;
            && Fires(c, after, low, r)
            && (HasFired(after, id) <==> low == id)
  {
    var after := DoReceive(mapper, c, obj).0;
    if low == id {
      assert after.fired[|c.fired|].id == id;
    } else {
      assert forall n :: 0 <= n < |after.fired| && n < |c.fired| ==> after.fired[n] == c.fired[n];
    }
  }

  // ---------------------------------------------------------------------
  // The connection object
  // ---------------------------------------------------------------------

  class Connection {
    const mapper: Mapper
    const responseTable: HT.HashTable<Callback>
    var currentId: nat
    var sent: seq<Json>
    var fired: seq<Firing>
    var errors: seq<Message>
    ghost var pending: map<nat, Callback>
    ghost var issued: map<nat, Callback>

    ghost function Abs(): Conn
      reads this
    {
      Conn(currentId, pending, issued, fired, sent, errors)
    }

    ghost predicate Valid()
      reads this, responseTable, responseTable.table
    {
      && Inv(Abs())
      && responseTable.hash == MultHash.Himult64
      && responseTable.Valid()
      && TableRuns.Refines(responseTable.table[..], Boxed(pending))
    }

    constructor (mapper: Mapper)
      ensures Valid() && fresh(responseTable) && fresh(responseTable.table)
      ensures Abs() == NEW_CONN && this.mapper == mapper
    {
      this.mapper := mapper;
      responseTable := new HT.HashTable<Callback>(MultHash.Himult64);
      currentId := 1;
      sent, fired, errors := [], [], [];
      pending, issued := map[], map[];
      new;
      TableRuns.NewRefines<Callback>();
      assert responseTable.table[..] == responseTable.Abs().slots;
    }

    method RegisterCallback(callback: Callback) returns (id: nat)
      requires Valid()
      modifies this`currentId, this`pending, this`issued, responseTable, responseTable.table
      ensures Valid() && (responseTable.table == old(responseTable.table) || fresh(responseTable.table))
      ensures id == old(currentId) && currentId == id + 1
      ensures pending == old(pending)[id := callback] && issued == old(issued)[id := callback]
    {
      RegisterInv(Abs(), callback);
      InsertEntry(callback);
      id := currentId;
      currentId := currentId + 1;
      pending := pending[id := callback];
      issued := issued[id := callback];
    }

    /** Puts the entry in the table under the current identifier. */
    method InsertEntry(callback: Callback)
      requires Valid()
      modifies responseTable, responseTable.table
      ensures responseTable.Valid() && (responseTable.table == old(responseTable.table) || fresh(responseTable.table))
      ensures TableRuns.Refines(responseTable.table[..], Boxed(pending[currentId := callback]))
    {
      RegisterRefines(responseTable.Abs(), Abs(), callback);
      responseTable.Insert(currentId, Some(callback));
      assert responseTable.table[..] == responseTable.Abs().slots;
    }

    method FindCallback(id: nat) returns (callback: Option<Callback>)
      requires Valid()
      modifies this`pending, responseTable, responseTable.table
      ensures responseTable.Valid() && responseTable.table == old(responseTable.table)
      ensures TableRuns.Refines(responseTable.table[..], Boxed(pending))
      ensures callback == (if id in old(pending) then Some(old(pending)[id]) else None)
      ensures pending == if callback == None then old(pending) else old(pending) - {id}
      ensures callback == None ==> Valid()
    {
      ghost var st := responseTable.Abs();
      FindRefines(st, Abs(), id);
      var entry := responseTable.Search(id);
      callback := entry;
      if entry != None {
        var _ := responseTable.Remove(id);
        pending := pending - {id};
        assert responseTable.table[..] == responseTable.Abs().slots;
      }
    }

    /** jrpc_call and, without callback, jrpc_notify. */
    method JrpcCall(name: string, params: Option<Json>, callback: Option<Callback>)
      requires Valid()
      modifies this, responseTable, responseTable.table
      ensures Valid() && (responseTable.table == old(responseTable.table) || fresh(responseTable.table))
      ensures Abs() == DoCall(old(Abs()), name, params, callback)
    {
      if callback == None {
        SendCall(MakeCall(name, params, 0));
      } else {
        var id := RegisterCallback(callback.value);
        SendCall(MakeCall(name, params, id));
      }
    }

    method SendCall(obj: Json)
      requires Valid()
      modifies this`sent
      ensures Valid() && Abs() == old(Abs()).(sent := old(sent) + [obj])
    {
      SentInv(Abs(), obj);
      sent := sent + [obj];
    }

    /** jrpc_process on one whole message. */
    method JrpcProcess(obj: Json) returns (ret: int)
      requires Valid()
      modifies this, responseTable, responseTable.table
      ensures Valid() && responseTable.table == old(responseTable.table)
      ensures (Abs(), ret) == DoReceive(mapper, old(Abs()), obj)
    {
      DoInv(mapper, Abs(), Receive(obj));
      match Unpack(obj) {
        case Request(name, id, params) =>
          var r := ServeRequest(mapper, name, id, params);
          ret := r.0;
          Send(r.1);
        case ResultResponse(id, result) =>
          ret := ProcessResult(id, result);
        case ErrorResponse(_, _, _, _) =>
          errors := errors + [Unpack(obj)];
          ret := 0;
        case Invalid(err) =>
          ret := err;
          if err == ERR_INVALID_REQUEST {
            Send(Some(MakeError(err, "invalid request", None, 0)));
          }
      }
    }

    method ProcessResult(id: nat, result: Json) returns (ret: int)
      requires Valid()
      modifies this`pending, this`fired, responseTable, responseTable.table
      ensures Valid() && responseTable.table == old(responseTable.table)
      ensures if id in old(pending) then
                ret == 0 && Abs() == old(Abs()).(pending := old(pending) - {id},
                                                 fired := old(fired) + [Firing(id, old(pending)[id], result)])
              else ret == ERR_INVALID_RESPONSE_ID && Abs() == old(Abs())
    {
      ghost var c := Abs();
      var callback := FindCallback(id);
      if callback == None {
        return ERR_INVALID_RESPONSE_ID;
      }
      FireInv(c, id, result);
      fired := fired + [Firing(id, callback.value, result)];
      return 0;
    }

    method Send(obj: Option<Json>)
      modifies this`sent
      ensures Abs() == SendIfAny(old(Abs()), obj)
    {
      if obj != None {
        sent := sent + [obj.value];
      }
    }
  }

  /** Sending a message keeps the invariant. */
  lemma SentInv(c: Conn, obj: Json)
    requires Inv(c)
    ensures Inv(c.(sent := c.sent + [obj]))
  {
    assert forall id :: HasFired(c.(sent := c.sent + [obj]), id) <==> HasFired(c, id);
  }

  /** The table stores pointers to entries; none of them is NULL. */
  ghost function Boxed(m: map<nat, Callback>): map<nat, Option<Callback>> {
    map id | id in m :: Some(m[id])
  }

  lemma RegisterInv(c: Conn, callback: Callback)
    requires Inv(c)
    ensures Inv(c.(currentId := c.currentId + 1, pending := c.pending[c.currentId := callback],
                   issued := c.issued[c.currentId := callback]))
  {
    var c' := c.(currentId := c.currentId + 1, pending := c.pending[c.currentId := callback],
                 issued := c.issued[c.currentId := callback]);
    RegisterNames(c, callback);
    forall n | 0 <= n < |c'.fired|
      ensures c'.fired[n].id in c'.issued && c'.fired[n].callback == c'.issued[c'.fired[n].id]
    {
      assert c.fired[n].id in c.issued;
    }
  }

  lemma RegisterNames(c: Conn, callback: Callback)
    requires Inv(c)
    ensures var c' := c.(currentId := c.currentId + 1, pending := c.pending[c.currentId := callback],
                         issued := c.issued[c.currentId := callback]);
            && (forall id :: id in c'.issued <==> 1 <= id < c'.currentId)
            && (forall id :: id in c'.pending <==> id in c'.issued && !HasFired(c', id))
  {
    var c' := c.(currentId := c.currentId + 1, pending := c.pending[c.currentId := callback],
                 issued := c.issued[c.currentId := callback]);
    forall id ensures HasFired(c', id) <==> HasFired(c, id) {
      SameFired(c, c', id);
    }
    assert !HasFired(c, c.currentId);
  }

  lemma RegisterRefines(st: ProbeTable.State<Callback>, c: Conn, callback: Callback)
    requires Inv(c) && TableRuns.Inv(MultHash.Himult64, st) && TableRuns.Refines(st.slots, Boxed(c.pending))
    ensures TableRuns.Refines(TableRuns.Insert(MultHash.Himult64, st, c.currentId, Some(callback)).slots,
                              Boxed(c.pending[c.currentId := callback]))
  {
    var op := TableRuns.OpInsert(c.currentId, Some(callback));
    assert c.currentId !in c.pending;
    TableRuns.FreshInsertIsUpdate(MultHash.Himult64, st, Boxed(c.pending), c.currentId);
    TableRuns.StepRefines(MultHash.Himult64, st, Boxed(c.pending), op);
    assert Boxed(c.pending)[c.currentId := Some(callback)] == Boxed(c.pending[c.currentId := callback]);
  }

  lemma FindRefines(st: ProbeTable.State<Callback>, c: Conn, id: nat)
    requires Inv(c) && TableRuns.Inv(MultHash.Himult64, st) && TableRuns.Refines(st.slots, Boxed(c.pending))
    ensures ProbeTable.Search(MultHash.Himult64, st.slots, id)
         == if id in c.pending then Some(c.pending[id]) else None
    ensures id in c.pending ==>
              && id != 0
              && TableRuns.Refines(TableRuns.Remove(MultHash.Himult64, st, id).0.slots, Boxed(c.pending - {id}))
  {
    TableRuns.RefinesLookup(MultHash.Himult64, st.slots, Boxed(c.pending), id);
    if id in c.pending {
      TableRuns.RefinesRemove(MultHash.Himult64, st, Boxed(c.pending), id);
      assert Boxed(c.pending) - {id} == Boxed(c.pending - {id});
    }
  }

}
